/**
 * One evaluation of a zone (src/state_manager_supabase.py): read its status and
 * newest readings, ask the analyzer for a decision, then write the zone row and
 * the alert history when the decision calls for it.
 */
module StateManager {
  import opened Wrappers
  import opened Db
  import opened Risk
  import Rest
  import Text

  const WEATHER_LIMIT: nat := 3
  const FIRE_LIMIT: nat := 5

  /** The zone's stored status, NORMAL when the lookup finds no row. */
  function CurrentStatus(zones: map<ZoneId, Zone>, zoneId: ZoneId): (s: Status)
    ensures zoneId !in zones ==> s == NORMAL
    ensures zoneId in zones ==> s == zones[zoneId].currentStatus
  {
    if zoneId in zones then zones[zoneId].currentStatus else NORMAL
  }

  /**
   * The zone row is written when the status changes, and always for ALERT: it is skipped
   * only when the status stays the same and is not ALERT.
   */
  predicate ShouldUpdate(current: Status, newStatus: Status)
    ensures newStatus == ALERT ==> ShouldUpdate(current, newStatus)
    ensures !ShouldUpdate(current, newStatus) ==> newStatus == current
  {
    newStatus != current || newStatus == ALERT
  }

  /** The zone's three newest weather readings, newest first; empty exactly when the zone has none. */
  function RecentWeather(s: Snapshot, zoneId: ZoneId): (r: seq<WeatherLog>)
    ensures |r| <= WEATHER_LIMIT
    ensures forall w :: w in r ==> w in s.weatherLogs && w.zoneId == zoneId
    ensures r == [] <==> forall w :: w in s.weatherLogs ==> w.zoneId != zoneId
  {
    NewestFirstOfZone(s.weatherLogs, WeatherZone, zoneId, WEATHER_LIMIT);
    NewestFirstEmptyIff(s.weatherLogs, WeatherZone, zoneId, WEATHER_LIMIT);
    NewestFirst(s.weatherLogs, WeatherZone, zoneId, WEATHER_LIMIT)
  }

  /** The zone's five newest fire rows, newest first; empty exactly when the zone has none. */
  function RecentFires(s: Snapshot, zoneId: ZoneId): (r: seq<FireEvent>)
    ensures |r| <= FIRE_LIMIT
    ensures forall f :: f in r ==> f in s.fireEvents && f.zoneId == zoneId
    ensures r == [] <==> forall f :: f in s.fireEvents ==> f.zoneId != zoneId
  {
    NewestFirstOfZone(s.fireEvents, FireZone, zoneId, FIRE_LIMIT);
    NewestFirstEmptyIff(s.fireEvents, FireZone, zoneId, FIRE_LIMIT);
    NewestFirst(s.fireEvents, FireZone, zoneId, FIRE_LIMIT)
  }

  /** What the evaluator writes for a decision, whoever made it. */
  function ApplyDecision(s: Snapshot, zoneId: ZoneId, d: Decision, now: Timestamp): (t: Snapshot)
    ensures t.weatherLogs == s.weatherLogs && t.fireEvents == s.fireEvents
    ensures t.zones.Keys == s.zones.Keys
    ensures forall z :: z in s.zones && z != zoneId ==> t.zones[z] == s.zones[z]
    ensures |s.alertHistory| <= |t.alertHistory| <= |s.alertHistory| + 1
    ensures t.alertHistory[..|s.alertHistory|] == s.alertHistory
  {
    if ShouldUpdate(CurrentStatus(s.zones, zoneId), d.newStatus) then
      var zones := if zoneId in s.zones
                   then s.zones[zoneId := s.zones[zoneId].(currentStatus := d.newStatus, lastUpdated := now)]
                   else s.zones;
      s.(zones := zones, alertHistory := s.alertHistory + AlertRows(zoneId, d, now))
    else s
  }

  /**
   * The decision the analyzer makes for a zone of the given snapshot. Without the language
   * model it is ALERT exactly when the fire table holds a row for the zone.
   */
  function DecisionFor(analyzer: AIAnalyzer, s: Snapshot, zoneId: ZoneId, zoneName: string,
                       aiReply: Option<Decision>, showTemp: real -> string): (d: Decision)
    ensures !analyzer.hasAi || aiReply.None? ==>
              IsLevel(d.newStatus) && (d.newStatus == ALERT <==> exists f :: f in s.fireEvents && f.zoneId == zoneId)
    ensures analyzer.hasAi && aiReply.Some? ==> d == aiReply.value
  {
    analyzer.EvaluateRisk(zoneName, CurrentStatus(s.zones, zoneId), RecentWeather(s, zoneId),
                          RecentFires(s, zoneId), aiReply, showTemp)
  }

  /** An ALERT always rewrites the zone (refreshing its timestamp) and logs one history row, even when already ALERT. */
  lemma AlertAlwaysWrites(s: Snapshot, zoneId: ZoneId, d: Decision, now: Timestamp)
    requires d.newStatus == ALERT && zoneId in s.zones
    ensures var t := ApplyDecision(s, zoneId, d, now);
            && t.zones[zoneId].currentStatus == ALERT && t.zones[zoneId].lastUpdated == now
            && t.alertHistory == s.alertHistory + [AlertEntry(zoneId, ALERT, d.messageEn, d.messageSw, now)]
  {
  }

  /** Staying in the same non-ALERT status writes nothing at all. */
  lemma SteadyStateWritesNothing(s: Snapshot, zoneId: ZoneId, d: Decision, now: Timestamp)
    requires d.newStatus == CurrentStatus(s.zones, zoneId) && d.newStatus != ALERT
    ensures ApplyDecision(s, zoneId, d, now) == s
  {
  }

  /** A change to NORMAL updates the zone but logs no history row. */
  lemma ChangeToNormalLogsNothing(s: Snapshot, zoneId: ZoneId, d: Decision, now: Timestamp)
    requires zoneId in s.zones && s.zones[zoneId].currentStatus != NORMAL && d.newStatus == NORMAL
    ensures var t := ApplyDecision(s, zoneId, d, now);
            t.zones[zoneId].currentStatus == NORMAL && t.zones[zoneId].lastUpdated == now
            && t.alertHistory == s.alertHistory
  {
  }

  /**
   * A non-NORMAL decision that is acted on logs exactly one row carrying the decided level
   * and its messages; whenever the zone row is written, it holds the decided status.
   */
  lemma {:induction false} WrittenStateMatchesDecision(s: Snapshot, zoneId: ZoneId, d: Decision, now: Timestamp)
    requires ShouldUpdate(CurrentStatus(s.zones, zoneId), d.newStatus)
    ensures var t := ApplyDecision(s, zoneId, d, now);
            && (zoneId in s.zones ==> t.zones[zoneId] == s.zones[zoneId].(currentStatus := d.newStatus, lastUpdated := now))
            && (zoneId !in s.zones ==> t.zones == s.zones)
            && |t.alertHistory| == |s.alertHistory| + (if d.newStatus == NORMAL then 0 else 1)
            && (d.newStatus != NORMAL ==>
                  t.alertHistory[|s.alertHistory|].riskLevel == d.newStatus
                  && t.alertHistory[|s.alertHistory|].messageEn == d.messageEn
                  && t.alertHistory[|s.alertHistory|].messageSw == d.messageSw)
  {
    var t := ApplyDecision(s, zoneId, d, now);
    if d.newStatus != NORMAL {
      var rows := AlertRows(zoneId, d, now);
      assert t.alertHistory == s.alertHistory + rows;
      assert t.alertHistory[|s.alertHistory|] == rows[0];
      assert rows[0] in rows;
    }
  }

  /** Applying the same non-ALERT decision a second time writes nothing more, for an existing zone. */
  lemma {:induction false} RepeatIsQuiet(s: Snapshot, zoneId: ZoneId, d: Decision, now1: Timestamp, now2: Timestamp)
    requires zoneId in s.zones && d.newStatus != ALERT
    ensures var t := ApplyDecision(s, zoneId, d, now1);
            ApplyDecision(t, zoneId, d, now2) == t
  {
    var t := ApplyDecision(s, zoneId, d, now1);
    if ShouldUpdate(CurrentStatus(s.zones, zoneId), d.newStatus) {
      assert t.zones[zoneId].currentStatus == d.newStatus;
    }
    assert CurrentStatus(t.zones, zoneId) == d.newStatus;
  }

  /**
   * For a zone id with no row the current status reads as NORMAL on every run, so a WATCH
   * decision logs a history row each time while the update touches no row.
   */
  lemma {:induction false} MissingZoneLogsEachTime(s: Snapshot, zoneId: ZoneId, d: Decision, now1: Timestamp, now2: Timestamp)
    requires zoneId !in s.zones && d.newStatus == WATCH
    ensures var t := ApplyDecision(s, zoneId, d, now1);
            var u := ApplyDecision(t, zoneId, d, now2);
            t.zones == s.zones && u.zones == s.zones && |u.alertHistory| == |s.alertHistory| + 2
  {
    var t := ApplyDecision(s, zoneId, d, now1);
    assert CurrentStatus(t.zones, zoneId) == NORMAL;
  }

  /** The reads ask for the zone's rows, newest first, at most 3 weather readings and 5 fire rows. */
  lemma {:induction false} ReadsAreBounded(s: Snapshot, zoneId: ZoneId)
    ensures |RecentWeather(s, zoneId)| <= WEATHER_LIMIT && |RecentFires(s, zoneId)| <= FIRE_LIMIT
    ensures forall w :: w in RecentWeather(s, zoneId) ==> w.zoneId == zoneId
    ensures forall f :: f in RecentFires(s, zoneId) ==> f.zoneId == zoneId
  {
    NewestFirstOfZone(s.weatherLogs, WeatherZone, zoneId, WEATHER_LIMIT);
    NewestFirstOfZone(s.fireEvents, FireZone, zoneId, FIRE_LIMIT);
  }

  /** The select params of the weather read: zone filter, recorded_at descending, limit 3. */
  lemma {:induction false} WeatherQueryParams(zoneId: ZoneId)
    ensures Rest.SelectParams("*", [("zone_id", Text.IntText(zoneId))], Some("recorded_at.desc"), Some(3))
            == Success(map["select" := Rest.Str("*"), "zone_id" := Rest.Str("eq." + Text.IntText(zoneId)),
                           "order" := Rest.Str("recorded_at.desc"), "limit" := Rest.Int(3)])
  {
    assert "recorded_at.desc" == "recorded_at" + ['.'] + "desc";
    Text.SplitTwo("recorded_at", "desc", '.');
    Rest.SelectParamsOneFilter("*", "zone_id", Text.IntText(zoneId), "recorded_at.desc", 3);
  }

  /** The select params of the fire read: zone filter, detected_at descending, limit 5. */
  lemma {:induction false} FireQueryParams(zoneId: ZoneId)
    ensures Rest.SelectParams("*", [("zone_id", Text.IntText(zoneId))], Some("detected_at.desc"), Some(5))
            == Success(map["select" := Rest.Str("*"), "zone_id" := Rest.Str("eq." + Text.IntText(zoneId)),
                           "order" := Rest.Str("detected_at.desc"), "limit" := Rest.Int(5)])
  {
    assert "detected_at.desc" == "detected_at" + ['.'] + "desc";
    Text.SplitTwo("detected_at", "desc", '.');
    Rest.SelectParamsOneFilter("*", "zone_id", Text.IntText(zoneId), "detected_at.desc", 5);
  }

  /** The zone lookup reads current_status of the row whose id is the zone's, with no order and no limit. */
  lemma {:induction false} ZoneLookupParams(zoneId: ZoneId)
    ensures Rest.SelectParams("current_status", [("id", Text.IntText(zoneId))], None, None)
            == Success(map["select" := Rest.Str("current_status"), "id" := Rest.Str("eq." + Text.IntText(zoneId))])
  {
    var f := ("id", Text.IntText(zoneId));
    var none: Rest.Filters := [];
    assert [f][..0] == none;
    assert Rest.WithFilters(map["select" := Rest.Str("current_status")], [f])
           == map["select" := Rest.Str("current_status")][f.0 := Rest.Str("eq." + f.1)];
  }

  /** The zone write is a PATCH on `zones?id=eq.<id>`, and that query string reads back as the one filter. */
  lemma {:induction false} ZonePatchQuery(zoneId: ZoneId)
    ensures Rest.QueryString([("id", Text.IntText(zoneId))]) == "id=eq." + Text.IntText(zoneId)
    ensures Rest.ParseQuery(Rest.QueryString([("id", Text.IntText(zoneId))])) == Some([("id", Text.IntText(zoneId))])
  {
    var filters := [("id", Text.IntText(zoneId))];
    assert "id" + "=eq." == "id=eq.";
    assert Rest.FilterTerms(filters) == ["id=eq." + Text.IntText(zoneId)];
    assert '&' !in Text.IntText(zoneId) by {
      forall k | 0 <= k < |Text.IntText(zoneId)| ensures Text.IntText(zoneId)[k] != '&' {
      }
    }
    Rest.QueryStringRoundTrip(filters);
  }

  /** Without a language model, a zone with any fire row ends up ALERT with one more history row. */
  lemma {:induction false} FireRowMeansAlert(analyzer: AIAnalyzer, s: Snapshot, zoneId: ZoneId, zoneName: string,
                                             f: FireEvent, showTemp: real -> string, now: Timestamp)
    requires !analyzer.hasAi && f in s.fireEvents && f.zoneId == zoneId && zoneId in s.zones
    ensures var d := DecisionFor(analyzer, s, zoneId, zoneName, None, showTemp);
            var t := ApplyDecision(s, zoneId, d, now);
            && d.newStatus == ALERT
            && t.zones[zoneId].currentStatus == ALERT && t.zones[zoneId].lastUpdated == now
            && |t.alertHistory| == |s.alertHistory| + 1
  {
    NewestFirstNonEmpty(s.fireEvents, FireZone, zoneId, FIRE_LIMIT, f);
  }

  /**
   * Without a language model and with no fire row for the zone, a newest reading of 30 degrees
   * and 20% humidity turns a NORMAL zone WATCH and logs one WATCH row.
   */
  lemma {:induction false} HotDryZoneGoesWatch(analyzer: AIAnalyzer, s: Snapshot, zoneId: ZoneId, zoneName: string,
                                               showTemp: real -> string, now: Timestamp)
    requires !analyzer.hasAi && zoneId in s.zones && s.zones[zoneId].currentStatus == NORMAL
    requires forall f :: f in s.fireEvents ==> f.zoneId != zoneId
    requires |s.weatherLogs| >= 1 && s.weatherLogs[|s.weatherLogs| - 1] == WeatherLog(zoneId, 30.0, 20.0, now)
    ensures var d := DecisionFor(analyzer, s, zoneId, zoneName, None, showTemp);
            var t := ApplyDecision(s, zoneId, d, now);
            && d.newStatus == WATCH
            && t.zones[zoneId].currentStatus == WATCH
            && |t.alertHistory| == |s.alertHistory| + 1
            && t.alertHistory[|s.alertHistory|].riskLevel == WATCH
  {
    RowsOfNone(s.fireEvents, FireZone, zoneId);
    var last := s.weatherLogs[|s.weatherLogs| - 1];
    var init := s.weatherLogs[..|s.weatherLogs| - 1];
    assert s.weatherLogs == init + [last];
    var mw := RowsOf(s.weatherLogs, WeatherZone, zoneId);
    assert mw == RowsOf(init, WeatherZone, zoneId) + [last];
    var rw := RecentWeather(s, zoneId);
    assert rw[0] == last;
    var d := DecisionFor(analyzer, s, zoneId, zoneName, None, showTemp);
    WrittenStateMatchesDecision(s, zoneId, d, now);
  }

  /** The evaluator; it and its analyzer write to the same database. */
  class SupabaseStateManager {
    const db: Store

    constructor (db: Store)
      ensures this.db == db
    {
      this.db := db;
    }

    /**
     * Evaluates one zone and returns the decided status. The decision may come from the
     * threshold rule or from the language model; either way the writes follow ApplyDecision.
     */
    method AnalyzeZone(zoneId: ZoneId, zoneName: string, analyzer: AIAnalyzer, aiReply: Option<Decision>,
                       showTemp: real -> string, now: Timestamp)
      returns (newStatus: Status)
      requires analyzer.db == db
      modifies db`zones, db`alertHistory
      ensures var d := DecisionFor(analyzer, old(db.State()), zoneId, zoneName, aiReply, showTemp);
              newStatus == d.newStatus && db.State() == ApplyDecision(old(db.State()), zoneId, d, now)
    {
      ghost var s0 := db.State();
      var currentStatus := if zoneId in db.zones then db.zones[zoneId].currentStatus else NORMAL;
      var weatherHistory := NewestFirst(db.weatherLogs, WeatherZone, zoneId, WEATHER_LIMIT);
      var fireEvents := NewestFirst(db.fireEvents, FireZone, zoneId, FIRE_LIMIT);
      var decision := analyzer.EvaluateRisk(zoneName, currentStatus, weatherHistory, fireEvents, aiReply, showTemp);
      assert decision == DecisionFor(analyzer, s0, zoneId, zoneName, aiReply, showTemp);
      newStatus := decision.newStatus;
      if newStatus != currentStatus || newStatus == ALERT {
        db.UpdateZone(zoneId, newStatus, now);
        analyzer.SaveAlert(zoneId, decision, now);
      }
      assert db.State() == ApplyDecision(s0, zoneId, decision, now);
    }
  }
}
