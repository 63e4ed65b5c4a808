/**
 * The four tables of the hosted database, held in memory. Rows of the weather and
 * fire tables are kept in insertion order, which is also timestamp order because
 * every row is stamped with the current time when it is inserted; "newest first"
 * therefore means "from the end of the table".
 */
module Db {
  import opened Wrappers

  type ZoneId = int

  /** A zone's risk level. Stored as text: a language-model reply may hold any string. */
  type Status = string

  const NORMAL: Status := "NORMAL"
  const WATCH: Status := "WATCH"
  const ALERT: Status := "ALERT"

  /** Timestamps ("now()", an ISO time) are opaque text. */
  type Timestamp = string

  /** A column of a fetched row: absent from the row, JSON null, or a value. */
  datatype Field<T> = Missing | Null | Value(v: T)

  datatype Zone = Zone(name: string, currentStatus: Status, lastUpdated: Timestamp)

  datatype WeatherLog = WeatherLog(zoneId: ZoneId, temp: real, humidity: real, recordedAt: Timestamp)

  /** A fire row; lat and lon are None when the column holds null. */
  datatype FireEvent = FireEvent(id: int, zoneId: ZoneId, lat: Option<real>, lon: Option<real>,
                                 confidence: Field<string>, detectedAt: Timestamp)

  /** The zone_id column of a weather row. */
  function WeatherZone(w: WeatherLog): ZoneId {
    w.zoneId
  }

  /** The zone_id column of a fire row. */
  function FireZone(f: FireEvent): ZoneId {
    f.zoneId
  }

  datatype AlertEntry = AlertEntry(zoneId: ZoneId, riskLevel: Status, messageEn: string, messageSw: string,
                                   createdAt: Timestamp)

  /** The contents of the database at one moment. */
  datatype Snapshot = Snapshot(zones: map<ZoneId, Zone>, weatherLogs: seq<WeatherLog>,
                               fireEvents: seq<FireEvent>, alertHistory: seq<AlertEntry>)

  /** The rows of one zone, in table order. */
  function RowsOf<T>(rows: seq<T>, zoneOf: T -> ZoneId, zoneId: ZoneId): (r: seq<T>)
    ensures |r| <= |rows|
    ensures forall x :: x in r ==> x in rows && zoneOf(x) == zoneId
    ensures forall x :: x in rows && zoneOf(x) == zoneId ==> x in r
  {
    if rows == [] then []
    else
      var init := rows[..|rows| - 1];
      var last := rows[|rows| - 1];
      assert rows == init + [last];
      RowsOf(init, zoneOf, zoneId) + (if zoneOf(last) == zoneId then [last] else [])
  }

  function Min(a: nat, b: nat): nat {
    if a <= b then a else b
  }

  /** RowsOf of a non-empty table: the rows of all but the last, then the last if it matches. */
  lemma RowsOfLast<T>(rows: seq<T>, zoneOf: T -> ZoneId, zoneId: ZoneId)
    requires rows != []
    ensures var last := rows[|rows| - 1];
            RowsOf(rows, zoneOf, zoneId)
            == RowsOf(rows[..|rows| - 1], zoneOf, zoneId) + (if zoneOf(last) == zoneId then [last] else [])
  {
  }

  /**
   * A select filtered on zone_id, ordered newest first and limited to `limit` rows:
   * the zone's rows read backwards from the newest, at most `limit` of them.
   */
  function NewestFirst<T>(rows: seq<T>, zoneOf: T -> ZoneId, zoneId: ZoneId, limit: nat): (r: seq<T>)
    ensures var m := RowsOf(rows, zoneOf, zoneId);
            && |r| == Min(limit, |m|)
            && forall i :: 0 <= i < |r| ==> r[i] == m[|m| - 1 - i]
  {
    if rows == [] || limit == 0 then []
    else
      var init := rows[..|rows| - 1];
      var last := rows[|rows| - 1];
      RowsOfLast(rows, zoneOf, zoneId);
      if zoneOf(last) == zoneId then [last] + NewestFirst(init, zoneOf, zoneId, limit - 1)
      else NewestFirst(init, zoneOf, zoneId, limit)
  }

  /** A zone with at least one row gets a non-empty answer to any positive limit. */
  lemma NewestFirstNonEmpty<T>(rows: seq<T>, zoneOf: T -> ZoneId, zoneId: ZoneId, limit: nat, x: T)
    requires x in rows && zoneOf(x) == zoneId && limit > 0
    ensures |NewestFirst(rows, zoneOf, zoneId, limit)| >= 1
    ensures NewestFirst(rows, zoneOf, zoneId, limit)[0] in rows
  {
    var m := RowsOf(rows, zoneOf, zoneId);
    assert x in m;
    assert m[|m| - 1] in m;
  }

  /** Every row a zone-filtered select returns is a row of the table that belongs to the zone. */
  lemma NewestFirstOfZone<T>(rows: seq<T>, zoneOf: T -> ZoneId, zoneId: ZoneId, limit: nat)
    ensures forall x :: x in NewestFirst(rows, zoneOf, zoneId, limit) ==> x in rows && zoneOf(x) == zoneId
  {
    var m := RowsOf(rows, zoneOf, zoneId);
    var r := NewestFirst(rows, zoneOf, zoneId, limit);
    forall x | x in r ensures x in rows && zoneOf(x) == zoneId {
      var i :| 0 <= i < |r| && r[i] == x;
      assert m[|m| - 1 - i] in m;
    }
  }

  /** A zone-filtered select with a positive limit comes back empty exactly when the zone has no row. */
  lemma NewestFirstEmptyIff<T>(rows: seq<T>, zoneOf: T -> ZoneId, zoneId: ZoneId, limit: nat)
    requires limit > 0
    ensures NewestFirst(rows, zoneOf, zoneId, limit) == [] <==> forall x :: x in rows ==> zoneOf(x) != zoneId
  {
    if forall x :: x in rows ==> zoneOf(x) != zoneId {
      RowsOfNone(rows, zoneOf, zoneId);
    } else {
      var x :| x in rows && zoneOf(x) == zoneId;
      NewestFirstNonEmpty(rows, zoneOf, zoneId, limit, x);
    }
  }

  /** A zone with no rows in the table gets no rows back. */
  lemma {:induction false} RowsOfNone<T>(rows: seq<T>, zoneOf: T -> ZoneId, zoneId: ZoneId)
    requires forall x :: x in rows ==> zoneOf(x) != zoneId
    ensures RowsOf(rows, zoneOf, zoneId) == []
  {
    if rows != [] {
      assert rows[|rows| - 1] in rows;
      assert forall x :: x in rows[..|rows| - 1] ==> x in rows;
      RowsOfNone(rows[..|rows| - 1], zoneOf, zoneId);
    }
  }

  /** The database, updated in place by the evaluator. */
  class Store {
    var zones: map<ZoneId, Zone>
    var weatherLogs: seq<WeatherLog>
    var fireEvents: seq<FireEvent>
    var alertHistory: seq<AlertEntry>

    constructor (s: Snapshot)
      ensures State() == s
    {
      zones, weatherLogs, fireEvents, alertHistory := s.zones, s.weatherLogs, s.fireEvents, s.alertHistory;
    }

    function State(): Snapshot
      reads this
    {
      Snapshot(zones, weatherLogs, fireEvents, alertHistory)
    }

    /** PATCH zones?id=eq.<zoneId>: sets status and timestamp of that row, if there is one. */
    method UpdateZone(zoneId: ZoneId, status: Status, now: Timestamp)
      modifies this`zones
      ensures zones == if zoneId in old(zones)
                       then old(zones)[zoneId := old(zones)[zoneId].(currentStatus := status, lastUpdated := now)]
                       else old(zones)
    {
      if zoneId in zones {
        zones := zones[zoneId := zones[zoneId].(currentStatus := status, lastUpdated := now)];
      }
    }

    /** POST alert_history: appends one row. */
    method InsertAlert(entry: AlertEntry)
      modifies this`alertHistory
      ensures alertHistory == old(alertHistory) + [entry]
    {
      alertHistory := alertHistory + [entry];
    }
  }
}
