/**
 * The risk evaluator (src/ai_analyzer.py): the threshold rule used when no
 * language model is available or its call fails, and the alert-history gate.
 * The language model's reply is a parameter: None when the call raised.
 */
module Risk {
  import opened Wrappers
  import opened Db

  /** What the evaluator decides: the new status and the bilingual alert text. */
  datatype Decision = Decision(newStatus: Status, reasoning: string, messageEn: string, messageSw: string)

  predicate IsLevel(s: Status) {
    s == NORMAL || s == WATCH || s == ALERT
  }

  const DEFAULT_TEMP: real := 25.0
  const DEFAULT_HUMIDITY: real := 50.0
  const WATCH_TEMP: real := 28.0
  const WATCH_HUMIDITY: real := 25.0

  /** Temperature and humidity of the newest reading, or the defaults when there is none. */
  function LastWeather(weatherHistory: seq<WeatherLog>): (r: (real, real))
    ensures weatherHistory == [] ==> r == (DEFAULT_TEMP, DEFAULT_HUMIDITY)
    ensures weatherHistory != [] ==> r == (weatherHistory[0].temp, weatherHistory[0].humidity)
  {
    if weatherHistory != [] then (weatherHistory[0].temp, weatherHistory[0].humidity)
    else (DEFAULT_TEMP, DEFAULT_HUMIDITY)
  }

  /**
   * The temperature as the alert text prints it; `showTemp` is how a stored float prints.
   * The default is the integer 25 and prints without a decimal point.
   */
  function TempText(weatherHistory: seq<WeatherLog>, showTemp: real -> string): (r: string)
    ensures weatherHistory != [] ==> r == showTemp(LastWeather(weatherHistory).0)
    ensures weatherHistory == [] ==> r == "25" && LastWeather(weatherHistory).0 == 25.0
  {
    if weatherHistory != [] then showTemp(weatherHistory[0].temp) else "25"
  }

  /**
   * The threshold rule: any fire row gives ALERT; otherwise a newest reading hotter than
   * 28 and drier than 25 gives WATCH; otherwise NORMAL. The current status is not used.
   */
  function Fallback(currentStatus: Status, weatherHistory: seq<WeatherLog>, fireEvents: seq<FireEvent>,
                    showTemp: real -> string): (d: Decision)
    ensures IsLevel(d.newStatus)
    ensures d.newStatus == ALERT <==> fireEvents != []
    ensures d.newStatus == WATCH <==>
              fireEvents == [] && weatherHistory != []
              && weatherHistory[0].temp > WATCH_TEMP && weatherHistory[0].humidity < WATCH_HUMIDITY
    ensures d.reasoning == "Fallback logic: Threshold check."
    ensures d.messageEn == "Status: " + d.newStatus + ". Temp: " + TempText(weatherHistory, showTemp) + "C"
    ensures d.messageSw == "Hali: " + d.newStatus + ". Joto: " + TempText(weatherHistory, showTemp) + "C"
  {
    var (temp, humidity) := LastWeather(weatherHistory);
    var newStatus :=
      if fireEvents != [] then ALERT
      else if temp > WATCH_TEMP && humidity < WATCH_HUMIDITY then WATCH
      else NORMAL;
    var t := TempText(weatherHistory, showTemp);
    Decision(newStatus, "Fallback logic: Threshold check.",
             "Status: " + newStatus + ". Temp: " + t + "C",
             "Hali: " + newStatus + ". Joto: " + t + "C")
  }

  /** Severity order of the three levels. */
  function Rank(s: Status): nat {
    if s == ALERT then 2 else if s == WATCH then 1 else 0
  }

  /** At exactly 28 degrees or exactly 25% humidity the rule stays NORMAL: both comparisons are strict. */
  lemma BoundaryIsNormal(current: Status, w: WeatherLog, rest: seq<WeatherLog>, showTemp: real -> string)
    requires w.temp == WATCH_TEMP || w.humidity == WATCH_HUMIDITY
    ensures Fallback(current, [w] + rest, [], showTemp).newStatus == NORMAL
  {
  }

  /** With no readings and no fires the defaults (25 degrees, 50%) give NORMAL. */
  lemma EmptyHistoryIsNormal(current: Status, showTemp: real -> string)
    ensures Fallback(current, [], [], showTemp).newStatus == NORMAL
  {
  }

  /** Only the newest reading is consulted; older readings never change the decision. */
  lemma OnlyNewestReadingCounts(current: Status, w: WeatherLog, older1: seq<WeatherLog>, older2: seq<WeatherLog>,
                                fires: seq<FireEvent>, showTemp: real -> string)
    ensures Fallback(current, [w] + older1, fires, showTemp) == Fallback(current, [w] + older2, fires, showTemp)
  {
  }

  /** The rule does not depend on the zone's current status. */
  lemma IgnoresCurrentStatus(c1: Status, c2: Status, weather: seq<WeatherLog>, fires: seq<FireEvent>,
                             showTemp: real -> string)
    ensures Fallback(c1, weather, fires, showTemp) == Fallback(c2, weather, fires, showTemp)
  {
  }

  /** A hotter and drier newest reading, or more fire rows, never lowers the level. */
  lemma {:induction false} FallbackMonotone(current: Status, w1: WeatherLog, w2: WeatherLog, rest: seq<WeatherLog>,
                                            f1: seq<FireEvent>, f2: seq<FireEvent>, showTemp: real -> string)
    requires w1.temp <= w2.temp && w1.humidity >= w2.humidity
    requires |f1| <= |f2|
    ensures Rank(Fallback(current, [w1] + rest, f1, showTemp).newStatus)
            <= Rank(Fallback(current, [w2] + rest, f2, showTemp).newStatus)
  {
    var d1 := Fallback(current, [w1] + rest, f1, showTemp);
    var d2 := Fallback(current, [w2] + rest, f2, showTemp);
    assert ([w1] + rest)[0] == w1 && ([w2] + rest)[0] == w2;
    if d1.newStatus == WATCH {
      assert f2 == [] ==> d2.newStatus == WATCH;
    }
  }

  /** The alert-history rows a decision produces: none for NORMAL, one otherwise. */
  function AlertRows(zoneId: ZoneId, d: Decision, now: Timestamp): (rows: seq<AlertEntry>)
    ensures d.newStatus == NORMAL ==> rows == []
    ensures d.newStatus != NORMAL ==> |rows| == 1
    ensures forall e :: e in rows ==>
              e.zoneId == zoneId && e.riskLevel == d.newStatus
              && e.messageEn == d.messageEn && e.messageSw == d.messageSw && e.createdAt == now
  {
    if d.newStatus == NORMAL then [] else [AlertEntry(zoneId, d.newStatus, d.messageEn, d.messageSw, now)]
  }

  /** A key the analyzer tries to build a client with: truthy, and not the placeholder. */
  predicate KeyUsable(key: Option<string>) {
    key.Some? && key.value != "" && key.value != "your_google_gemini_key"
  }

  /** The analyzer: whether a language-model client exists is fixed when it is built. */
  class AIAnalyzer {
    const db: Store
    const geminiKey: Option<string>
    const modelName: string
    const hasAi: bool

    /**
     * `geminiKey` is None when the variable is unset; `clientCreated` says whether building
     * the language-model client succeeded.
     */
    constructor (db: Store, geminiKey: Option<string>, clientCreated: bool)
      ensures this.db == db && this.geminiKey == geminiKey && modelName == "gemini-3-pro-preview"
      ensures hasAi <==> KeyUsable(geminiKey) && clientCreated
      ensures geminiKey.None? || geminiKey == Some("") ==> !hasAi
    {
      this.db := db;
      this.geminiKey := geminiKey;
      modelName := "gemini-3-pro-preview";
      hasAi := KeyUsable(geminiKey) && clientCreated;
    }

    /**
     * The decision: the threshold rule without a client or when the call raised,
     * the model's reply otherwise.
     */
    function EvaluateRisk(zoneName: string, currentStatus: Status, weatherHistory: seq<WeatherLog>,
                          fireEvents: seq<FireEvent>, aiReply: Option<Decision>, showTemp: real -> string)
      : (d: Decision)
      ensures !hasAi || aiReply.None? ==> d == Fallback(currentStatus, weatherHistory, fireEvents, showTemp)
      ensures hasAi && aiReply.Some? ==> d == aiReply.value
    {
      if !hasAi then Fallback(currentStatus, weatherHistory, fireEvents, showTemp)
      else match aiReply
        case None => Fallback(currentStatus, weatherHistory, fireEvents, showTemp)
        case Some(reply) => reply
    }

    /** Logs a non-NORMAL decision to alert_history; a NORMAL one writes nothing. */
    method SaveAlert(zoneId: ZoneId, d: Decision, now: Timestamp)
      modifies db`alertHistory
      ensures db.alertHistory == old(db.alertHistory) + AlertRows(zoneId, d, now)
    {
      if d.newStatus == NORMAL {
        return;
      }
      var entry := AlertEntry(zoneId, d.newStatus, d.messageEn, d.messageSw, now);
      db.InsertAlert(entry);
    }
  }
}
