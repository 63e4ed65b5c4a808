/**
 * The read API's own logic (api.py): the `.env` loader run at start-up and the
 * mapping of fire rows to the public satellite-alert shape.
 */
module Api {
  import opened Wrappers
  import opened Text
  import opened Db
  import Rest

  /** One `.env` line: skipped when blank, a comment or without '='; else key and value, split at the first '='. */
  function ParseEnvLine(line: string): (r: Option<(string, string)>)
    ensures r.Some? <==> Strip(line) != [] && Strip(line)[0] != '#' && '=' in Strip(line)
  {
    var l := Strip(line);
    if l == [] || l[0] == '#' then None
    else match IndexOf(l, '=')
      case None => None
      case Some(i) => Some((Strip(l[..i]), Strip(l[i + 1..])))
  }

  /**
   * The split happens at the first '=' of the stripped line: the raw key before it holds no '='
   * (the raw value after it may), and key and value are those two parts stripped.
   */
  lemma {:induction false} EnvLineSplitsAtFirstEquals(line: string)
    requires ParseEnvLine(line).Some?
    ensures var l := Strip(line);
            var i := IndexOf(l, '=').value;
            && i < |l| && l[i] == '=' && '=' !in l[..i]
            && ParseEnvLine(line).value == (Strip(l[..i]), Strip(l[i + 1..]))
  {
  }

  /** The parsed key holds no '=', and key and value come out stripped. */
  lemma {:induction false} EnvLineEntryStripped(line: string)
    requires ParseEnvLine(line).Some?
    ensures var (k, v) := ParseEnvLine(line).value;
            '=' !in k && Strip(k) == k && Strip(v) == v
  {
    EnvLineSplitsAtFirstEquals(line);
    var l := Strip(line);
    var i := IndexOf(l, '=').value;
    StripKeepsOut(l[..i], '=');
    StripIdempotent(l[..i]);
    StripIdempotent(l[i + 1..]);
  }

  /**
   * A line written as `key=value` reads back as (key, value) when the key has no '=',
   * does not start with '#', and both parts are already stripped; the value may contain '='.
   */
  lemma {:induction false} EnvLineRoundTrip(key: string, value: string)
    requires '=' !in key && Strip(key) == key && Strip(value) == value
    requires key == [] || key[0] != '#'
    ensures ParseEnvLine(key + "=" + value) == Some((key, value))
  {
    var line := key + "=" + value;
    assert line[0] == if key == [] then '=' else key[0];
    assert line[|line| - 1] == if value == [] then '=' else value[|value| - 1];
    StripUnchanged(line);
    assert line[..|key|] == key && line[|key|] == '=';
    assert IndexOf(line, '=') == Some(|key|);
    assert line[|key| + 1..] == value;
  }

  /** The parsed form of each line, in order. */
  function ParseLines(lines: seq<string>): (entries: seq<Option<(string, string)>>)
    ensures |entries| == |lines|
    ensures forall i :: 0 <= i < |lines| ==> entries[i] == ParseEnvLine(lines[i])
  {
    if lines == [] then [] else ParseLines(lines[..|lines| - 1]) + [ParseEnvLine(lines[|lines| - 1])]
  }

  /** The keys the parsed entries set. */
  function EntryKeys(entries: seq<Option<(string, string)>>): set<string> {
    set i | 0 <= i < |entries| && entries[i].Some? :: entries[i].value.0
  }

  /** The keys of all entries: those of all but the last, and the last's if it sets one. */
  lemma EntryKeysLast(entries: seq<Option<(string, string)>>)
    requires entries != []
    ensures var last := entries[|entries| - 1];
            EntryKeys(entries) == EntryKeys(entries[..|entries| - 1]) + (if last.Some? then {last.value.0} else {})
  {
    var init := entries[..|entries| - 1];
    assert forall i :: 0 <= i < |init| ==> entries[i] == init[i];
  }

  /** The environment after the parsed entries were applied in order; skipped lines change nothing. */
  function Apply(env: map<string, string>, entries: seq<Option<(string, string)>>): (r: map<string, string>)
    ensures r.Keys == env.Keys + EntryKeys(entries)
  {
    if entries == [] then env
    else
      var init := entries[..|entries| - 1];
      var before := Apply(env, init);
      EntryKeysLast(entries);
      match entries[|entries| - 1]
      case None => before
      case Some((k, v)) => before[k := v]
  }

  /** os.environ after the `.env` lines were applied: every variable it had, plus those the lines set. */
  function EnvAfter(env: map<string, string>, lines: seq<string>): (r: map<string, string>)
    ensures r.Keys == env.Keys + EntryKeys(ParseLines(lines))
  {
    Apply(env, ParseLines(lines))
  }

  /** Entry j sets key k, and no later entry sets it. */
  predicate LastSetterOf(entries: seq<Option<(string, string)>>, k: string, j: nat) {
    && j < |entries| && entries[j].Some? && entries[j].value.0 == k
    && forall i :: j < i < |entries| && entries[i].Some? ==> entries[i].value.0 != k
  }

  lemma {:induction false} ApplyLastWins(env: map<string, string>, entries: seq<Option<(string, string)>>, k: string, j: nat)
    requires LastSetterOf(entries, k, j)
    ensures k in Apply(env, entries) && Apply(env, entries)[k] == entries[j].value.1
  {
    var init := entries[..|entries| - 1];
    if j < |entries| - 1 {
      assert LastSetterOf(init, k, j);
      ApplyLastWins(env, init, k, j);
    }
  }

  lemma {:induction false} ApplyUnsetKey(env: map<string, string>, entries: seq<Option<(string, string)>>, k: string)
    requires forall i :: 0 <= i < |entries| && entries[i].Some? ==> entries[i].value.0 != k
    ensures (k in Apply(env, entries) <==> k in env)
    ensures k in env ==> Apply(env, entries)[k] == env[k]
  {
    if entries != [] {
      var init := entries[..|entries| - 1];
      assert forall i :: 0 <= i < |init| ==> init[i] == entries[i];
      ApplyUnsetKey(env, init, k);
    }
  }

  /** Last write wins: a key's value is the one from the last line that sets it. */
  lemma {:induction false} LastWriteWins(env: map<string, string>, lines: seq<string>, k: string, j: nat)
    requires j < |lines| && ParseEnvLine(lines[j]).Some? && ParseEnvLine(lines[j]).value.0 == k
    requires forall i :: j < i < |lines| && ParseEnvLine(lines[i]).Some? ==> ParseEnvLine(lines[i]).value.0 != k
    ensures k in EnvAfter(env, lines) && EnvAfter(env, lines)[k] == ParseEnvLine(lines[j]).value.1
  {
    ApplyLastWins(env, ParseLines(lines), k, j);
  }

  /** A key that no line sets keeps its previous value, or stays absent. */
  lemma {:induction false} UnsetKeyUnchanged(env: map<string, string>, lines: seq<string>, k: string)
    requires forall i :: 0 <= i < |lines| && ParseEnvLine(lines[i]).Some? ==> ParseEnvLine(lines[i]).value.0 != k
    ensures (k in EnvAfter(env, lines) <==> k in env)
    ensures k in env ==> EnvAfter(env, lines)[k] == env[k]
  {
    ApplyUnsetKey(env, ParseLines(lines), k);
  }

  /** Applying one more line applies its parsed entry to the environment so far. */
  lemma ApplyNextLine(env: map<string, string>, lines: seq<string>, n: nat)
    requires n < |lines|
    ensures Apply(env, ParseLines(lines[..n + 1]))
            == match ParseEnvLine(lines[n])
               case None => Apply(env, ParseLines(lines[..n]))
               case Some((k, v)) => Apply(env, ParseLines(lines[..n]))[k := v]
  {
    assert lines[..n + 1][..n] == lines[..n];
    var es := ParseLines(lines[..n + 1]);
    assert es[..n] == ParseLines(lines[..n]);
    assert es[n] == ParseEnvLine(lines[n]);
  }

  /**
   * Whether `os.environ[k] = v` succeeds. CPython on POSIX raises for an empty name and
   * for a NUL character in the name or the value. A name holding '=' is also
   * refused, but a parsed key never holds one.
   */
  predicate Settable(k: string, v: string) {
    k != [] && '\0' !in k && '\0' !in v
  }

  /** A line that is skipped, or whose entry can be set. */
  predicate LineSettable(line: string) {
    ParseEnvLine(line).None? || Settable(ParseEnvLine(line).value.0, ParseEnvLine(line).value.1)
  }

  predicate AllSettable(lines: seq<string>) {
    forall i :: 0 <= i < |lines| ==> LineSettable(lines[i])
  }

  /** The error that stops start-up: the number of the first line whose entry cannot be set, and its key. */
  datatype EnvFailure = Unsettable(lineNo: nat, key: string)

  /** A line with nothing before its '=' yields the empty key, which cannot be set. */
  lemma EmptyKeyLineUnsettable(value: string)
    requires Strip(value) == value
    ensures ParseEnvLine("=" + value) == Some(("", value))
    ensures !LineSettable("=" + value)
  {
    assert "" + "=" + value == "=" + value;
    EnvLineRoundTrip("", value);
  }

  /**
   * Reads the `.env` file, if there is one, into the environment, one line at a time.
   * The first entry that cannot be set raises, which stops the module from loading.
   */
  method LoadEnvFile(env: map<string, string>, file: Option<seq<string>>)
    returns (r: Result<map<string, string>, EnvFailure>)
    ensures file.None? ==> r == Success(env)
    ensures file.Some? ==> (r.Success? <==> AllSettable(file.value))
    ensures file.Some? && r.Success? ==> r.value == EnvAfter(env, file.value)
    ensures file.Some? && r.Failure? ==>
              var n := r.error.lineNo;
              && n < |file.value| && !LineSettable(file.value[n]) && AllSettable(file.value[..n])
              && r.error.key == ParseEnvLine(file.value[n]).value.0
  {
    if file.None? {
      return Success(env);
    }
    var lines := file.value;
    var newEnv := env;
    for n := 0 to |lines|
      invariant newEnv == Apply(env, ParseLines(lines[..n]))
      invariant AllSettable(lines[..n])
    {
      var entry := ParseEnvLine(lines[n]);
      if entry.Some? && !Settable(entry.value.0, entry.value.1) {
        return Failure(Unsettable(n, entry.value.0));
      }
      ApplyNextLine(env, lines, n);
      SettablePrefix(lines, n);
      if entry.Some? {
        newEnv := newEnv[entry.value.0 := entry.value.1];
      }
    }
    assert lines[..|lines|] == lines;
    return Success(newEnv);
  }

  /** One more settable line keeps the prefix settable. */
  lemma SettablePrefix(lines: seq<string>, n: nat)
    requires n < |lines| && AllSettable(lines[..n]) && LineSettable(lines[n])
    ensures AllSettable(lines[..n + 1])
  {
    var prefix := lines[..n + 1];
    forall i | 0 <= i < |prefix| ensures LineSettable(prefix[i]) {
      if i < n {
        assert prefix[i] == lines[..n][i];
      } else {
        assert prefix[i] == lines[n];
      }
    }
  }

  /** The public shape of a fire row. */
  datatype SatelliteAlert = SatelliteAlert(id: string, lat: Option<real>, lon: Option<real>, alertDate: string,
                                           confidenceLevel: Field<string>)

  /** The date part of a timestamp: everything before the first 'T', or all of it. */
  function AlertDate(detectedAt: string): (d: string)
    ensures 'T' !in d
    ensures |d| <= |detectedAt| && d == detectedAt[..|d|]
    ensures d == detectedAt || detectedAt[|d|] == 'T'
  {
    Split(detectedAt, 'T')[0]
  }

  /** An ISO timestamp `YYYY-MM-DDThh:mm:ss...` gives its ten-character date. */
  lemma IsoTimestampDate(detectedAt: string)
    requires |detectedAt| > 10 && detectedAt[10] == 'T' && 'T' !in detectedAt[..10]
    ensures AlertDate(detectedAt) == detectedAt[..10]
  {
    var d := AlertDate(detectedAt);
    forall k | 0 <= k < 10 ensures detectedAt[k] != 'T' {
      assert detectedAt[..10][k] == detectedAt[k];
    }
    forall k | 0 <= k < |d| ensures detectedAt[k] != 'T' {
      assert d[k] == detectedAt[k];
    }
  }

  /** A row's confidence, "nominal" when the column is absent from the row. */
  function ConfidenceLevel(confidence: Field<string>): (c: Field<string>)
    ensures confidence.Missing? ==> c == Value("nominal")
    ensures !confidence.Missing? ==> c == confidence
  {
    if confidence.Missing? then Value("nominal") else confidence
  }

  /** A fire row in the public shape: coordinates passed through, the id as text, the date alone. */
  function ToSatelliteAlert(fire: FireEvent): (a: SatelliteAlert)
    ensures a.lat == fire.lat && a.lon == fire.lon
    ensures 'T' !in a.alertDate
    ensures |a.alertDate| <= |fire.detectedAt| && a.alertDate == fire.detectedAt[..|a.alertDate|]
    ensures !a.confidenceLevel.Missing?
    ensures a.id == IntText(fire.id)
  {
    SatelliteAlert(IntText(fire.id), fire.lat, fire.lon, AlertDate(fire.detectedAt), ConfidenceLevel(fire.confidence))
  }

  /** Distinct row ids stay distinct once stringified. */
  lemma DistinctIdsStayDistinct(f1: FireEvent, f2: FireEvent)
    requires f1.id != f2.id
    ensures ToSatelliteAlert(f1).id != ToSatelliteAlert(f2).id
  {
    if IntText(f1.id) == IntText(f2.id) {
      IntTextInjective(f1.id, f2.id);
    }
  }

  /** The fire read of the endpoint: all zones, detected_at descending, at most 200 rows. */
  lemma AlertListParams()
    ensures Rest.SelectParams("*", [], Some("detected_at.desc"), Some(200))
            == Success(map["select" := Rest.Str("*"), "order" := Rest.Str("detected_at.desc"), "limit" := Rest.Int(200)])
  {
    assert "detected_at.desc" == "detected_at" + ['.'] + "desc";
    SplitTwo("detected_at", "desc", '.');
  }

  /** What a handler raises: an HTTP 500 carrying the underlying error. */
  datatype HttpException = HttpException(statusCode: int, detail: Rest.Failure)

  /** The loop of the endpoint: one alert per fire row, same length, same order. */
  method MapFires(fires: seq<FireEvent>) returns (results: seq<SatelliteAlert>)
    ensures |results| == |fires|
    ensures forall i :: 0 <= i < |fires| ==> results[i] == ToSatelliteAlert(fires[i])
  {
    results := [];
    for i := 0 to |fires|
      invariant |results| == i
      invariant forall k :: 0 <= k < i ==> results[k] == ToSatelliteAlert(fires[k])
    {
      results := results + [ToSatelliteAlert(fires[i])];
    }
  }

  /**
   * GET /satellite-alerts: the 200 newest fire rows mapped one by one, in the order fetched;
   * a failed fetch becomes a 500.
   */
  method GetSatelliteAlerts(client: Rest.SimpleSupabase, resp: Rest.Response<seq<FireEvent>>)
    returns (req: Option<Rest.Request>, r: Result<seq<SatelliteAlert>, HttpException>)
    ensures Rest.SelectParams("*", [], Some("detected_at.desc"), Some(200)).Success?
    ensures req == Some(Rest.Request(Rest.Get, client.baseUrl + "/" + "fire_events", client.headers,
                                     Rest.SelectParams("*", [], Some("detected_at.desc"), Some(200)).value))
    ensures r.Failure? <==> resp.status >= 400
    ensures r.Failure? ==> r.error == HttpException(500, Rest.HttpError(Rest.SelectOp, resp.status, resp.text))
    ensures r.Success? ==> (|r.value| == |resp.body|
              && forall i :: 0 <= i < |resp.body| ==> r.value[i] == ToSatelliteAlert(resp.body[i]))
  {
    AlertListParams();
    var fetched;
    req, fetched := client.Select("fire_events", "*", [], Some("detected_at.desc"), Some(200), resp);
    if fetched.Failure? {
      return req, Failure(HttpException(500, fetched.error));
    }
    var results := MapFires(fetched.value);
    return req, Success(results);
  }
}
