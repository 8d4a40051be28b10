/**
 * The deterministic pieces of the JSON proxy (server.js): the upstream request headers,
 * the seconds-precision timestamps, the query windows and the reshaping of the upcoming
 * series into the frontend's match records.
 */
module Proxy {
  import opened Common
  import opened Text

  // ---- authHeaders ----

  /** The three environment variables `authHeaders` reads. */
  datatype AuthEnv = AuthEnv(headerName: Option<string>, headerValue: Option<string>, apiKey: Option<string>)

  const ContentType: string := "content-type"
  const JsonType: string := "application/json"
  const Authorization: string := "authorization"

  /** A header name and value are both configured: the custom scheme is used. */
  predicate UsesCustomHeader(env: AuthEnv) { Truthy(env.headerName) && Truthy(env.headerValue) }

  /**
   * `authHeaders`: JSON content type, plus one credential header. A configured header
   * name and value win; otherwise an API key becomes a bearer token; otherwise there is
   * no credential.
   */
  method AuthHeaders(env: AuthEnv) returns (h: map<string, string>)
    ensures ContentType in h
    ensures !(UsesCustomHeader(env) && env.headerName.value == ContentType) ==> h[ContentType] == JsonType
    ensures UsesCustomHeader(env) ==>
      && env.headerName.value in h && h[env.headerName.value] == env.headerValue.value
      && h.Keys == {ContentType, env.headerName.value}
    ensures !UsesCustomHeader(env) && Truthy(env.apiKey) ==>
      && h.Keys == {ContentType, Authorization}
      && h[Authorization] == "Bearer " + env.apiKey.value
    ensures !UsesCustomHeader(env) && !Truthy(env.apiKey) ==> h.Keys == {ContentType}
    ensures |h.Keys| <= 2
  {
    h := map[ContentType := JsonType];
    var name, value, key := env.headerName, env.headerValue, env.apiKey;
    if Truthy(name) && Truthy(value) {
      h := h[name.value := value.value];
    } else if Truthy(key) {
      h := h[Authorization := "Bearer " + key.value];
    }
    assert |h.Keys| <= |{ContentType}| + 1;
  }

  // ---- isoUTC ----

  /** The text ends in `.ddd` followed by `Z`: what `/\.\d{3}Z$/` matches. */
  predicate EndsWithMillis(s: string)
  {
    |s| >= 5 && s[|s| - 5] == '.' && IsDigit(s[|s| - 4]) && IsDigit(s[|s| - 3]) && IsDigit(s[|s| - 2])
      && s[|s| - 1] == 'Z'
  }

  /** The last five characters are a dot, three decimal digits and `Z`. */
  lemma EndsWithMillisShape(s: string)
    ensures EndsWithMillis(s) <==> |s| >= 5 && s[|s| - 5..] == "." + s[|s| - 4..|s| - 1] + "Z" && MatchesDigits(s[|s| - 4..|s| - 1], 3)
  {
    if |s| >= 5 {
      var d := s[|s| - 4..|s| - 1];
      assert d[0] == s[|s| - 4] && d[1] == s[|s| - 3] && d[2] == s[|s| - 2];
      if EndsWithMillis(s) {
        assert s[|s| - 5..] == "." + d + "Z";
      }
      if s[|s| - 5..] == "." + d + "Z" {
        assert s[|s| - 5] == s[|s| - 5..][0] && s[|s| - 1] == s[|s| - 5..][4];
      }
    }
  }

  /** `isoUTC`: removes the milliseconds `.ddd` before a final `Z` and leaves any other
      text unchanged. */
  function IsoUTC(iso: string): (r: string)
    ensures r != iso <==> EndsWithMillis(iso)
    ensures r == iso || (|iso| >= 5 && |r| == |iso| - 4 && r[..|r| - 1] == iso[..|iso| - 5] && r[|r| - 1] == 'Z')
  {
    if EndsWithMillis(iso) then iso[..|iso| - 5] + "Z" else iso
  }

  /** The fields of a UTC instant. `ToISOString` renders them as JavaScript does for
      years 0 to 9999; `Digits` keeps only the low digits, so for a later year it is not
      JavaScript's extended-year form (`+010000-...`). `IsoUTCDropsMillis` holds for every
      value all the same. */
  datatype Instant = Instant(year: nat, month: nat, day: nat, hour: nat, minute: nat, second: nat, millis: nat)

  /** `n` in `width` decimal digits, zero-padded (higher digits dropped). */
  function Digits(n: nat, width: nat): (r: string)
    ensures |r| == width
    ensures forall i :: 0 <= i < width ==> IsDigit(r[i])
  {
    if width == 0 then "" else Digits(n / 10, width - 1) + [('0' as int + n % 10) as char]
  }

  /** `YYYY-MM-DDTHH:mm:ss`. */
  function DateTime(t: Instant): string
  {
    Digits(t.year, 4) + "-" + Digits(t.month, 2) + "-" + Digits(t.day, 2) + "T"
      + Digits(t.hour, 2) + ":" + Digits(t.minute, 2) + ":" + Digits(t.second, 2)
  }

  /** How JavaScript renders an instant as ISO text: `YYYY-MM-DDTHH:mm:ss.sssZ`. */
  function ToISOString(t: Instant): string
  {
    DateTime(t) + "." + Digits(t.millis, 3) + "Z"
  }

  /** `isoUTC` of an instant is its seconds-precision form `YYYY-MM-DDTHH:mm:ssZ`, and
      applying it again changes nothing. */
  lemma IsoUTCDropsMillis(t: Instant)
    ensures IsoUTC(ToISOString(t)) == DateTime(t) + "Z"
    ensures IsoUTC(IsoUTC(ToISOString(t))) == IsoUTC(ToISOString(t))
  {
    var iso := ToISOString(t);
    var ms := Digits(t.millis, 3);
    assert iso == DateTime(t) + ("." + ms + "Z");
    assert |DateTime(t)| == 19;
    assert iso[|iso| - 5] == '.' && iso[|iso| - 4] == ms[0] && iso[|iso| - 3] == ms[1] && iso[|iso| - 2] == ms[2];
    assert iso[..|iso| - 5] == DateTime(t);
    var short := DateTime(t) + "Z";
    assert short[|short| - 5] == Digits(t.minute, 2)[1];
  }

  // ---- query windows ----

  const HourMs: int := 60 * 60 * 1000

  /** The variables of the upcoming-series query: a window in epoch milliseconds and a
      page size. */
  datatype QueryWindow = QueryWindow(fromMs: int, toMs: int, first: nat)

  /** `/matches.json`: `hours` defaults to 24 and `first` to 50; the window runs from now
      for that many hours. */
  function MatchesWindow(nowMs: int, hours: Option<nat>, first: Option<nat>): (w: QueryWindow)
    ensures w.fromMs == nowMs
    ensures w.toMs - w.fromMs == hours.GetOr(24) * 3_600_000
    ensures hours.None? ==> w.toMs == nowMs + 86_400_000
    ensures first.None? ==> w.first == 50
    ensures first.Some? ==> w.first == first.value
  {
    var h := hours.GetOr(24);
    QueryWindow(nowMs, nowMs + h * HourMs, first.GetOr(50))
  }

  /** `/health`: a sample of three series over the next six hours. */
  function HealthWindow(nowMs: int): (w: QueryWindow)
    ensures w.toMs == w.fromMs + 21_600_000 && w.fromMs == nowMs && w.first == 3
  {
    QueryWindow(nowMs, nowMs + 6 * HourMs, 3)
  }

  // ---- match normalisation ----

  datatype BaseInfo = BaseInfo(name: Option<string>)
  datatype Team = Team(baseInfo: Option<BaseInfo>)
  datatype TournamentRef = TournamentRef(name: Option<string>)
  datatype FormatRef = FormatRef(id: Option<string>)

  /** One upcoming series as the upstream returns it; any part may be missing. */
  datatype SeriesNode = SeriesNode(
    id: Option<string>,
    startTimeScheduled: Option<string>,
    updatedAt: Option<string>,
    tournament: Option<TournamentRef>,
    format: Option<FormatRef>,
    teams: Option<seq<Option<Team>>>)

  datatype Edge = Edge(node: Option<SeriesNode>)

  /** The frontend's match record; `mapName` is the `map` field. */
  datatype MatchRecord = MatchRecord(
    id: Option<string>,
    eventName: string,
    format: string,
    time: Option<string>,
    updatedAt: Option<string>,
    t1Name: string,
    t2Name: string,
    live: bool,
    s1: string,
    s2: string,
    mapName: string)

  /** The name of the team at index `i`, or the empty string when the list, the team, its
      base info or its name is missing. */
  function TeamName(teams: Option<seq<Option<Team>>>, i: nat): (name: string)
    ensures name == (if teams.Some? && i < |teams.value| && teams.value[i].Some? && teams.value[i].value.baseInfo.Some?
                     then teams.value[i].value.baseInfo.value.name.GetOr("") else "")
  {
    if teams.Some? && i < |teams.value| && teams.value[i].Some? && teams.value[i].value.baseInfo.Some?
      && Truthy(teams.value[i].value.baseInfo.value.name)
    then teams.value[i].value.baseInfo.value.name.value
    else ""
  }

  /** The format's id is present and non-empty. */
  predicate HasFormatId(n: SeriesNode) { n.format.Some? && Truthy(n.format.value.id) }

  /** One upcoming series reshaped into the frontend's match record. */
  function NormalizeNode(n: SeriesNode): (m: MatchRecord)
    ensures !m.live && m.s1 == "" && m.s2 == "" && m.mapName == ""
    ensures m.id == n.id && m.time == n.startTimeScheduled && m.updatedAt == n.updatedAt
    ensures m.format != "" <==> HasFormatId(n)
    ensures m.eventName == if n.tournament.Some? then n.tournament.value.name.GetOr("") else ""
    ensures m.t1Name == TeamName(n.teams, 0) && m.t2Name == TeamName(n.teams, 1)
  {
    var eventName := if n.tournament.Some? && Truthy(n.tournament.value.name) then n.tournament.value.name.value else "";
    var format := if HasFormatId(n) then "BO" + n.format.value.id.value else "";
    MatchRecord(n.id, eventName, format, n.startTimeScheduled, n.updatedAt,
                TeamName(n.teams, 0), TeamName(n.teams, 1), false, "", "", "")
  }

  /** Reads the format id back out of a `BO<id>` label. */
  function FormatId(text: string): Option<string>
  {
    if |text| > 2 && text[..2] == "BO" then Some(text[2..]) else None
  }

  /** The `BO` label keeps the format id: it can be read back exactly. */
  lemma FormatRoundTrip(n: SeriesNode)
    ensures FormatId(NormalizeNode(n).format) == if HasFormatId(n) then n.format.value.id else None
  {
    if HasFormatId(n) {
      var id := n.format.value.id.value;
      assert ("BO" + id)[..2] == "BO" && ("BO" + id)[2..] == id;
    }
  }

  /** Every edge's node reshaped, in order; missing edges count as none, and an edge
      without a node makes the handler fail, which is `None` here. */
  function NormalizeEdges(edges: Option<seq<Edge>>): (r: Option<seq<MatchRecord>>)
    ensures var es := edges.GetOr([]);
      && (r.Some? <==> forall i :: 0 <= i < |es| ==> es[i].node.Some?)
      && (r.Some? ==> |r.value| == |es| && forall i :: 0 <= i < |es| ==> r.value[i] == NormalizeNode(es[i].node.value))
  {
    NormalizeAll(edges.GetOr([]))
  }

  function NormalizeAll(es: seq<Edge>): (r: Option<seq<MatchRecord>>)
    ensures r.Some? <==> forall i :: 0 <= i < |es| ==> es[i].node.Some?
    ensures r.Some? ==> |r.value| == |es| && forall i :: 0 <= i < |es| ==> r.value[i] == NormalizeNode(es[i].node.value)
  {
    if es == [] then Some([])
    else if es[0].node.None? then None
    else
      match NormalizeAll(es[1..])
      case None => None
      case Some(rest) => Some([NormalizeNode(es[0].node.value)] + rest)
  }
}
