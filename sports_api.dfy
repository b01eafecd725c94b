/**
 * The classification and record-shaping rules of the basketball feed
 * integration: the status and period tables, the live and scheduled game
 * filters with the records they produce, and the flattening of the per-team
 * player statistics.  The HTTP requests, the environment checks, the mock
 * fallbacks and the logging around them are not modelled; a game or a team
 * entry is an abstract record whose loosely typed fields are JavaScript
 * values.
 */
module SportsApi {
  import opened Wrappers
  import opened JsNumbers
  import opened JsValues

  // ---------------------------------------------------------------------
  // Status and period tables
  // ---------------------------------------------------------------------

  /** The `statusMap` literal: feed short codes to the internal match status. */
  const StatusTable: map<string, string> := map[
    "NS" := "scheduled", "Q1" := "live", "Q2" := "live", "HT" := "halftime",
    "Q3" := "live", "Q4" := "live", "OT" := "live", "BT" := "live",
    "FT" := "finished", "AOT" := "finished", "CANC" := "cancelled", "PST" := "postponed",
    "INT" := "live", "ABD" := "cancelled", "AWD" := "finished", "WO" := "finished"]

  /** The values the `status` field of a stored match may take. */
  const MatchStatuses: set<string> := {"scheduled", "live", "halftime", "finished", "cancelled", "postponed"}

  /** The `periodMap` literal: in-play short codes to a period description. */
  const PeriodTable: map<string, string> := map[
    "Q1" := "1st Quarter", "Q2" := "2nd Quarter", "HT" := "Halftime", "Q3" := "3rd Quarter",
    "Q4" := "4th Quarter", "OT" := "Overtime", "BT" := "Break"]

  /** The `liveStatuses` list of the live filter. */
  const LiveStatuses: seq<string> := ["Q1", "Q2", "HT", "Q3", "Q4", "OT", "BT"]

  /**
   * The keys every object literal inherits from `Object.prototype`; reading
   * one of them from a table literal finds a function (or, for `__proto__`,
   * the prototype object itself).
   */
  const PrototypeKeys: set<string> := {
    "constructor", "toString", "toLocaleString", "valueOf", "hasOwnProperty",
    "isPrototypeOf", "propertyIsEnumerable", "__proto__", "__defineGetter__",
    "__defineSetter__", "__lookupGetter__", "__lookupSetter__"}

  /** `a || b`. */
  function Or(a: Json, b: Json): (r: Json)
    ensures Truthy(a) ==> r == a
    ensures !Truthy(a) ==> r == b
    ensures r == a || r == b
    ensures Truthy(r) <==> Truthy(a) || Truthy(b)
  {
    if Truthy(a) then a else b
  }

  /**
   * `table[key]` on an object literal, as JavaScript evaluates it: an own key
   * gives its string, an inherited `Object.prototype` member gives a truthy
   * non-string value (an empty object stands for it), anything else
   * `undefined`.
   */
  function LiteralLookup(table: map<string, string>, key: string): Json
  {
    if key in table then Str(table[key])
    else if key in PrototypeKeys then Obj(map[])
    else Undefined
  }

  /** `mapStatus` as written: `statusMap[statusShort] || 'scheduled'`. */
  function MapStatusAsWritten(apiStatus: Json, statusShort: string): (r: Json)
    ensures Truthy(r)
    ensures r.Str? ==> r.s in MatchStatuses
    ensures !r.Str? ==> statusShort in PrototypeKeys && statusShort !in StatusTable
  {
    Or(LiteralLookup(StatusTable, statusShort), Str("scheduled"))
  }

  /** `getCurrentPeriod` as written: `periodMap[statusShort] || ''`. */
  function CurrentPeriodAsWritten(statusShort: string): (r: Json)
    ensures r.Str? ==> (r.s != "" <==> statusShort in LiveStatuses)
    ensures !r.Str? ==> statusShort in PrototypeKeys && statusShort !in PeriodTable
  {
    Or(LiteralLookup(PeriodTable, statusShort), Str(""))
  }

  /**
   * `mapStatus`: a code in the table gives its entry, every other code
   * `'scheduled'`; the long status text is ignored.
   */
  function MapStatus(apiStatus: Json, statusShort: string): (r: string)
    ensures r in MatchStatuses
    ensures statusShort !in StatusTable ==> r == "scheduled"
  {
    if statusShort in StatusTable then StatusTable[statusShort] else "scheduled"
  }

  /** `getCurrentPeriod`: a description exactly for the seven in-play codes. */
  function CurrentPeriod(statusShort: string): (r: string)
    ensures r != "" <==> statusShort in LiveStatuses
  {
    if statusShort in PeriodTable then PeriodTable[statusShort] else ""
  }

  /** The table classifies the not-started code `NS` as `'scheduled'`. */
  lemma NotStartedIsScheduled()
    ensures MapStatus(Undefined, "NS") == "scheduled"
  {
    assert "NS" in StatusTable;
  }

  /** The long status text never changes the classification. */
  lemma MapStatusIgnoresLongText(a: Json, b: Json, statusShort: string)
    ensures MapStatus(a, statusShort) == MapStatus(b, statusShort)
  {
  }

  /**
   * Away from the inherited keys, the table lookup as written and the
   * own-key lookup agree, for both tables.
   */
  lemma TablesAgreeAwayFromPrototype(apiStatus: Json, statusShort: string)
    requires statusShort !in PrototypeKeys
    ensures MapStatusAsWritten(apiStatus, statusShort) == Str(MapStatus(apiStatus, statusShort))
    ensures CurrentPeriodAsWritten(statusShort) == Str(CurrentPeriod(statusShort))
  {
    var s := statusShort;
    assert s in StatusTable ==> StatusTable[s] != "";
    assert s in PeriodTable ==> PeriodTable[s] != "";
  }

  /** `mapStatus('constructor')` as written is not one of the match statuses. */
  lemma MapStatusAsWrittenEscapesEnum(apiStatus: Json)
    ensures !MapStatusAsWritten(apiStatus, "constructor").Str?
    ensures MapStatus(apiStatus, "constructor") == "scheduled"
  {
    assert "constructor" !in StatusTable;
  }

  /** `getCurrentPeriod('toString')` as written is not the empty string. */
  lemma CurrentPeriodAsWrittenNotEmpty()
    ensures CurrentPeriodAsWritten("toString") != Str("")
    ensures CurrentPeriod("toString") == ""
  {
    assert "toString" !in PeriodTable;
  }

  /**
   * Every code the live filter accepts is classified as live or halftime
   * and has a period description.
   */
  lemma LiveCodesAreInPlay(code: string)
    requires code in LiveStatuses
    ensures MapStatus(Undefined, code) in {"live", "halftime"}
    ensures CurrentPeriod(code) != ""
  {
  }

  /** `INT` (interrupted) is classified live but is not in the live list and has no period. */
  lemma InterruptedIsLiveButNotListed()
    ensures MapStatus(Undefined, "INT") == "live"
    ensures "INT" !in LiveStatuses && CurrentPeriod("INT") == ""
  {
  }

  // ---------------------------------------------------------------------
  // Games, the two filters and the records they produce
  // ---------------------------------------------------------------------

  /** `game.teams.home` / `game.teams.away`. */
  datatype TeamRef = TeamRef(id: int, name: Json, logo: Json)

  /** One entry of the feed's `response` list, reduced to the fields read. */
  datatype Game = Game(
    id: int,
    leagueName: Json,
    statusLong: Json,
    statusShort: string,
    date: Json,
    home: TeamRef,
    away: TeamRef,
    homeTotal: Json,
    awayTotal: Json,
    arena: Json)

  /** One side of a `MatchData` record; `score` is absent from upcoming records. */
  datatype Side = Side(id: string, name: Json, logo: Json, score: Option<Json>)

  /** The `MatchData` record built for a game. */
  datatype MatchData = MatchData(
    externalId: string,
    sport: string,
    league: Json,
    home: Side,
    away: Side,
    status: string,
    startTime: Json,
    venue: Json,
    currentPeriod: Option<string>)

  /** `xs.filter(p)`. */
  function Filter<T(!new)>(p: T -> bool, xs: seq<T>): (r: seq<T>)
    ensures |r| <= |xs|
    ensures forall x :: multiset(r)[x] == if p(x) then multiset(xs)[x] else 0
    decreases |xs|
  {
    if xs == [] then []
    else
      var rest := Filter(p, xs[..|xs| - 1]);
      assert xs == xs[..|xs| - 1] + [xs[|xs| - 1]];
      if p(xs[|xs| - 1]) then rest + [xs[|xs| - 1]] else rest
  }

  /** Every element the filter keeps satisfies the predicate. */
  lemma FilterKeeps<T(!new)>(p: T -> bool, xs: seq<T>, i: nat)
    requires i < |Filter(p, xs)|
    ensures p(Filter(p, xs)[i])
  {
    var r := Filter(p, xs);
    assert r[i] in multiset(r);
    assert multiset(r)[r[i]] > 0;
  }

  /** The filter of a longer list ends with the verdict on its last element. */
  lemma FilterSnoc<T(!new)>(p: T -> bool, xs: seq<T>, x: T)
    ensures Filter(p, xs + [x]) == Filter(p, xs) + (if p(x) then [x] else [])
  {
    assert (xs + [x])[..|xs|] == xs;
  }

  /**
   * The filter keeps the order of its input: filtering a concatenation is
   * concatenating the filtered parts.
   */
  lemma {:induction false} FilterAppend<T(!new)>(p: T -> bool, a: seq<T>, b: seq<T>)
    ensures Filter(p, a + b) == Filter(p, a) + Filter(p, b)
    decreases |b|
  {
    if b == [] {
      assert a + b == a;
    } else {
      var init, x := b[..|b| - 1], b[|b| - 1];
      var tail := if p(x) then [x] else [];
      assert a + b == (a + init) + [x];
      assert b == init + [x];
      calc {
        Filter(p, a + b);
        Filter(p, (a + init) + [x]);
        { FilterSnoc(p, a + init, x); }
        Filter(p, a + init) + tail;
        { FilterAppend(p, a, init); }
        (Filter(p, a) + Filter(p, init)) + tail;
        Filter(p, a) + (Filter(p, init) + tail);
        { FilterSnoc(p, init, x); }
        Filter(p, a) + Filter(p, init + [x]);
        Filter(p, a) + Filter(p, b);
      }
    }
  }

  /** `xs.map(f)`. */
  function MapSeq<T, U>(f: T -> U, xs: seq<T>): (r: seq<U>)
    ensures |r| == |xs|
    ensures forall i :: 0 <= i < |xs| ==> r[i] == f(xs[i])
  {
    seq(|xs|, i requires 0 <= i < |xs| => f(xs[i]))
  }

  /** The live filter: an in-play code and the league named `'NBA'`. */
  predicate IsLiveGame(g: Game)
  {
    g.statusShort in LiveStatuses && StrictEquals(g.leagueName, Str("NBA"))
  }

  /** The scheduled filter: not started, and the league named `'NBA'`. */
  predicate IsScheduledGame(g: Game)
  {
    g.statusShort == "NS" && StrictEquals(g.leagueName, Str("NBA"))
  }

  /** A team total, `total || 0`. */
  function Score(total: Json): (r: Json)
    ensures Truthy(total) ==> r == total
    ensures !Truthy(total) ==> r == Num(0)
  {
    Or(total, Num(0))
  }

  /** The record a live game becomes in `fetchLiveMatches`. */
  function ToLiveMatch(g: Game): (r: MatchData)
    ensures ParseInt(r.externalId) == Some(g.id)
    ensures ParseInt(r.home.id) == Some(g.home.id) && ParseInt(r.away.id) == Some(g.away.id)
    ensures r.home.score.Some? && r.away.score.Some?
  {
    ParseIntRoundTrip(g.id);
    ParseIntRoundTrip(g.home.id);
    ParseIntRoundTrip(g.away.id);
    MatchData(
      IntToString(g.id), "basketball", Or(g.leagueName, Str("Basketball")),
      Side(IntToString(g.home.id), g.home.name, g.home.logo, Some(Score(g.homeTotal))),
      Side(IntToString(g.away.id), g.away.name, g.away.logo, Some(Score(g.awayTotal))),
      MapStatus(g.statusLong, g.statusShort), g.date,
      OptionalGet(g.arena, "name"), Some(CurrentPeriod(g.statusShort)))
  }

  /** The record a scheduled game becomes in `fetchUpcomingMatches`. */
  function ToUpcomingMatch(g: Game): (r: MatchData)
    ensures ParseInt(r.externalId) == Some(g.id)
    ensures ParseInt(r.home.id) == Some(g.home.id) && ParseInt(r.away.id) == Some(g.away.id)
    ensures r.home.score.None? && r.away.score.None?
  {
    ParseIntRoundTrip(g.id);
    ParseIntRoundTrip(g.home.id);
    ParseIntRoundTrip(g.away.id);
    MatchData(
      IntToString(g.id), "basketball", Or(g.leagueName, Str("Basketball")),
      Side(IntToString(g.home.id), g.home.name, g.home.logo, None),
      Side(IntToString(g.away.id), g.away.name, g.away.logo, None),
      "scheduled", g.date, OptionalGet(g.arena, "name"), None)
  }

  /** Mapping a concatenation is concatenating the mapped parts. */
  lemma MapSeqAppend<T, U>(f: T -> U, a: seq<T>, b: seq<T>)
    ensures MapSeq(f, a + b) == MapSeq(f, a) + MapSeq(f, b)
  {
    var l, r := MapSeq(f, a + b), MapSeq(f, a) + MapSeq(f, b);
    assert forall i :: 0 <= i < |l| ==> l[i] == r[i] by {
      forall i | 0 <= i < |l| ensures l[i] == r[i] {
        if i < |a| { assert (a + b)[i] == a[i]; } else { assert (a + b)[i] == b[i - |a|]; }
      }
    }
  }

  /**
   * The live list keeps the feed's order: the records of earlier games come
   * first.
   */
  lemma LiveMatchesAppend(a: seq<Game>, b: seq<Game>)
    ensures LiveMatches(a + b) == LiveMatches(a) + LiveMatches(b)
  {
    FilterAppend(IsLiveGame, a, b);
    MapSeqAppend(ToLiveMatch, Filter(IsLiveGame, a), Filter(IsLiveGame, b));
  }

  /** The upcoming list keeps the feed's order too. */
  lemma UpcomingMatchesAppend(a: seq<Game>, b: seq<Game>)
    ensures UpcomingMatches(a + b) == UpcomingMatches(a) + UpcomingMatches(b)
  {
    FilterAppend(IsScheduledGame, a, b);
    MapSeqAppend(ToUpcomingMatch, Filter(IsScheduledGame, a), Filter(IsScheduledGame, b));
  }

  /** Every in-play NBA game of the feed has its record in the live list. */
  lemma LiveMatchesComplete(games: seq<Game>, g: Game)
    requires g in games && IsLiveGame(g)
    ensures ToLiveMatch(g) in LiveMatches(games)
  {
    var kept := Filter(IsLiveGame, games);
    LiveFilterExact(games, g);
    var i :| 0 <= i < |kept| && kept[i] == g;
    assert LiveMatches(games)[i] == ToLiveMatch(g);
  }

  /** Every not-started NBA game of the feed has its record in the upcoming list. */
  lemma UpcomingMatchesComplete(games: seq<Game>, g: Game)
    requires g in games && IsScheduledGame(g)
    ensures ToUpcomingMatch(g) in UpcomingMatches(games)
  {
    var kept := Filter(IsScheduledGame, games);
    ScheduledFilterExact(games, g);
    var i :| 0 <= i < |kept| && kept[i] == g;
    assert UpcomingMatches(games)[i] == ToUpcomingMatch(g);
  }

  /** The records `fetchLiveMatches` returns for a non-empty game list. */
  function LiveMatches(games: seq<Game>): (r: seq<MatchData>)
    ensures |r| <= |games|
  {
    MapSeq(ToLiveMatch, Filter(IsLiveGame, games))
  }

  /** The records `fetchUpcomingMatches` returns for a non-empty game list. */
  function UpcomingMatches(games: seq<Game>): (r: seq<MatchData>)
    ensures |r| <= |games|
  {
    MapSeq(ToUpcomingMatch, Filter(IsScheduledGame, games))
  }

  /**
   * The live filter keeps exactly the in-play NBA games, each as often as it
   * occurs; a game appended to the feed is kept, or not, at the end.
   */
  lemma LiveFilterExact(games: seq<Game>, g: Game)
    ensures g in Filter(IsLiveGame, games) <==> g in games && g.statusShort in LiveStatuses && g.leagueName == Str("NBA")
    ensures multiset(Filter(IsLiveGame, games))[g] == if IsLiveGame(g) then multiset(games)[g] else 0
    ensures Filter(IsLiveGame, games + [g]) == Filter(IsLiveGame, games) + (if IsLiveGame(g) then [g] else [])
  {
    FilterSnoc(IsLiveGame, games, g);
    assert g in Filter(IsLiveGame, games) <==> multiset(Filter(IsLiveGame, games))[g] > 0;
  }

  /**
   * The scheduled filter keeps exactly the not-started NBA games, each as
   * often as it occurs; a game appended to the feed is kept, or not, at the end.
   */
  lemma ScheduledFilterExact(games: seq<Game>, g: Game)
    ensures g in Filter(IsScheduledGame, games) <==> g in games && g.statusShort == "NS" && g.leagueName == Str("NBA")
    ensures multiset(Filter(IsScheduledGame, games))[g] == if IsScheduledGame(g) then multiset(games)[g] else 0
    ensures Filter(IsScheduledGame, games + [g]) == Filter(IsScheduledGame, games) + (if IsScheduledGame(g) then [g] else [])
  {
    FilterSnoc(IsScheduledGame, games, g);
    assert g in Filter(IsScheduledGame, games) <==> multiset(Filter(IsScheduledGame, games))[g] > 0;
  }

  /**
   * Every live record is an NBA game classified live or halftime, with a
   * period description and both scores present.
   */
  lemma LiveMatchesInPlay(games: seq<Game>, i: nat)
    requires i < |LiveMatches(games)|
    ensures var r := LiveMatches(games)[i];
      && r.status in {"live", "halftime"}
      && r.currentPeriod.Some? && r.currentPeriod.value != ""
      && r.league == Str("NBA")
      && r.home.score.Some? && r.away.score.Some?
  {
    var kept := Filter(IsLiveGame, games);
    FilterKeeps(IsLiveGame, games, i);
    LiveRecordInPlay(kept[i]);
    assert LiveMatches(games)[i] == ToLiveMatch(kept[i]);
  }

  /** The record of one game the live filter keeps. */
  lemma LiveRecordInPlay(g: Game)
    requires IsLiveGame(g)
    ensures var r := ToLiveMatch(g);
      && r.status in {"live", "halftime"}
      && r.currentPeriod.Some? && r.currentPeriod.value != ""
      && r.league == Str("NBA")
      && r.home.score.Some? && r.away.score.Some?
  {
    assert g.leagueName == Str("NBA");
    LiveCodesAreInPlay(g.statusShort);
  }

  /**
   * Every upcoming record is an NBA game stamped `'scheduled'`, the status
   * the table gives its `NS` code.
   */
  lemma UpcomingMatchesScheduled(games: seq<Game>, i: nat)
    requires i < |UpcomingMatches(games)|
    ensures var r := UpcomingMatches(games)[i];
      r.status == "scheduled" == MapStatus(Undefined, "NS") && r.league == Str("NBA") && r.currentPeriod.None?
  {
    NotStartedIsScheduled();
    var kept := Filter(IsScheduledGame, games);
    FilterKeeps(IsScheduledGame, games, i);
    UpcomingRecordScheduled(kept[i]);
    assert UpcomingMatches(games)[i] == ToUpcomingMatch(kept[i]);
  }

  /** The record of one game the scheduled filter keeps. */
  lemma UpcomingRecordScheduled(g: Game)
    requires IsScheduledGame(g)
    ensures var r := ToUpcomingMatch(g);
      r.status == "scheduled" && r.league == Str("NBA") && r.currentPeriod.None?
  {
    assert g.leagueName == Str("NBA");
  }

  /** A falsy or missing team total is reported as 0; any other total unchanged. */
  lemma LiveScoreDefault(g: Game)
    ensures ToLiveMatch(g).home.score == Some(if Truthy(g.homeTotal) then g.homeTotal else Num(0))
    ensures ToLiveMatch(g).away.score == Some(if Truthy(g.awayTotal) then g.awayTotal else Num(0))
    ensures g.homeTotal == Null ==> ToLiveMatch(g).home.score == Some(Num(0))
  {
  }

  // ---------------------------------------------------------------------
  // Player statistics
  // ---------------------------------------------------------------------

  /** One entry of a team's `players` list, reduced to the fields read. */
  datatype PlayerLine = PlayerLine(
    id: Json, name: Json,
    points: Json, totReb: Json, assists: Json, steals: Json, blocks: Json,
    turnovers: Json, pFouls: Json, fgm: Json, fga: Json, tpm: Json, tpa: Json,
    ftm: Json, fta: Json, min: Json, pos: Json)

  /** One entry of the statistics `response` list: a team and its players. */
  datatype TeamEntry = TeamEntry(teamId: int, teamName: Json, players: seq<PlayerLine>)

  /** One record of the flattened statistics. */
  datatype PlayerStat = PlayerStat(
    playerId: Json, playerName: Json, teamId: string, teamName: Json,
    points: int, rebounds: int, assists: int, steals: int, blocks: int,
    turnovers: int, fouls: int,
    fieldGoalsMade: int, fieldGoalsAttempted: int,
    threePointersMade: int, threePointersAttempted: int,
    freeThrowsMade: int, freeThrowsAttempted: int,
    minutes: Json, position: Json, isStarter: bool)

  /** `parseInt(text) || 0`: the parsed value, 0 for `NaN`. */
  function ParseOrZero(text: string): int
  {
    match ParseInt(text)
    case None => 0
    case Some(n) => n
  }

  /**
   * `parseInt(raw) || 0` for a statistic, by the kind of value: a number is
   * itself, text is parsed, an array is parsed through its comma-joined text,
   * and `undefined`, `null`, booleans and objects are 0.
   */
  function Stat(raw: Json): int
  {
    match raw
    case Num(n) => n
    case Str(s) => ParseOrZero(s)
    case Arr(_) => ParseOrZero(ToJsString(raw))
    case _ => 0
  }

  /** `Stat` is `parseInt(raw) || 0`: `parseInt` of the text of `raw`, 0 for `NaN`. */
  lemma StatIsParseInt(raw: Json)
    ensures Stat(raw) == ParseOrZero(ToJsString(raw))
  {
    match raw
    case Num(n) => ParseIntRoundTrip(n);
    case Undefined => ParseIntNaN("undefined");
    case Null => ParseIntNaN("null");
    case Bool(b) => ParseIntNaN(if b then "true" else "false");
    case Obj(_) => ParseIntNaN("[object Object]");
    case _ =>
  }

  /** The decimal text of a number is read back unchanged. */
  lemma StatReadsDecimalText(n: int)
    ensures Stat(Str(IntToString(n))) == n
  {
    ParseIntRoundTrip(n);
  }

  /** `player.player.id?.toString() || player.player.name`. */
  function PlayerId(id: Json, name: Json): (r: Json)
    ensures Nullish(id) ==> r == name
    ensures id.Num? ==> r == Str(IntToString(id.n))
  {
    if Nullish(id) then name
    else
      var s := ToJsString(id);
      if s != "" then Str(s) else name
  }

  /** `pos !== '' && pos !== 'DNP'`. */
  predicate IsStarter(pos: Json)
  {
    !StrictEquals(pos, Str("")) && !StrictEquals(pos, Str("DNP"))
  }

  /** The record pushed for one player of one team. */
  function ToPlayerStat(t: TeamEntry, p: PlayerLine): PlayerStat
  {
    PlayerStat(
      PlayerId(p.id, p.name), p.name, IntToString(t.teamId), t.teamName,
      Stat(p.points), Stat(p.totReb), Stat(p.assists), Stat(p.steals), Stat(p.blocks),
      Stat(p.turnovers), Stat(p.pFouls),
      Stat(p.fgm), Stat(p.fga), Stat(p.tpm), Stat(p.tpa), Stat(p.ftm), Stat(p.fta),
      Or(p.min, Str("0")), Or(p.pos, Str("")), IsStarter(p.pos))
  }

  /** The record maker for the players of team `t`. */
  function RowMaker(t: TeamEntry): PlayerLine -> PlayerStat
  {
    p => ToPlayerStat(t, p)
  }

  /** The records of the players of team `t`, in order. */
  function TeamRows(t: TeamEntry): seq<PlayerStat>
  {
    MapSeq(RowMaker(t), t.players)
  }

  /** The flattened statistics of a team list: team by team, player by player. */
  function Flatten(teams: seq<TeamEntry>): seq<PlayerStat>
  {
    if teams == [] then []
    else Flatten(teams[..|teams| - 1]) + TeamRows(teams[|teams| - 1])
  }

  /** The number of players over all team entries. */
  function TotalPlayers(teams: seq<TeamEntry>): nat
  {
    if teams == [] then 0 else TotalPlayers(teams[..|teams| - 1]) + |teams[|teams| - 1].players|
  }

  /** Mapping over one more element adds its image at the end. */
  lemma MapSeqSnoc<T, U>(f: T -> U, xs: seq<T>, x: T)
    ensures MapSeq(f, xs + [x]) == MapSeq(f, xs) + [f(x)]
  {
  }

  /** One more team adds all of its players' records at the end. */
  lemma FlattenStep(teams: seq<TeamEntry>, i: nat)
    requires i < |teams|
    ensures Flatten(teams[..i + 1]) == Flatten(teams[..i]) + TeamRows(teams[i])
  {
    assert teams[..i + 1][..i] == teams[..i];
  }

  /** One record per player. */
  lemma {:induction false} FlattenLength(teams: seq<TeamEntry>)
    ensures |Flatten(teams)| == TotalPlayers(teams)
    decreases |teams|
  {
    if teams != [] {
      FlattenLength(teams[..|teams| - 1]);
    }
  }

  /**
   * Team-then-player order: the record of player `j` of team `i` sits after
   * the players of the teams before it, and carries that team's id and name.
   */
  lemma {:induction false} FlattenAt(teams: seq<TeamEntry>, i: nat, j: nat)
    requires i < |teams| && j < |teams[i].players|
    ensures TotalPlayers(teams[..i]) + j < |Flatten(teams)|
    ensures Flatten(teams)[TotalPlayers(teams[..i]) + j] == ToPlayerStat(teams[i], teams[i].players[j])
    decreases |teams|
  {
    var init := teams[..|teams| - 1];
    var last := teams[|teams| - 1];
    FlattenLength(init);
    FlattenLength(teams);
    assert Flatten(teams) == Flatten(init) + TeamRows(last);
    if i < |teams| - 1 {
      assert init[..i] == teams[..i];
      FlattenAt(init, i, j);
      assert Flatten(teams)[TotalPlayers(teams[..i]) + j] == Flatten(init)[TotalPlayers(teams[..i]) + j];
    } else {
      assert teams[..i] == init;
      assert Flatten(teams)[TotalPlayers(teams[..i]) + j] == TeamRows(last)[j];
    }
  }

  /** Each record carries the id and the name of the team it was listed under. */
  lemma FlattenTeamFields(teams: seq<TeamEntry>, i: nat, j: nat)
    requires i < |teams| && j < |teams[i].players|
    ensures TotalPlayers(teams[..i]) + j < |Flatten(teams)|
    ensures Flatten(teams)[TotalPlayers(teams[..i]) + j].teamId == IntToString(teams[i].teamId)
    ensures Flatten(teams)[TotalPlayers(teams[..i]) + j].teamName == teams[i].teamName
    ensures Flatten(teams)[TotalPlayers(teams[..i]) + j].playerName == teams[i].players[j].name
  {
    FlattenAt(teams, i, j);
  }

  /** A player whose position is missing gets position `''` yet counts as a starter. */
  lemma MissingPositionCountsAsStarter(t: TeamEntry, p: PlayerLine)
    requires Nullish(p.pos)
    ensures ToPlayerStat(t, p).position == Str("")
    ensures ToPlayerStat(t, p).isStarter
  {
  }

  /** An explicit `''` or `'DNP'` position is never a starter. */
  lemma BenchPositions(t: TeamEntry, p: PlayerLine)
    requires p.pos == Str("") || p.pos == Str("DNP")
    ensures !ToPlayerStat(t, p).isStarter
  {
  }

  /**
   * The inner `forEach` of `fetchPlayerStats`: push one record per player of
   * `team` onto `allStats`.
   */
  method PushTeam(allStats: seq<PlayerStat>, team: TeamEntry) returns (r: seq<PlayerStat>)
    ensures r == allStats + TeamRows(team)
  {
    r := allStats;
    var j := 0;
    while j < |team.players|
      invariant 0 <= j <= |team.players|
      invariant r == allStats + MapSeq(RowMaker(team), team.players[..j])
    {
      MapSeqSnoc(RowMaker(team), team.players[..j], team.players[j]);
      assert team.players[..j + 1] == team.players[..j] + [team.players[j]];
      r := r + [ToPlayerStat(team, team.players[j])];
      j := j + 1;
    }
    assert team.players[..j] == team.players;
  }

  /**
   * The outer `forEach` of `fetchPlayerStats`, over the team entries, that
   * builds `allStats`.
   */
  method FlattenPlayerStats(teams: seq<TeamEntry>) returns (allStats: seq<PlayerStat>)
    ensures allStats == Flatten(teams)
    ensures |allStats| == TotalPlayers(teams)
  {
    allStats := [];
    var i := 0;
    while i < |teams|
      invariant 0 <= i <= |teams|
      invariant allStats == Flatten(teams[..i])
    {
      allStats := PushTeam(allStats, teams[i]);
      FlattenStep(teams, i);
      i := i + 1;
    }
    assert teams[..i] == teams;
    FlattenLength(teams);
  }
}
