/**
 * `createHistory($symbol)` of `createHistory`: create a MetaTrader history
 * set for the symbol, then walk every FXT day from the symbol's M1 history
 * start up to (excluding) today, and append the XTrade M1 bars of every
 * trading day to the set; close the set once the walk is complete. A missing
 * input file ends the run with `false` and leaves the set unclosed.
 *
 * The history set and the symbol table belong to other parts of the system:
 * the calls into the set are recorded as events in program order, together
 * with the lines the run prints, and the table lookups, the FXT clock, the
 * weekend rule and the bar reader are parameters.
 */
module CreateHistory {
  import opened Wrappers
  import opened Bars
  import opened VarCache
  import opened FileStore
  import Dates
  import DayWalk
  import XtradePaths

  datatype Env = Env(
    dataDir: string,                                 // `app.dir.data`
    historyStart: string -> int,                     // `XTrade::$symbols[..]['historyStart']['M1']`
    digits: string -> int,                           // `XTrade::$symbols[..]['digits']`
    groups: XtradePaths.Groups,                      // `XTrade::$symbols[..]['group']`
    fxtTime: int -> int,                             // `fxtTime($time)`
    nowFxt: int,                                     // `fxtTime()`
    isFxtWeekend: int -> bool,                       // `isFxtWeekend($day, 'FXT')`
    readBars: (string, seq<Packer.byte>, string) -> seq<Bar>)   // `XTrade::readBarFile($file, $symbol)`

  /** `$format = 400`: the MetaTrader history file format of the new set. */
  const HistoryFormat := 400

  /** The directory of the set: `app.dir.data` followed by this. */
  const HistoryDir := "/history/mt4/XTrade-Testhistory"

  /** The calls into the history set and the printed lines, in program order. */
  datatype Event =
    | CreateSet(symbol: string, digits: int, format: int, directory: string)   // `HistorySet::create`
    | MonthInfo(day: int)                                                        // "[Info]    M-Y"
    | NotFound(symbol: string, day: int)                                         // "[Error]   ... not found"
    | Append(day: int, bars: seq<Bar>)                                           // `$history->appendBars($bars)`
    | Close                                                                      // `$history->close()`
    | Finished(symbol: string)                                                   // "[Ok]      symbol"

  datatype Fault =
    | InvalidSymbol                             // `!strLen($symbol)`
    | PathFault(failure: XtradePaths.Failure)

  datatype Run = Run(status: Result<bool, Fault>, events: seq<Event>, cache: Cache<XtradePaths.Var>)

  function SourceKey(symbol: string, day: int, compressed: bool): Key<XtradePaths.Var>
  {
    Key(XtradePaths.File(compressed), symbol, day)
  }

  /** The input file of a day: the compressed file when it exists, else the raw one when it exists. */
  function SourceOf(env: Env, symbol: string, day: int, fs: FileSystem): Result<Option<string>, XtradePaths.Failure>
  {
    match XtradePaths.Resolve(env.dataDir, env.groups, SourceKey(symbol, day, true))
    case Err(e) => Err(e)
    case Ok(compressed) =>
      if compressed in fs then Ok(Some(compressed))
      else
        match XtradePaths.Resolve(env.dataDir, env.groups, SourceKey(symbol, day, false))
        case Err(e) => Err(e)
        case Ok(raw) => if raw in fs then Ok(Some(raw)) else Ok(None)
  }

  /** Lines 98-99, through the cached `getVar`. */
  function Locate(env: Env, symbol: string, day: int, fs: FileSystem, cache: Cache<XtradePaths.Var>)
    : (r: (Result<Option<string>, XtradePaths.Failure>, Cache<XtradePaths.Var>))
  {
    var (compressed, c1) := XtradePaths.GetVar(env.dataDir, env.groups, SourceKey(symbol, day, true), cache);
    match compressed
    case Err(e) => (Err(e), c1)
    case Ok(file) =>
      if file in fs then (Ok(Some(file)), c1)
      else
        var (raw, c2) := XtradePaths.GetVar(env.dataDir, env.groups, SourceKey(symbol, day, false), c1);
        match raw
        case Err(e) => (Err(e), c2)
        case Ok(file') => if file' in fs then (Ok(Some(file')), c2) else (Ok(None), c2)
  }

  lemma LocateIsSourceOf(env: Env, symbol: string, day: int, fs: FileSystem, cache: Cache<XtradePaths.Var>)
    requires XtradePaths.CacheOk(env.dataDir, env.groups, cache)
    ensures Locate(env, symbol, day, fs, cache).0 == SourceOf(env, symbol, day, fs)
    ensures XtradePaths.CacheOk(env.dataDir, env.groups, Locate(env, symbol, day, fs, cache).1)
  {
    XtradePaths.GetVarIsResolve(env.dataDir, env.groups, SourceKey(symbol, day, true), cache);
    var (_, c1) := XtradePaths.GetVar(env.dataDir, env.groups, SourceKey(symbol, day, true), cache);
    XtradePaths.GetVarIsResolve(env.dataDir, env.groups, SourceKey(symbol, day, false), c1);
  }

  /** Lines 88-111 from `day` on. */
  function Walk(env: Env, symbol: string, day: int, today: int, lastMonth: int,
                fs: FileSystem, cache: Cache<XtradePaths.Var>): (r: Run)
    decreases today - day
  {
    if day >= today then Run(Ok(true), [Close, Finished(symbol)], cache)
    else
      var month := Dates.Month(day);
      var info := if month != lastMonth then [MonthInfo(day)] else [];
      if env.isFxtWeekend(day) then
        var rest := Walk(env, symbol, day + Dates.DAY, today, month, fs, cache);
        rest.(events := info + rest.events)
      else
        var (source, c) := Locate(env, symbol, day, fs, cache);
        match source
        case Err(e) => Run(Err(PathFault(e)), info, c)
        case Ok(None) => Run(Ok(false), info + [NotFound(symbol, day)], c)
        case Ok(Some(file)) =>
          var rest := Walk(env, symbol, day + Dates.DAY, today, month, fs, c);
          rest.(events := info + [Append(day, env.readBars(file, fs[file], symbol))] + rest.events)
  }

  /** Midnight (FXT) of the symbol's first M1 day, with PHP's truncating `%`. */
  function StartDay(env: Env, symbol: string): int
  {
    Dates.FloorToDay(env.fxtTime(env.historyStart(symbol)))
  }

  function Today(env: Env): int
  {
    Dates.FloorToDay(env.nowFxt)
  }

  /** `createHistory($symbol)` on the file system `fs`, from the `getVar` cache `cache`. */
  function CreateHistory(env: Env, symbol: string, fs: FileSystem, cache: Cache<XtradePaths.Var>): (r: Run)
    ensures symbol == "" ==> r == Run(Err(InvalidSymbol), [], cache)
    ensures symbol != "" ==>
      |r.events| > 0 && r.events[0] == CreateSet(symbol, env.digits(symbol), HistoryFormat, env.dataDir + HistoryDir)
  {
    if symbol == "" then Run(Err(InvalidSymbol), [], cache)
    else
      var create := CreateSet(symbol, env.digits(symbol), HistoryFormat, env.dataDir + HistoryDir);
      var rest := Walk(env, symbol, StartDay(env, symbol), Today(env), -1, fs, cache);
      rest.(events := [create] + rest.events)
  }

  /** The days and bars appended to the set, in order. */
  function Appended(events: seq<Event>): (r: seq<(int, seq<Bar>)>)
  {
    if events == [] then []
    else (if events[0].Append? then [(events[0].day, events[0].bars)] else []) + Appended(events[1..])
  }

  function MonthInfos(events: seq<Event>): (r: seq<int>)
  {
    if events == [] then []
    else (if events[0].MonthInfo? then [events[0].day] else []) + MonthInfos(events[1..])
  }

  lemma {:induction false} AppendedAppend(a: seq<Event>, b: seq<Event>)
    ensures Appended(a + b) == Appended(a) + Appended(b)
    ensures MonthInfos(a + b) == MonthInfos(a) + MonthInfos(b)
    decreases |a|
  {
    if a == [] {
      assert a + b == b;
    } else {
      assert (a + b)[0] == a[0];
      assert (a + b)[1..] == a[1..] + b;
      AppendedAppend(a[1..], b);
      var x := if a[0].Append? then [(a[0].day, a[0].bars)] else [];
      assert Appended(a + b) == x + (Appended(a[1..]) + Appended(b));
      assert x + (Appended(a[1..]) + Appended(b)) == (x + Appended(a[1..])) + Appended(b);
      var y := if a[0].MonthInfo? then [a[0].day] else [];
      assert MonthInfos(a + b) == y + (MonthInfos(a[1..]) + MonthInfos(b));
      assert y + (MonthInfos(a[1..]) + MonthInfos(b)) == (y + MonthInfos(a[1..])) + MonthInfos(b);
    }
  }

  lemma Single(e: Event)
    ensures Appended([e]) == if e.Append? then [(e.day, e.bars)] else []
    ensures MonthInfos([e]) == if e.MonthInfo? then [e.day] else []
  {
    assert [e][1..] == [];
  }

  function Days(appended: seq<(int, seq<Bar>)>): (ds: seq<int>)
    ensures |ds| == |appended|
    ensures forall i :: 0 <= i < |ds| ==> ds[i] == appended[i].0
  {
    if appended == [] then [] else [appended[0].0] + Days(appended[1..])
  }

  /** The bars a trading day contributes: those of its input file. */
  predicate AppendsItsFile(env: Env, symbol: string, fs: FileSystem, entry: (int, seq<Bar>))
  {
    var source := SourceOf(env, symbol, entry.0, fs);
    source.Ok? && source.value.Some? && source.value.value in fs &&
    entry.1 == env.readBars(source.value.value, fs[source.value.value], symbol)
  }

  /** The appended days are trading days in order, each with the bars of its own file. */
  predicate AppendFacts(env: Env, symbol: string, day: int, today: int, fs: FileSystem, r: Run)
  {
    var trading := DayWalk.Trading(DayWalk.Days(day, today), env.isFxtWeekend);
    && Days(Appended(r.events)) <= trading
    && (forall i :: 0 <= i < |Appended(r.events)| ==> AppendsItsFile(env, symbol, fs, Appended(r.events)[i]))
    && (r.status == Ok(true) ==> Days(Appended(r.events)) == trading)
  }

  /** How the walk ends: closed exactly once, after the last day, on success; with the missing day on `false`. */
  predicate EndFacts(env: Env, symbol: string, day: int, today: int, fs: FileSystem, r: Run)
  {
    var trading := DayWalk.Trading(DayWalk.Days(day, today), env.isFxtWeekend);
    && (Close in r.events <==> r.status == Ok(true))
    && (r.status == Ok(true) ==>
          && |r.events| >= 2 && r.events[|r.events| - 2..] == [Close, Finished(symbol)]
          && Close !in r.events[..|r.events| - 2])
    && (r.status == Ok(false) ==>
          |r.events| > 0 && r.events[|r.events| - 1].NotFound? &&
          var d := r.events[|r.events| - 1].day;
          d in trading && SourceOf(env, symbol, d, fs) == Ok(None))
  }

  /** On success a month line was printed on every change of month. */
  predicate MonthFacts(day: int, today: int, lastMonth: int, r: Run)
  {
    r.status == Ok(true) ==> MonthInfos(r.events) == DayWalk.MonthChanges(DayWalk.Days(day, today), lastMonth)
  }

  /** What the walk promises from a well-formed cache. */
  predicate WalkFacts(env: Env, symbol: string, day: int, today: int, lastMonth: int, fs: FileSystem, r: Run)
  {
    && XtradePaths.CacheOk(env.dataDir, env.groups, r.cache)
    && AppendFacts(env, symbol, day, today, fs, r)
    && EndFacts(env, symbol, day, today, fs, r)
    && MonthFacts(day, today, lastMonth, r)
  }

  /**
   * From a well-formed cache: the appended days are the trading days in
   * order, each with the bars of its own input file; the set is closed
   * exactly when the run succeeds, and then all trading days were appended
   * and a month line printed on every change of month; a `false` run ends
   * with the trading day whose input files are both missing.
   */
  lemma {:induction false} WalkIsFaithful(env: Env, symbol: string, day: int, today: int, lastMonth: int,
                                          fs: FileSystem, cache: Cache<XtradePaths.Var>)
    requires XtradePaths.CacheOk(env.dataDir, env.groups, cache)
    ensures WalkFacts(env, symbol, day, today, lastMonth, fs, Walk(env, symbol, day, today, lastMonth, fs, cache))
    decreases today - day, 1
  {
    if day >= today {
      EndOfWalk(env, symbol, day, today, lastMonth, fs, cache);
    } else if env.isFxtWeekend(day) {
      WeekendDay(env, symbol, day, today, lastMonth, fs, cache);
    } else {
      TradingDay(env, symbol, day, today, lastMonth, fs, cache);
    }
  }

  lemma {:induction false} WeekendDay(env: Env, symbol: string, day: int, today: int, lastMonth: int,
                                      fs: FileSystem, cache: Cache<XtradePaths.Var>)
    requires day < today && env.isFxtWeekend(day)
    requires XtradePaths.CacheOk(env.dataDir, env.groups, cache)
    ensures WalkFacts(env, symbol, day, today, lastMonth, fs, Walk(env, symbol, day, today, lastMonth, fs, cache))
    decreases today - day, 0
  {
    var month := Dates.Month(day);
    var info := if month != lastMonth then [MonthInfo(day)] else [];
    WalkIsFaithful(env, symbol, day + Dates.DAY, today, month, fs, cache);
    var rest := Walk(env, symbol, day + Dates.DAY, today, month, fs, cache);
    Step(env, symbol, day, today, lastMonth, fs, info, [], rest);
    assert info + [] + rest.events == info + rest.events;
    WalkOnWeekend(env, symbol, day, today, lastMonth, fs, cache);
  }

  /** One step of `Walk` over a weekend day: at most a month line in front of the rest. */
  lemma WalkOnWeekend(env: Env, symbol: string, day: int, today: int, lastMonth: int,
                      fs: FileSystem, cache: Cache<XtradePaths.Var>)
    requires day < today && env.isFxtWeekend(day)
    ensures var info := if Dates.Month(day) != lastMonth then [MonthInfo(day)] else [];
      var rest := Walk(env, symbol, day + Dates.DAY, today, Dates.Month(day), fs, cache);
      Walk(env, symbol, day, today, lastMonth, fs, cache) == rest.(events := info + rest.events)
  {
  }

  lemma {:induction false} TradingDay(env: Env, symbol: string, day: int, today: int, lastMonth: int,
                                      fs: FileSystem, cache: Cache<XtradePaths.Var>)
    requires day < today && !env.isFxtWeekend(day)
    requires XtradePaths.CacheOk(env.dataDir, env.groups, cache)
    ensures WalkFacts(env, symbol, day, today, lastMonth, fs, Walk(env, symbol, day, today, lastMonth, fs, cache))
    decreases today - day, 0
  {
    var month := Dates.Month(day);
    var info := if month != lastMonth then [MonthInfo(day)] else [];
    LocateIsSourceOf(env, symbol, day, fs, cache);
    var (source, c) := Locate(env, symbol, day, fs, cache);
    match source
    case Err(e) =>
      FaultStep(env, symbol, day, today, lastMonth, fs, info, c, e);
    case Ok(None) =>
      StopStep(env, symbol, day, today, lastMonth, fs, info, c);
    case Ok(Some(file)) =>
      WalkIsFaithful(env, symbol, day + Dates.DAY, today, month, fs, c);
      var rest := Walk(env, symbol, day + Dates.DAY, today, month, fs, c);
      var bars := env.readBars(file, fs[file], symbol);
      assert AppendsItsFile(env, symbol, fs, (day, bars));
      Step(env, symbol, day, today, lastMonth, fs, info, [Append(day, bars)], rest);
  }

  lemma EndOfWalk(env: Env, symbol: string, day: int, today: int, lastMonth: int,
                  fs: FileSystem, cache: Cache<XtradePaths.Var>)
    requires day >= today
    requires XtradePaths.CacheOk(env.dataDir, env.groups, cache)
    ensures WalkFacts(env, symbol, day, today, lastMonth, fs, Run(Ok(true), [Close, Finished(symbol)], cache))
  {
    var r := Run(Ok(true), [Close, Finished(symbol)], cache);
    assert DayWalk.Days(day, today) == [];
    ClosingEvents(symbol);
    assert AppendFacts(env, symbol, day, today, fs, r);
    assert EndFacts(env, symbol, day, today, fs, r);
  }

  /** The two closing events append nothing and print no month line. */
  lemma ClosingEvents(symbol: string)
    ensures Appended([Close, Finished(symbol)]) == []
    ensures MonthInfos([Close, Finished(symbol)]) == []
    ensures Close in [Close, Finished(symbol)]
  {
    assert [Close, Finished(symbol)] == [Close] + [Finished(symbol)];
    AppendedAppend([Close], [Finished(symbol)]);
    Single(Close);
    Single(Finished(symbol));
  }

  /** A path failure ends the walk with nothing appended. */
  lemma FaultStep(env: Env, symbol: string, day: int, today: int, lastMonth: int, fs: FileSystem,
                  info: seq<Event>, cache: Cache<XtradePaths.Var>, e: XtradePaths.Failure)
    requires XtradePaths.CacheOk(env.dataDir, env.groups, cache)
    requires info == [] || info == [MonthInfo(day)]
    ensures WalkFacts(env, symbol, day, today, lastMonth, fs, Run(Err(PathFault(e)), info, cache))
  {
    if info != [] { Single(info[0]); }
  }

  /** The trading days from `day` on: `day` itself unless it is a weekend day, then the rest. */
  lemma TradingStep(env: Env, day: int, today: int)
    requires day < today
    ensures var ds := DayWalk.Days(day, today);
      && ds == [day] + DayWalk.Days(day + Dates.DAY, today)
      && DayWalk.Trading(ds, env.isFxtWeekend) ==
         (if env.isFxtWeekend(day) then [] else [day]) +
         DayWalk.Trading(DayWalk.Days(day + Dates.DAY, today), env.isFxtWeekend)
  {
    var ds := DayWalk.Days(day, today);
    assert ds[1..] == DayWalk.Days(day + Dates.DAY, today);
  }

  lemma DaysAppend(a: seq<(int, seq<Bar>)>, b: seq<(int, seq<Bar>)>)
    ensures Days(a + b) == Days(a) + Days(b)
  {
  }

  /** The month line and the bars of day `day` before the rest of the walk. */
  lemma Step(env: Env, symbol: string, day: int, today: int, lastMonth: int, fs: FileSystem,
             info: seq<Event>, append: seq<Event>, rest: Run)
    requires day < today
    requires info == if Dates.Month(day) != lastMonth then [MonthInfo(day)] else []
    requires env.isFxtWeekend(day) ==> append == []
    requires !env.isFxtWeekend(day) ==>
      |append| == 1 && append[0].Append? && append[0].day == day &&
      AppendsItsFile(env, symbol, fs, (day, append[0].bars))
    requires WalkFacts(env, symbol, day + Dates.DAY, today, Dates.Month(day), fs, rest)
    ensures WalkFacts(env, symbol, day, today, lastMonth, fs, rest.(events := info + append + rest.events))
  {
    var head := info + append;
    HeadFacts(day, lastMonth, info, append);
    AppendedAppend(head, rest.events);
    AppendStep(env, symbol, day, today, fs, head, rest);
    EndStep(env, symbol, day, today, fs, head, rest);
    MonthStep(day, today, lastMonth, head, rest);
  }

  /** What the events of one visited day contribute. */
  lemma HeadFacts(day: int, lastMonth: int, info: seq<Event>, append: seq<Event>)
    requires info == if Dates.Month(day) != lastMonth then [MonthInfo(day)] else []
    requires append == [] || (|append| == 1 && append[0].Append?)
    ensures Appended(info + append) == if append == [] then [] else [(append[0].day, append[0].bars)]
    ensures MonthInfos(info + append) == if Dates.Month(day) != lastMonth then [day] else []
    ensures Close !in info + append
  {
    if info != [] { Single(info[0]); }
    if append != [] { Single(append[0]); }
    AppendedAppend(info, append);
  }

  lemma AppendStep(env: Env, symbol: string, day: int, today: int, fs: FileSystem, head: seq<Event>, rest: Run)
    requires day < today
    requires env.isFxtWeekend(day) ==> Appended(head) == []
    requires !env.isFxtWeekend(day) ==>
      |Appended(head)| == 1 && Appended(head)[0].0 == day && AppendsItsFile(env, symbol, fs, Appended(head)[0])
    requires Appended(head + rest.events) == Appended(head) + Appended(rest.events)
    requires AppendFacts(env, symbol, day + Dates.DAY, today, fs, rest)
    ensures AppendFacts(env, symbol, day, today, fs, rest.(events := head + rest.events))
  {
    var a := Appended(rest.events);
    var h := Appended(head);
    assert Days(h) == if env.isFxtWeekend(day) then [] else [day];
    AppendDaysStep(env, day, today, h, a, rest.status);
    AllAppendItsFile(env, symbol, fs, h, a);
  }

  /** The day appended (if it trades) in front of the days appended after it. */
  lemma AppendDaysStep(env: Env, day: int, today: int, h: seq<(int, seq<Bar>)>, a: seq<(int, seq<Bar>)>,
                       status: Result<bool, Fault>)
    requires day < today
    requires Days(h) == if env.isFxtWeekend(day) then [] else [day]
    requires Days(a) <= DayWalk.Trading(DayWalk.Days(day + Dates.DAY, today), env.isFxtWeekend)
    requires status == Ok(true) ==> Days(a) == DayWalk.Trading(DayWalk.Days(day + Dates.DAY, today), env.isFxtWeekend)
    ensures Days(h + a) <= DayWalk.Trading(DayWalk.Days(day, today), env.isFxtWeekend)
    ensures status == Ok(true) ==> Days(h + a) == DayWalk.Trading(DayWalk.Days(day, today), env.isFxtWeekend)
  {
    TradingStep(env, day, today);
    DaysAppend(h, a);
  }

  lemma AllAppendItsFile(env: Env, symbol: string, fs: FileSystem, h: seq<(int, seq<Bar>)>, a: seq<(int, seq<Bar>)>)
    requires forall i :: 0 <= i < |h| ==> AppendsItsFile(env, symbol, fs, h[i])
    requires forall i :: 0 <= i < |a| ==> AppendsItsFile(env, symbol, fs, a[i])
    ensures forall i :: 0 <= i < |h + a| ==> AppendsItsFile(env, symbol, fs, (h + a)[i])
  {
    forall i | 0 <= i < |h + a|
      ensures AppendsItsFile(env, symbol, fs, (h + a)[i])
    {
      if i >= |h| { assert (h + a)[i] == a[i - |h|]; }
    }
  }

  lemma EndStep(env: Env, symbol: string, day: int, today: int, fs: FileSystem, head: seq<Event>, rest: Run)
    requires day < today
    requires Close !in head
    requires EndFacts(env, symbol, day + Dates.DAY, today, fs, rest)
    ensures EndFacts(env, symbol, day, today, fs, rest.(events := head + rest.events))
  {
    EndCloseStep(env, symbol, day, today, fs, head, rest);
    EndOkStep(env, symbol, day, today, fs, head, rest);
    EndFalseStep(env, symbol, day, today, fs, head, rest);
  }

  /** The part of `EndStep` about whether the history was closed. */
  lemma EndCloseStep(env: Env, symbol: string, day: int, today: int, fs: FileSystem, head: seq<Event>, rest: Run)
    requires Close !in head
    requires EndFacts(env, symbol, day + Dates.DAY, today, fs, rest)
    ensures var r := rest.(events := head + rest.events);
      Close in r.events <==> r.status == Ok(true)
  {
    EventsStep(symbol, head, rest.events);
  }

  /** The part of `EndStep` about how a run that returns true ends. */
  lemma EndOkStep(env: Env, symbol: string, day: int, today: int, fs: FileSystem, head: seq<Event>, rest: Run)
    requires Close !in head
    requires EndFacts(env, symbol, day + Dates.DAY, today, fs, rest)
    ensures var r := rest.(events := head + rest.events);
      r.status == Ok(true) ==>
        && |r.events| >= 2 && r.events[|r.events| - 2..] == [Close, Finished(symbol)]
        && Close !in r.events[..|r.events| - 2]
  {
    EventsStep(symbol, head, rest.events);
  }

  /** The part of `EndStep` about how a run that returns false ends. */
  lemma EndFalseStep(env: Env, symbol: string, day: int, today: int, fs: FileSystem, head: seq<Event>, rest: Run)
    requires day < today
    requires Close !in head
    requires EndFacts(env, symbol, day + Dates.DAY, today, fs, rest)
    ensures var r := rest.(events := head + rest.events);
      r.status == Ok(false) ==>
        && |r.events| > 0 && r.events[|r.events| - 1].NotFound?
        && var d := r.events[|r.events| - 1].day;
           d in DayWalk.Trading(DayWalk.Days(day, today), env.isFxtWeekend) && SourceOf(env, symbol, d, fs) == Ok(None)
  {
    TradingStep(env, day, today);
    EventsStep(symbol, head, rest.events);
  }

  /** Events without a close in front of the rest keep its close and its last two and last event. */
  lemma EventsStep(symbol: string, head: seq<Event>, events: seq<Event>)
    requires Close !in head
    ensures Close in head + events <==> Close in events
    ensures |events| >= 2 && events[|events| - 2..] == [Close, Finished(symbol)] && Close !in events[..|events| - 2] ==>
      var e := head + events;
      |e| >= 2 && e[|e| - 2..] == [Close, Finished(symbol)] && Close !in e[..|e| - 2]
    ensures |events| > 0 ==> (head + events)[|head + events| - 1] == events[|events| - 1]
  {
    var e := head + events;
    if |events| >= 2 {
      assert e[|e| - 2..] == events[|events| - 2..];
      assert e[..|e| - 2] == head + events[..|events| - 2];
    }
  }

  lemma MonthStep(day: int, today: int, lastMonth: int, head: seq<Event>, rest: Run)
    requires day < today
    requires MonthInfos(head) == if Dates.Month(day) != lastMonth then [day] else []
    requires MonthInfos(head + rest.events) == MonthInfos(head) + MonthInfos(rest.events)
    requires MonthFacts(day + Dates.DAY, today, Dates.Month(day), rest)
    ensures MonthFacts(day, today, lastMonth, rest.(events := head + rest.events))
  {
    var ds := DayWalk.Days(day, today);
    assert ds[0] == day && ds[1..] == DayWalk.Days(day + Dates.DAY, today);
  }

  /** A trading day without input ends the walk. */
  lemma StopStep(env: Env, symbol: string, day: int, today: int, lastMonth: int, fs: FileSystem,
                 info: seq<Event>, cache: Cache<XtradePaths.Var>)
    requires day < today && !env.isFxtWeekend(day)
    requires SourceOf(env, symbol, day, fs) == Ok(None)
    requires XtradePaths.CacheOk(env.dataDir, env.groups, cache)
    requires info == [] || info == [MonthInfo(day)]
    ensures WalkFacts(env, symbol, day, today, lastMonth, fs, Run(Ok(false), info + [NotFound(symbol, day)], cache))
  {
    var events := info + [NotFound(symbol, day)];
    assert Appended(events) == [] by {
      AppendedAppend(info, [NotFound(symbol, day)]);
      Single(NotFound(symbol, day));
      if info != [] { Single(info[0]); }
    }
    StopEnd(env, symbol, day, today, fs, events, cache);
  }

  /** The walk stopped at `day` ends with that day's missing input. */
  lemma StopEnd(env: Env, symbol: string, day: int, today: int, fs: FileSystem,
                events: seq<Event>, cache: Cache<XtradePaths.Var>)
    requires day < today && !env.isFxtWeekend(day)
    requires SourceOf(env, symbol, day, fs) == Ok(None)
    requires |events| > 0 && events[|events| - 1] == NotFound(symbol, day) && Close !in events
    ensures EndFacts(env, symbol, day, today, fs, Run(Ok(false), events, cache))
  {
    TradingStep(env, day, today);
  }

  /**
   * `createHistory` of a named symbol creates the set first and then behaves
   * as the walk from the symbol's first M1 day to today, with no month seen yet.
   */
  lemma CreateHistoryIsFaithful(env: Env, symbol: string, fs: FileSystem, cache: Cache<XtradePaths.Var>)
    requires symbol != ""
    requires XtradePaths.CacheOk(env.dataDir, env.groups, cache)
    ensures var r := CreateHistory(env, symbol, fs, cache);
      && |r.events| > 0
      && r.events[0] == CreateSet(symbol, env.digits(symbol), HistoryFormat, env.dataDir + HistoryDir)
      && WalkFacts(env, symbol, StartDay(env, symbol), Today(env), -1, fs, r.(events := r.events[1..]))
  {
    var rest := Walk(env, symbol, StartDay(env, symbol), Today(env), -1, fs, cache);
    WalkIsFaithful(env, symbol, StartDay(env, symbol), Today(env), -1, fs, cache);
    var r := CreateHistory(env, symbol, fs, cache);
    assert r.events[1..] == rest.events;
    assert r.(events := r.events[1..]) == rest;
  }
}
