/**
 * `createIndex($index)` of `updateM1Bars`: walk every day from the latest
 * history start of the index's instruments up to (excluding) today; on each
 * trading day locate and read every instrument's M1 file, let the index's
 * calculator build the index bars, and save them. The first missing input,
 * empty result or existing target ends the run with `false`.
 *
 * The environment the script reads at run time is a parameter: the history
 * start table, the clock, the weekend rule, the bar file reader, the
 * calculators' float formula, the configured data directory and the two
 * configuration switches.
 */
module UpdateM1Bars {
  import opened Wrappers
  import opened Bars
  import opened VarCache
  import opened FileStore
  import opened Baskets
  import opened IndexEngine
  import Dates
  import DayWalk
  import MyfxPaths
  import SaveBars
  import DayValidator

  /** `MyFX::readBarFile($file)`: the bars of a file, given its name and contents. */
  type BarReader = (string, seq<Packer.byte>) -> seq<Bar>

  datatype Env = Env(
    index: string,
    dataDir: string,                  // `myfx.data_directory`
    verbose: int,                     // `$verbose`
    saveRaw: bool,                    // `$saveRawMyFXData`
    historyStart: string -> int,      // `Dukascopy::$historyStart_M1`
    now: int,                         // `time()`
    isWeekend: int -> bool,           // `MyFX::isWeekend`
    readBars: BarReader,
    formula: PriceFormula)

  /** What the run prints with `echoPre`, as far as the model follows it. */
  datatype Message =
    | MonthInfo(day: int)                      // "[Info]  M-Y", only when verbose
    | NotFound(symbol: string, day: int)       // "[Error] ... history for ... not found"
    | AlreadyExists(symbol: string, day: int)  // "[Error] ... already exists", from saveBars
    | Finished(symbol: string)                 // "[Ok]    index"

  /** The exceptions and fatal errors that end a run early. */
  datatype Fault =
    | InvalidIndex                        // `!strLen($index)`
    | UndefinedCalculator(name: string)   // `$function($day, $symbols)` without such a function
    | PathFault(failure: MyfxPaths.Failure)
    | SaveFault(error: SaveBars.Error)

  /**
   * The result of `createIndex`: its return value or fault, the messages,
   * the days `saveBars` returned true for, the file system and the cache.
   */
  datatype Run = Run(status: Result<bool, Fault>, messages: seq<Message>, saved: seq<int>,
                     fs: FileSystem, cache: Cache<MyfxPaths.Var>)

  /** `$indizes[$index]`, which is null (iterated as nothing) for an unknown index. */
  function Members(index: string): seq<Member>
  {
    match Basket(index)
    case Some(members) => members
    case None => []
  }

  /** Lines 97-102: the latest history start among the instruments, and never before 1970. */
  function StartTime(members: seq<Member>, historyStart: string -> int): (t: int)
    ensures t >= 0
    ensures forall i :: 0 <= i < |members| ==> historyStart(members[i].symbol) <= t
    ensures t == 0 || exists i :: 0 <= i < |members| && t == historyStart(members[i].symbol)
  {
    if members == [] then 0
    else
      var rest := StartTime(members[1..], historyStart);
      assert forall i :: 1 <= i < |members| ==> members[i] == members[1..][i - 1];
      Max(historyStart(members[0].symbol), rest)
  }

  function SourceKey(symbol: string, day: int, compressed: bool): Key<MyfxPaths.Var>
  {
    Key(MyfxPaths.File(MyfxPaths.Source, compressed), symbol, day)
  }

  /**
   * The input file of one instrument and day: the compressed file when it
   * exists, else the raw one when it exists, else none.
   */
  function SourceOf(dataDir: string, symbol: string, day: int, fs: FileSystem): Result<Option<string>, MyfxPaths.Failure>
  {
    match MyfxPaths.Resolve(dataDir, SourceKey(symbol, day, true))
    case Err(e) => Err(e)
    case Ok(compressed) =>
      if compressed in fs then Ok(Some(compressed))
      else
        match MyfxPaths.Resolve(dataDir, SourceKey(symbol, day, false))
        case Err(e) => Err(e)
        case Ok(raw) => if raw in fs then Ok(Some(raw)) else Ok(None)
  }

  predicate HasSource(dataDir: string, symbol: string, day: int, fs: FileSystem)
  {
    SourceOf(dataDir, symbol, day, fs).Ok? && SourceOf(dataDir, symbol, day, fs).value.Some?
  }

  /** `MyFX::readBarFile` of the input file of one instrument and day. */
  function SourceBars(env: Env, symbol: string, day: int, fs: FileSystem): seq<Bar>
    requires HasSource(env.dataDir, symbol, day, fs)
  {
    var file := SourceOf(env.dataDir, symbol, day, fs).value.value;
    env.readBars(file, fs[file])
  }

  /** Every instrument of the index has an input file for the day. */
  predicate AllInputs(env: Env, day: int, fs: FileSystem)
  {
    forall i :: 0 <= i < |Members(env.index)| ==> HasSource(env.dataDir, Members(env.index)[i].symbol, day, fs)
  }

  /** Lines 118-119, through the cached `getVar`. */
  function Locate(dataDir: string, symbol: string, day: int, fs: FileSystem, cache: Cache<MyfxPaths.Var>)
    : (r: (Result<Option<string>, MyfxPaths.Failure>, Cache<MyfxPaths.Var>))
  {
    var (compressed, c1) := MyfxPaths.GetVar(dataDir, SourceKey(symbol, day, true), cache);
    match compressed
    case Err(e) => (Err(e), c1)
    case Ok(file) =>
      if file in fs then (Ok(Some(file)), c1)
      else
        var (raw, c2) := MyfxPaths.GetVar(dataDir, SourceKey(symbol, day, false), c1);
        match raw
        case Err(e) => (Err(e), c2)
        case Ok(file') => if file' in fs then (Ok(Some(file')), c2) else (Ok(None), c2)
  }

  lemma LocateIsSourceOf(dataDir: string, symbol: string, day: int, fs: FileSystem, cache: Cache<MyfxPaths.Var>)
    requires MyfxPaths.CacheOk(dataDir, cache)
    ensures Locate(dataDir, symbol, day, fs, cache).0 == SourceOf(dataDir, symbol, day, fs)
    ensures MyfxPaths.CacheOk(dataDir, Locate(dataDir, symbol, day, fs, cache).1)
  {
    MyfxPaths.GetVarIsResolve(dataDir, SourceKey(symbol, day, true), cache);
    var (_, c1) := MyfxPaths.GetVar(dataDir, SourceKey(symbol, day, true), cache);
    MyfxPaths.GetVarIsResolve(dataDir, SourceKey(symbol, day, false), c1);
  }

  datatype Reading =
    | Read(bars: map<string, seq<Bar>>, cache: Cache<MyfxPaths.Var>)
    | Missing(symbol: string, cache: Cache<MyfxPaths.Var>)
    | ReadFault(failure: MyfxPaths.Failure, cache: Cache<MyfxPaths.Var>)

  /** Lines 117-126: read the instruments in table order into `$symbols[$symbol]['bars']`. */
  function ReadMembers(env: Env, members: seq<Member>, day: int, fs: FileSystem,
                       cache: Cache<MyfxPaths.Var>, acc: map<string, seq<Bar>>): (r: Reading)
    decreases |members|
  {
    if members == [] then Read(acc, cache)
    else
      var symbol := members[0].symbol;
      var (source, c) := Locate(env.dataDir, symbol, day, fs, cache);
      match source
      case Err(e) => ReadFault(e, c)
      case Ok(None) => Missing(symbol, c)
      case Ok(Some(file)) =>
        ReadMembers(env, members[1..], day, fs, c, acc[symbol := env.readBars(file, fs[file])])
  }

  /**
   * Reading keeps the cache well-formed; it succeeds exactly when every
   * instrument has an input file; otherwise it stops at an instrument whose files are both
   * missing (or whose names cannot be formed).
   */
  lemma ReadMembersFacts(env: Env, members: seq<Member>, day: int, fs: FileSystem,
                         cache: Cache<MyfxPaths.Var>, acc: map<string, seq<Bar>>)
    requires MyfxPaths.CacheOk(env.dataDir, cache)
    ensures var r := ReadMembers(env, members, day, fs, cache, acc);
      && MyfxPaths.CacheOk(env.dataDir, r.cache)
      && (r.Read? <==> forall i :: 0 <= i < |members| ==> HasSource(env.dataDir, members[i].symbol, day, fs))
      && (r.Missing? ==>
            && SourceOf(env.dataDir, r.symbol, day, fs) == Ok(None)
            && (exists i :: 0 <= i < |members| && members[i].symbol == r.symbol))
  {
    ReadKeepsCache(env, members, day, fs, cache, acc);
    ReadSucceedsIff(env, members, day, fs, cache, acc);
    ReadMissing(env, members, day, fs, cache, acc);
  }

  /**
   * One step of the read: when the first instrument has an input the read
   * goes on with the rest from a well-formed cache, otherwise it stops at
   * that instrument.
   */
  lemma ReadStep(env: Env, members: seq<Member>, day: int, fs: FileSystem,
                 cache: Cache<MyfxPaths.Var>, acc: map<string, seq<Bar>>)
    returns (c: Cache<MyfxPaths.Var>, acc': map<string, seq<Bar>>)
    requires MyfxPaths.CacheOk(env.dataDir, cache)
    requires members != []
    ensures MyfxPaths.CacheOk(env.dataDir, c)
    ensures HasSource(env.dataDir, members[0].symbol, day, fs) ==>
      ReadMembers(env, members, day, fs, cache, acc) == ReadMembers(env, members[1..], day, fs, c, acc')
    ensures HasSource(env.dataDir, members[0].symbol, day, fs) ==>
      acc' == acc[members[0].symbol := SourceBars(env, members[0].symbol, day, fs)]
    ensures !HasSource(env.dataDir, members[0].symbol, day, fs) ==>
      var r := ReadMembers(env, members, day, fs, cache, acc);
      && !r.Read?
      && MyfxPaths.CacheOk(env.dataDir, r.cache)
      && (r.Missing? ==> r.symbol == members[0].symbol && SourceOf(env.dataDir, r.symbol, day, fs) == Ok(None))
  {
    LocateIsSourceOf(env.dataDir, members[0].symbol, day, fs, cache);
    var (source, c') := Locate(env.dataDir, members[0].symbol, day, fs, cache);
    c := c';
    acc' := acc;
    if source.Ok? && source.value.Some? {
      var file := source.value.value;
      acc' := acc[members[0].symbol := env.readBars(file, fs[file])];
    }
  }

  lemma {:induction false} ReadKeepsCache(env: Env, members: seq<Member>, day: int, fs: FileSystem,
                                          cache: Cache<MyfxPaths.Var>, acc: map<string, seq<Bar>>)
    requires MyfxPaths.CacheOk(env.dataDir, cache)
    ensures MyfxPaths.CacheOk(env.dataDir, ReadMembers(env, members, day, fs, cache, acc).cache)
    decreases |members|
  {
    if members != [] {
      var c, acc' := ReadStep(env, members, day, fs, cache, acc);
      if HasSource(env.dataDir, members[0].symbol, day, fs) {
        ReadKeepsCache(env, members[1..], day, fs, c, acc');
      }
    }
  }

  /** All instruments have an input exactly when the first and all the others do. */
  lemma AllHaveSourceSplit(dataDir: string, members: seq<Member>, day: int, fs: FileSystem)
    requires members != []
    ensures (forall i :: 0 <= i < |members| ==> HasSource(dataDir, members[i].symbol, day, fs)) <==>
      HasSource(dataDir, members[0].symbol, day, fs) &&
      forall i :: 0 <= i < |members[1..]| ==> HasSource(dataDir, members[1..][i].symbol, day, fs)
  {
    var rest := members[1..];
    if forall i :: 0 <= i < |members| ==> HasSource(dataDir, members[i].symbol, day, fs) {
      forall i | 0 <= i < |rest|
        ensures HasSource(dataDir, rest[i].symbol, day, fs)
      {
        assert rest[i] == members[i + 1];
      }
    }
    if HasSource(dataDir, members[0].symbol, day, fs) && forall i :: 0 <= i < |rest| ==> HasSource(dataDir, rest[i].symbol, day, fs) {
      forall i | 0 <= i < |members|
        ensures HasSource(dataDir, members[i].symbol, day, fs)
      {
        if i > 0 { assert members[i] == rest[i - 1]; }
      }
    }
  }

  lemma {:induction false} ReadSucceedsIff(env: Env, members: seq<Member>, day: int, fs: FileSystem,
                                           cache: Cache<MyfxPaths.Var>, acc: map<string, seq<Bar>>)
    requires MyfxPaths.CacheOk(env.dataDir, cache)
    ensures ReadMembers(env, members, day, fs, cache, acc).Read? <==>
      forall i :: 0 <= i < |members| ==> HasSource(env.dataDir, members[i].symbol, day, fs)
    decreases |members|
  {
    if members != [] {
      var c, acc' := ReadStep(env, members, day, fs, cache, acc);
      if HasSource(env.dataDir, members[0].symbol, day, fs) {
        ReadSucceedsIff(env, members[1..], day, fs, c, acc');
        AllHaveSourceSplit(env.dataDir, members, day, fs);
      }
    }
  }

  lemma {:induction false} ReadMissing(env: Env, members: seq<Member>, day: int, fs: FileSystem,
                                       cache: Cache<MyfxPaths.Var>, acc: map<string, seq<Bar>>)
    requires MyfxPaths.CacheOk(env.dataDir, cache)
    ensures var r := ReadMembers(env, members, day, fs, cache, acc);
      r.Missing? ==>
        && SourceOf(env.dataDir, r.symbol, day, fs) == Ok(None)
        && (exists i :: 0 <= i < |members| && members[i].symbol == r.symbol)
    decreases |members|
  {
    if members != [] {
      var c, acc' := ReadStep(env, members, day, fs, cache, acc);
      var r := ReadMembers(env, members, day, fs, cache, acc);
      if HasSource(env.dataDir, members[0].symbol, day, fs) {
        ReadMissing(env, members[1..], day, fs, c, acc');
        if r.Missing? {
          var i :| 0 <= i < |members[1..]| && members[1..][i].symbol == r.symbol;
          assert members[i + 1].symbol == r.symbol;
        }
      }
    }
  }

  /** Every bar series read so far is the reading of that instrument's input file. */
  predicate BarsFromSources(env: Env, day: int, fs: FileSystem, bars: map<string, seq<Bar>>)
  {
    forall k :: k in bars ==> HasSource(env.dataDir, k, day, fs) && bars[k] == SourceBars(env, k, day, fs)
  }

  lemma {:induction false} ReadBarsFromSources(env: Env, members: seq<Member>, day: int, fs: FileSystem,
                                               cache: Cache<MyfxPaths.Var>, acc: map<string, seq<Bar>>)
    requires MyfxPaths.CacheOk(env.dataDir, cache)
    requires BarsFromSources(env, day, fs, acc)
    ensures var r := ReadMembers(env, members, day, fs, cache, acc);
      r.Read? ==> BarsFromSources(env, day, fs, r.bars)
    decreases |members|
  {
    if members != [] {
      var c, acc' := ReadStep(env, members, day, fs, cache, acc);
      if HasSource(env.dataDir, members[0].symbol, day, fs) {
        ReadBarsFromSources(env, members[1..], day, fs, c, acc');
      }
    }
  }

  /** Instruments read earlier are not forgotten by later reads. */
  lemma {:induction false} ReadKeepsKeys(env: Env, members: seq<Member>, day: int, fs: FileSystem,
                                         cache: Cache<MyfxPaths.Var>, acc: map<string, seq<Bar>>)
    requires ReadMembers(env, members, day, fs, cache, acc).Read?
    ensures acc.Keys <= ReadMembers(env, members, day, fs, cache, acc).bars.Keys
    decreases |members|
  {
    if members != [] {
      var symbol := members[0].symbol;
      var (source, c) := Locate(env.dataDir, symbol, day, fs, cache);
      var file := source.value.value;
      ReadKeepsKeys(env, members[1..], day, fs, c, acc[symbol := env.readBars(file, fs[file])]);
    }
  }

  /** What one trading day does: go on to the next day, or end the run. */
  datatype DayOutcome =
    | Next(fs: FileSystem, cache: Cache<MyfxPaths.Var>)
    | Stop(status: Result<bool, Fault>, messages: seq<Message>, fs: FileSystem, cache: Cache<MyfxPaths.Var>)

  /** Lines 116-133 for one trading day. */
  function ProcessDay(env: Env, day: int, fs: FileSystem, cache: Cache<MyfxPaths.Var>): (r: DayOutcome)
  {
    var members := Members(env.index);
    var reading := ReadMembers(env, members, day, fs, cache, map[]);
    match reading
    case ReadFault(e, c) => Stop(Err(PathFault(e)), [], fs, c)
    case Missing(symbol, c) => Stop(Ok(false), [NotFound(symbol, day)], fs, c)
    case Read(bars, c) =>
      match CalculatorInputs(env.index)
      case None => Stop(Err(UndefinedCalculator("calculate" + env.index)), [], fs, c)
      case Some(inputs) =>
        CalculatorsReadTheirBasket(env.index);
        ReadKeepsKeys(env, members, day, fs, cache, map[]);
        ReadCoversMembers(env, members, day, fs, cache, inputs);
        StoreDay(env, day, Calculate(env.index, inputs, bars, env.formula), fs, c)
  }

  /** Lines 130-133 once the index bars are computed: `if (!$ixBars)`, then `saveBars`. */
  function StoreDay(env: Env, day: int, ixBars: seq<Bar>, fs: FileSystem, cache: Cache<MyfxPaths.Var>): (r: DayOutcome)
  {
    if ixBars == [] then Stop(Ok(false), [], fs, cache)
    else
      var saved := SaveBars.Save(env.index, day, ixBars, env.saveRaw, env.dataDir, fs, cache);
      match saved.status
      case Err(e) => Stop(Err(SaveFault(e)), [], saved.fs, saved.cache)
      case Ok(false) => Stop(Ok(false), [AlreadyExists(env.index, day)], saved.fs, saved.cache)
      case Ok(true) => Next(saved.fs, saved.cache)
  }

  /** A successful read holds the bars of every instrument the calculator uses. */
  lemma ReadCoversMembers(env: Env, members: seq<Member>, day: int, fs: FileSystem,
                          cache: Cache<MyfxPaths.Var>, inputs: seq<string>)
    requires ReadMembers(env, members, day, fs, cache, map[]).Read?
    requires |inputs| > 0 && inputs == Symbols(members)
    ensures HasInputs(ReadMembers(env, members, day, fs, cache, map[]).bars, inputs)
  {
    ReadAllKeys(env, members, day, fs, cache, map[]);
  }

  /** Every instrument read is a key of the result. */
  lemma {:induction false} ReadAllKeys(env: Env, members: seq<Member>, day: int, fs: FileSystem,
                                       cache: Cache<MyfxPaths.Var>, acc: map<string, seq<Bar>>)
    requires ReadMembers(env, members, day, fs, cache, acc).Read?
    ensures forall i :: 0 <= i < |members| ==> members[i].symbol in ReadMembers(env, members, day, fs, cache, acc).bars
    decreases |members|
  {
    if members != [] {
      var symbol := members[0].symbol;
      var (source, c) := Locate(env.dataDir, symbol, day, fs, cache);
      var file := source.value.value;
      var acc' := acc[symbol := env.readBars(file, fs[file])];
      ReadAllKeys(env, members[1..], day, fs, c, acc');
      ReadKeepsKeys(env, members[1..], day, fs, c, acc');
      assert forall i :: 1 <= i < |members| ==> members[i] == members[1..][i - 1];
    }
  }

  /** The target file name of the index for one day. */
  function TargetOf(env: Env, day: int): Result<string, MyfxPaths.Failure>
  {
    MyfxPaths.Resolve(env.dataDir, SaveBars.TargetKey(env.index, day))
  }

  /** The facts about one trading day the walk relies on. */
  predicate DayFacts(env: Env, day: int, fs: FileSystem, r: DayOutcome)
  {
    && MyfxPaths.CacheOk(env.dataDir, r.cache)
    && (r.Stop? ==> r.status != Ok(true) && r.fs == fs && forall m :: m in r.messages ==> m.NotFound? || m.AlreadyExists?)
    && (r.Next? && !env.saveRaw ==> r.fs == fs)
    && (r.Next? && env.saveRaw ==>
          && TargetOf(env, day).Ok? && TargetOf(env, day).value !in fs
          && TargetOf(env, day).value in r.fs
          && r.fs == fs[TargetOf(env, day).value := r.fs[TargetOf(env, day).value]]
          && |r.fs[TargetOf(env, day).value]| == 24 * Dates.MinutesPerDay)
  }

  /**
   * One trading day keeps the cache well-formed; ending the run writes
   * nothing; going on either wrote nothing (raw output off) or created the
   * day's target, which did not exist, with a full day of 1440 records.
   */
  lemma ProcessDayFacts(env: Env, day: int, fs: FileSystem, cache: Cache<MyfxPaths.Var>)
    requires MyfxPaths.CacheOk(env.dataDir, cache)
    ensures DayFacts(env, day, fs, ProcessDay(env, day, fs, cache))
  {
    var members := Members(env.index);
    ReadMembersFacts(env, members, day, fs, cache, map[]);
    var reading := ReadMembers(env, members, day, fs, cache, map[]);
    if reading.Read? && CalculatorInputs(env.index).Some? {
      var inputs := CalculatorInputs(env.index).value;
      CalculatorsReadTheirBasket(env.index);
      ReadCoversMembers(env, members, day, fs, cache, inputs);
      var ixBars := Calculate(env.index, inputs, reading.bars, env.formula);
      StoreDayFacts(env, day, ixBars, fs, reading.cache);
      assert ProcessDay(env, day, fs, cache) == StoreDay(env, day, ixBars, fs, reading.cache);
    }
  }

  lemma StoreDayFacts(env: Env, day: int, ixBars: seq<Bar>, fs: FileSystem, cache: Cache<MyfxPaths.Var>)
    requires MyfxPaths.CacheOk(env.dataDir, cache)
    ensures DayFacts(env, day, fs, StoreDay(env, day, ixBars, fs, cache))
  {
    if ixBars != [] && DayValidator.Validate(ixBars).None? {
      if env.saveRaw {
        SavedDayFacts(env, day, ixBars, fs, cache);
      }
    }
  }

  /** A valid day with raw output on: published into its new target, or the run ends. */
  lemma SavedDayFacts(env: Env, day: int, ixBars: seq<Bar>, fs: FileSystem, cache: Cache<MyfxPaths.Var>)
    requires MyfxPaths.CacheOk(env.dataDir, cache)
    requires env.saveRaw && ixBars != [] && DayValidator.Validate(ixBars).None?
    ensures DayFacts(env, day, fs, StoreDay(env, day, ixBars, fs, cache))
  {
    SaveBars.SavePublishes(env.index, day, ixBars, env.dataDir, fs, cache);
    var saved := SaveBars.Save(env.index, day, ixBars, env.saveRaw, env.dataDir, fs, cache);
    var target := TargetOf(env, day);
    var r := StoreDay(env, day, ixBars, fs, cache);
    if target.Err? {
      assert r == Stop(Err(SaveFault(saved.status.error)), [], fs, saved.cache);
    } else if target.value in fs {
      assert r == Stop(Ok(false), [AlreadyExists(env.index, day)], fs, saved.cache);
    } else {
      assert r == Next(fs[target.value := Packer.Pack(ixBars)], saved.cache);
    }
  }

  /**
   * Every input exists, yet AUDUSD's file holds no bars, so the calculator
   * walks nothing and `$ixBars` is empty.
   */
  predicate EmptyCalculation(env: Env, day: int, fs: FileSystem)
  {
    && CalculatorInputs(env.index).Some?
    && AllInputs(env, day, fs)
    && HasSource(env.dataDir, "AUDUSD", day, fs)
    && SourceBars(env, "AUDUSD", day, fs) == []
  }

  /**
   * The error message a day that returns false ends with: the instrument
   * without an input file, or the index file that already exists.
   */
  predicate ErrorCause(env: Env, day: int, fs: FileSystem, m: Message)
  {
    || (&& m.NotFound? && m.day == day
        && m.symbol in Symbols(Members(env.index))
        && SourceOf(env.dataDir, m.symbol, day, fs) == Ok(None))
    || (&& m == AlreadyExists(env.index, day)
        && env.saveRaw
        && TargetOf(env, day).Ok? && TargetOf(env, day).value in fs)
  }

  /**
   * How a run that returns false ends on `day`: month lines, then either
   * nothing, when the calculation was empty, or one error message with its
   * cause.
   */
  predicate FalseEnd(env: Env, day: int, fs: FileSystem, messages: seq<Message>)
    decreases |messages|
  {
    if messages == [] then EmptyCalculation(env, day, fs)
    else if messages[0].MonthInfo? then FalseEnd(env, day, fs, messages[1..])
    else |messages| == 1 && ErrorCause(env, day, fs, messages[0])
  }

  /** Lines 130-133: `saveBars` returns false only for a target that exists already. */
  lemma StoreDayEnds(env: Env, day: int, ixBars: seq<Bar>, fs: FileSystem, cache: Cache<MyfxPaths.Var>)
    requires MyfxPaths.CacheOk(env.dataDir, cache)
    ensures var r := StoreDay(env, day, ixBars, fs, cache);
      r.Stop? && r.status == Ok(false) ==>
        || (ixBars == [] && r.messages == [])
        || (&& r.messages == [AlreadyExists(env.index, day)]
            && env.saveRaw && TargetOf(env, day).Ok? && TargetOf(env, day).value in fs)
  {
    if ixBars != [] && DayValidator.Validate(ixBars).None? && env.saveRaw {
      SaveBars.SavePublishes(env.index, day, ixBars, env.dataDir, fs, cache);
    }
  }

  /**
   * Lines 117-133: a day that goes on had an input for every instrument; a
   * day on which the run returns false lacked an input, found its target
   * already there, or calculated nothing.
   */
  lemma ProcessDayEnds(env: Env, day: int, fs: FileSystem, cache: Cache<MyfxPaths.Var>)
    requires MyfxPaths.CacheOk(env.dataDir, cache)
    ensures var r := ProcessDay(env, day, fs, cache);
      && MyfxPaths.CacheOk(env.dataDir, r.cache)
      && (r.Next? ==> AllInputs(env, day, fs))
      && (r.Stop? && r.status == Ok(false) ==> FalseEnd(env, day, r.fs, r.messages))
  {
    ProcessDayFacts(env, day, fs, cache);
    var members := Members(env.index);
    ReadMembersFacts(env, members, day, fs, cache, map[]);
    var reading := ReadMembers(env, members, day, fs, cache, map[]);
    if reading.Missing? {
      var i :| 0 <= i < |members| && members[i].symbol == reading.symbol;
      assert Symbols(members)[i] == reading.symbol;
      assert ErrorCause(env, day, fs, NotFound(reading.symbol, day));
    }
    CalculatedDayEnds(env, day, fs, cache);
  }

  /** The days whose inputs were all read: the calculation was empty, or `saveBars` found the target. */
  lemma CalculatedDayEnds(env: Env, day: int, fs: FileSystem, cache: Cache<MyfxPaths.Var>)
    requires MyfxPaths.CacheOk(env.dataDir, cache)
    ensures var reading := ReadMembers(env, Members(env.index), day, fs, cache, map[]);
      var r := ProcessDay(env, day, fs, cache);
      reading.Read? && r.Stop? && r.status == Ok(false) ==> FalseEnd(env, day, fs, r.messages)
  {
    var members := Members(env.index);
    var reading := ReadMembers(env, members, day, fs, cache, map[]);
    if reading.Read? && CalculatorInputs(env.index).Some? {
      ReadMembersFacts(env, members, day, fs, cache, map[]);
      var inputs := CalculatorInputs(env.index).value;
      CalculatorsReadTheirBasket(env.index);
      ReadCoversMembers(env, members, day, fs, cache, inputs);
      ReadBarsFromSources(env, members, day, fs, cache, map[]);
      var ixBars := Calculate(env.index, inputs, reading.bars, env.formula);
      assert ProcessDay(env, day, fs, cache) == StoreDay(env, day, ixBars, fs, reading.cache);
      StoreDayEnds(env, day, ixBars, fs, reading.cache);
      if ixBars == [] {
        assert inputs[0] == "AUDUSD" && "AUDUSD" in reading.bars;
        assert EmptyCalculation(env, day, fs);
      } else if StoreDay(env, day, ixBars, fs, reading.cache).Stop? && StoreDay(env, day, ixBars, fs, reading.cache).status == Ok(false) {
        assert ErrorCause(env, day, fs, AlreadyExists(env.index, day));
      }
    }
  }

  /**
   * Lines 108-135 from `day` on: the month line, the weekend test, the day's
   * work, and the `[Ok]` line once the loop has run to `today`.
   */
  function Walk(env: Env, day: int, today: int, lastMonth: int, fs: FileSystem, cache: Cache<MyfxPaths.Var>): (r: Run)
    decreases today - day
  {
    if day >= today then Run(Ok(true), [Finished(env.index)], [], fs, cache)
    else
      var month := Dates.Month(day);
      var info := if month != lastMonth && env.verbose > 0 then [MonthInfo(day)] else [];
      if env.isWeekend(day) then
        var rest := Walk(env, day + Dates.DAY, today, month, fs, cache);
        rest.(messages := info + rest.messages)
      else
        match ProcessDay(env, day, fs, cache)
        case Stop(status, messages, fs', cache') => Run(status, info + messages, [], fs', cache')
        case Next(fs', cache') =>
          var rest := Walk(env, day + Dates.DAY, today, month, fs', cache');
          rest.(messages := info + rest.messages, saved := [day] + rest.saved)
  }

  /** Midnight (UTC) of the first day with data for every instrument of the index. */
  function StartDay(env: Env): int
  {
    Dates.FloorToDay(StartTime(Members(env.index), env.historyStart))
  }

  /** Midnight (UTC) of the current day. */
  function Today(env: Env): int
  {
    Dates.FloorToDay(env.now)
  }

  /** `createIndex($index)` with the file system and the `getVar` cache it starts from. */
  function CreateIndex(env: Env, fs: FileSystem, cache: Cache<MyfxPaths.Var>): (r: Run)
    ensures env.index == "" ==> r == Run(Err(InvalidIndex), [], [], fs, cache)
  {
    if env.index == "" then Run(Err(InvalidIndex), [], [], fs, cache)
    else Walk(env, StartDay(env), Today(env), -1, fs, cache)
  }

  /** The target of day `day` was created during the run, new and a full day long. */
  predicate Published(env: Env, before: FileSystem, after: FileSystem, day: int)
  {
    && TargetOf(env, day).Ok?
    && TargetOf(env, day).value !in before
    && TargetOf(env, day).value in after
    && |after[TargetOf(env, day).value]| == 24 * Dates.MinutesPerDay
  }

  /** The run only adds files, and with raw output on exactly the targets of the saved days. */
  predicate FilesFacts(env: Env, fs: FileSystem, r: Run)
  {
    && (forall p :: p in fs ==> p in r.fs && r.fs[p] == fs[p])
    && (!env.saveRaw ==> r.fs == fs)
    && (env.saveRaw ==> forall p :: p in r.fs && p !in fs ==>
          exists d :: d in r.saved && TargetOf(env, d) == Ok(p))
    && (env.saveRaw ==> forall i :: 0 <= i < |r.saved| ==> Published(env, fs, r.fs, r.saved[i]))
  }

  /**
   * Whatever the outcome, the walk never changes or removes a file that
   * existed, creates only the targets of the days it saved, each new and a
   * full day long, and keeps the cache well-formed.
   */
  lemma {:induction false} WalkFiles(env: Env, day: int, today: int, lastMonth: int,
                                     fs: FileSystem, cache: Cache<MyfxPaths.Var>)
    requires MyfxPaths.CacheOk(env.dataDir, cache)
    ensures MyfxPaths.CacheOk(env.dataDir, Walk(env, day, today, lastMonth, fs, cache).cache)
    ensures FilesFacts(env, fs, Walk(env, day, today, lastMonth, fs, cache))
    decreases today - day
  {
    if day < today {
      var month := Dates.Month(day);
      if env.isWeekend(day) {
        WalkFiles(env, day + Dates.DAY, today, month, fs, cache);
      } else {
        ProcessDayFacts(env, day, fs, cache);
        match ProcessDay(env, day, fs, cache)
        case Stop(_, _, _, _) =>
        case Next(fs', cache') =>
          WalkFiles(env, day + Dates.DAY, today, month, fs', cache');
          var rest := Walk(env, day + Dates.DAY, today, month, fs', cache');
          if env.saveRaw {
            NewFilesStep(env, day, fs, fs', rest);
            PublishedStep(env, day, fs, fs', rest);
          }
      }
    }
  }

  lemma NewFilesStep(env: Env, day: int, fs: FileSystem, fs': FileSystem, rest: Run)
    requires TargetOf(env, day).Ok?
    requires forall q :: q in fs' && q !in fs ==> q == TargetOf(env, day).value
    requires forall q :: q in rest.fs && q !in fs' ==>
      exists d :: d in rest.saved && TargetOf(env, d) == Ok(q)
    ensures var r := rest.(saved := [day] + rest.saved);
      forall q :: q in r.fs && q !in fs ==> exists d :: d in r.saved && TargetOf(env, d) == Ok(q)
  {
    var r := rest.(saved := [day] + rest.saved);
    forall q | q in r.fs && q !in fs
      ensures exists d :: d in r.saved && TargetOf(env, d) == Ok(q)
    {
      if q == TargetOf(env, day).value {
        assert day in r.saved;
      } else {
        var d :| d in rest.saved && TargetOf(env, d) == Ok(q);
        assert d in r.saved;
      }
    }
  }

  lemma PublishedStep(env: Env, day: int, fs: FileSystem, fs': FileSystem, rest: Run)
    requires Published(env, fs, fs', day)
    requires forall q :: q in fs ==> q in fs'
    requires forall p :: p in fs' ==> p in rest.fs && rest.fs[p] == fs'[p]
    requires forall i :: 0 <= i < |rest.saved| ==> Published(env, fs', rest.fs, rest.saved[i])
    ensures var r := rest.(saved := [day] + rest.saved);
      forall i :: 0 <= i < |r.saved| ==> Published(env, fs, r.fs, r.saved[i])
  {
    var r := rest.(saved := [day] + rest.saved);
    forall i | 0 <= i < |r.saved|
      ensures Published(env, fs, r.fs, r.saved[i])
    {
      if i > 0 {
        var d := rest.saved[i - 1];
        assert r.saved[i] == d;
        assert Published(env, fs', r.fs, d);
        assert TargetOf(env, d).value !in fs;
      }
    }
  }

  /**
   * The saved days are the trading days of the walk in order, cut short
   * where the run ends early, and all of them on a successful run.
   */
  lemma {:induction false} WalkDays(env: Env, day: int, today: int, lastMonth: int,
                                    fs: FileSystem, cache: Cache<MyfxPaths.Var>)
    requires MyfxPaths.CacheOk(env.dataDir, cache)
    ensures var r := Walk(env, day, today, lastMonth, fs, cache);
      var trading := DayWalk.Trading(DayWalk.Days(day, today), env.isWeekend);
      && r.saved <= trading
      && (r.status == Ok(true) ==> r.saved == trading)
    decreases today - day
  {
    if day < today {
      var month := Dates.Month(day);
      var ds := DayWalk.Days(day, today);
      assert ds[0] == day && ds[1..] == DayWalk.Days(day + Dates.DAY, today);
      if env.isWeekend(day) {
        WalkDays(env, day + Dates.DAY, today, month, fs, cache);
      } else {
        ProcessDayFacts(env, day, fs, cache);
        match ProcessDay(env, day, fs, cache)
        case Stop(_, _, _, _) =>
        case Next(fs', cache') =>
          WalkDays(env, day + Dates.DAY, today, month, fs', cache');
      }
    }
  }

  /** The days of the month lines among the messages, in order. */
  function MonthInfos(messages: seq<Message>): (ds: seq<int>)
  {
    if messages == [] then []
    else (if messages[0].MonthInfo? then [messages[0].day] else []) + MonthInfos(messages[1..])
  }

  lemma {:induction false} MonthInfosAppend(a: seq<Message>, b: seq<Message>)
    ensures MonthInfos(a + b) == MonthInfos(a) + MonthInfos(b)
    decreases |a|
  {
    if a == [] {
      assert a + b == b;
    } else {
      var ab := a + b;
      assert ab[0] == a[0] && ab[1..] == a[1..] + b;
      MonthInfosAppend(a[1..], b);
    }
  }

  predicate MessagesFacts(env: Env, day: int, today: int, lastMonth: int, r: Run)
  {
    && (Finished(env.index) in r.messages <==> r.status == Ok(true))
    && (r.status == Ok(true) ==> |r.messages| > 0 && r.messages[|r.messages| - 1] == Finished(env.index))
    && (r.status == Ok(true) ==>
          MonthInfos(r.messages) == if env.verbose > 0 then DayWalk.MonthChanges(DayWalk.Days(day, today), lastMonth) else [])
  }

  /**
   * `[Ok]` is printed exactly when the run succeeds, and then last; a
   * successful verbose run prints a month line for every day whose month
   * differs from the previous day's, a quiet one prints none.
   */
  lemma {:induction false} WalkMessages(env: Env, day: int, today: int, lastMonth: int,
                                        fs: FileSystem, cache: Cache<MyfxPaths.Var>)
    requires MyfxPaths.CacheOk(env.dataDir, cache)
    ensures MessagesFacts(env, day, today, lastMonth, Walk(env, day, today, lastMonth, fs, cache))
    decreases today - day
  {
    var r := Walk(env, day, today, lastMonth, fs, cache);
    if day >= today {
      assert MonthInfos(r.messages) == [] by {
        assert r.messages == [Finished(env.index)];
        assert MonthInfos(r.messages) == [] + MonthInfos([]);
      }
    } else {
      var month := Dates.Month(day);
      var info := if month != lastMonth && env.verbose > 0 then [MonthInfo(day)] else [];
      if env.isWeekend(day) {
        WalkMessages(env, day + Dates.DAY, today, month, fs, cache);
        var rest := Walk(env, day + Dates.DAY, today, month, fs, cache);
        MessagesStep(env, day, today, lastMonth, info, rest);
      } else {
        ProcessDayFacts(env, day, fs, cache);
        match ProcessDay(env, day, fs, cache)
        case Stop(status, messages, _, _) =>
          assert r.messages == info + messages && r.status == status;
        case Next(fs', cache') =>
          WalkMessages(env, day + Dates.DAY, today, month, fs', cache');
          var rest := Walk(env, day + Dates.DAY, today, month, fs', cache');
          MessagesStep(env, day, today, lastMonth, info, rest);
      }
    }
  }

  /** One visited day followed by the rest of the walk. */
  lemma MessagesStep(env: Env, day: int, today: int, lastMonth: int, info: seq<Message>, rest: Run)
    requires day < today
    requires info == if Dates.Month(day) != lastMonth && env.verbose > 0 then [MonthInfo(day)] else []
    requires MessagesFacts(env, day + Dates.DAY, today, Dates.Month(day), rest)
    ensures MessagesFacts(env, day, today, lastMonth, rest.(messages := info + rest.messages))
    ensures MessagesFacts(env, day, today, lastMonth, rest.(messages := info + rest.messages, saved := [day] + rest.saved))
  {
    var ds := DayWalk.Days(day, today);
    assert ds[0] == day && ds[1..] == DayWalk.Days(day + Dates.DAY, today);
    MonthInfosAppend(info, rest.messages);
    assert MonthInfos(info) == if Dates.Month(day) != lastMonth && env.verbose > 0 then [day] else [];
  }

  /** Month lines in front of a false ending keep it a false ending. */
  lemma {:induction false} FalseEndAfterMonthLines(env: Env, day: int, fs: FileSystem,
                                                   info: seq<Message>, messages: seq<Message>)
    requires forall i :: 0 <= i < |info| ==> info[i].MonthInfo?
    requires FalseEnd(env, day, fs, messages)
    ensures FalseEnd(env, day, fs, info + messages)
    decreases |info|
  {
    if info == [] {
      assert info + messages == messages;
    } else {
      assert (info + messages)[0] == info[0];
      assert (info + messages)[1..] == info[1..] + messages;
      FalseEndAfterMonthLines(env, day, fs, info[1..], messages);
    }
  }

  /**
   * A run that returns false has saved a prefix of the trading days and
   * ended on the next one, for one of the reasons `FalseEnd` lists.
   */
  predicate EndedAt(env: Env, trading: seq<int>, r: Run)
  {
    && r.saved <= trading
    && |r.saved| < |trading|
    && FalseEnd(env, trading[|r.saved|], r.fs, r.messages)
  }

  /** `EndedAt`, stated day by day: the saved days follow the trading days until the run ends. */
  predicate EndedOn(env: Env, trading: seq<int>, r: Run)
    decreases |trading|
  {
    && |trading| > 0
    && if r.saved == [] then FalseEnd(env, trading[0], r.fs, r.messages)
       else r.saved[0] == trading[0] && EndedOn(env, trading[1..], r.(saved := r.saved[1..]))
  }

  lemma {:induction false} EndedOnIsEndedAt(env: Env, trading: seq<int>, r: Run)
    requires EndedOn(env, trading, r)
    ensures EndedAt(env, trading, r)
    decreases |trading|
  {
    if r.saved != [] {
      var r' := r.(saved := r.saved[1..]);
      EndedOnIsEndedAt(env, trading[1..], r');
      PrefixStep(trading, r.saved);
    }
  }

  /** A saved day in front of a saved prefix keeps it a prefix, and the next day in place. */
  lemma PrefixStep(trading: seq<int>, saved: seq<int>)
    requires |trading| > 0 && |saved| > 0 && saved[0] == trading[0]
    requires saved[1..] <= trading[1..] && |saved[1..]| < |trading[1..]|
    ensures saved <= trading && |saved| < |trading|
    ensures trading[|saved|] == trading[1..][|saved| - 1]
  {
    assert saved == [trading[0]] + saved[1..];
    assert trading == [trading[0]] + trading[1..];
  }

  /** Month lines in front of the messages do not change where and why a run ended. */
  lemma {:induction false} EndedOnAfterMonthLines(env: Env, trading: seq<int>, info: seq<Message>, r: Run)
    requires forall i :: 0 <= i < |info| ==> info[i].MonthInfo?
    requires EndedOn(env, trading, r)
    ensures EndedOn(env, trading, r.(messages := info + r.messages))
    decreases |trading|
  {
    var r2 := r.(messages := info + r.messages);
    if r.saved == [] {
      FalseEndAfterMonthLines(env, trading[0], r.fs, info, r.messages);
    } else {
      EndedOnAfterMonthLines(env, trading[1..], info, r.(saved := r.saved[1..]));
      assert r2.(saved := r2.saved[1..]) == r.(saved := r.saved[1..]).(messages := info + r.messages);
    }
  }

  lemma {:induction false} WalkEnds(env: Env, day: int, today: int, lastMonth: int,
                                    fs: FileSystem, cache: Cache<MyfxPaths.Var>)
    requires MyfxPaths.CacheOk(env.dataDir, cache)
    ensures WalkEndsOn(env, day, today, lastMonth, fs, cache)
    decreases today - day
  {
    if day < today {
      var month := Dates.Month(day);
      if env.isWeekend(day) {
        WalkEnds(env, day + Dates.DAY, today, month, fs, cache);
        WeekendEnds(env, day, today, lastMonth, fs, cache);
      } else {
        ProcessDayEnds(env, day, fs, cache);
        var outcome := ProcessDay(env, day, fs, cache);
        if outcome.Next? {
          WalkEnds(env, day + Dates.DAY, today, month, outcome.fs, outcome.cache);
        }
        TradingDayEnds(env, day, today, lastMonth, fs, cache);
      }
    }
  }

  /** The walk from `day`, if it returns false, ended as `EndedOn` says. */
  predicate WalkEndsOn(env: Env, day: int, today: int, lastMonth: int, fs: FileSystem, cache: Cache<MyfxPaths.Var>)
  {
    Walk(env, day, today, lastMonth, fs, cache).status == Ok(false) ==>
      EndedOn(env, DayWalk.Trading(DayWalk.Days(day, today), env.isWeekend), Walk(env, day, today, lastMonth, fs, cache))
  }

  /** The step of `WalkEnds` over a weekend day. */
  lemma WeekendEnds(env: Env, day: int, today: int, lastMonth: int, fs: FileSystem, cache: Cache<MyfxPaths.Var>)
    requires day < today && env.isWeekend(day)
    requires WalkEndsOn(env, day + Dates.DAY, today, Dates.Month(day), fs, cache)
    ensures WalkEndsOn(env, day, today, lastMonth, fs, cache)
  {
    var month := Dates.Month(day);
    var info := if month != lastMonth && env.verbose > 0 then [MonthInfo(day)] else [];
    var ds := DayWalk.Days(day, today);
    assert ds[0] == day && ds[1..] == DayWalk.Days(day + Dates.DAY, today);
    EndsAfterWeekend(env, DayWalk.Trading(ds[1..], env.isWeekend), info, Walk(env, day + Dates.DAY, today, month, fs, cache));
  }

  /** The step of `WalkEnds` over a trading day. */
  lemma TradingDayEnds(env: Env, day: int, today: int, lastMonth: int, fs: FileSystem, cache: Cache<MyfxPaths.Var>)
    requires MyfxPaths.CacheOk(env.dataDir, cache)
    requires day < today && !env.isWeekend(day)
    requires ProcessDay(env, day, fs, cache).Next? ==>
      WalkEndsOn(env, day + Dates.DAY, today, Dates.Month(day), ProcessDay(env, day, fs, cache).fs, ProcessDay(env, day, fs, cache).cache)
    ensures WalkEndsOn(env, day, today, lastMonth, fs, cache)
  {
    if ProcessDay(env, day, fs, cache).Stop? {
      StopDayEnds(env, day, today, lastMonth, fs, cache);
    } else {
      SavedDayEnds(env, day, today, lastMonth, fs, cache);
    }
  }

  /** A trading day the run stops on is where it ends. */
  lemma StopDayEnds(env: Env, day: int, today: int, lastMonth: int, fs: FileSystem, cache: Cache<MyfxPaths.Var>)
    requires MyfxPaths.CacheOk(env.dataDir, cache)
    requires day < today && !env.isWeekend(day)
    requires ProcessDay(env, day, fs, cache).Stop?
    ensures WalkEndsOn(env, day, today, lastMonth, fs, cache)
  {
    var info := if Dates.Month(day) != lastMonth && env.verbose > 0 then [MonthInfo(day)] else [];
    var ds := DayWalk.Days(day, today);
    assert ds[0] == day && ds[1..] == DayWalk.Days(day + Dates.DAY, today);
    var trading' := DayWalk.Trading(ds[1..], env.isWeekend);
    assert DayWalk.Trading(ds, env.isWeekend) == [day] + trading';
    ProcessDayEnds(env, day, fs, cache);
    var o := ProcessDay(env, day, fs, cache);
    EndsOnDay(env, day, trading', info, o.status, o.messages, o.fs, o.cache);
  }

  /** A trading day the run saves is followed by where the rest of the walk ends. */
  lemma SavedDayEnds(env: Env, day: int, today: int, lastMonth: int, fs: FileSystem, cache: Cache<MyfxPaths.Var>)
    requires day < today && !env.isWeekend(day)
    requires ProcessDay(env, day, fs, cache).Next?
    requires WalkEndsOn(env, day + Dates.DAY, today, Dates.Month(day), ProcessDay(env, day, fs, cache).fs, ProcessDay(env, day, fs, cache).cache)
    ensures WalkEndsOn(env, day, today, lastMonth, fs, cache)
  {
    var month := Dates.Month(day);
    var info := if month != lastMonth && env.verbose > 0 then [MonthInfo(day)] else [];
    var ds := DayWalk.Days(day, today);
    assert ds[0] == day && ds[1..] == DayWalk.Days(day + Dates.DAY, today);
    var trading' := DayWalk.Trading(ds[1..], env.isWeekend);
    assert DayWalk.Trading(ds, env.isWeekend) == [day] + trading';
    var o := ProcessDay(env, day, fs, cache);
    WalkOnSavedDay(env, day, today, lastMonth, fs, cache);
    EndsAfterSavedDay(env, day, trading', info, Walk(env, day + Dates.DAY, today, month, o.fs, o.cache));
  }

  /** One step of `Walk` over a trading day whose index bars were saved. */
  lemma WalkOnSavedDay(env: Env, day: int, today: int, lastMonth: int, fs: FileSystem, cache: Cache<MyfxPaths.Var>)
    requires day < today && !env.isWeekend(day)
    requires ProcessDay(env, day, fs, cache).Next?
    ensures var info := if Dates.Month(day) != lastMonth && env.verbose > 0 then [MonthInfo(day)] else [];
      var o := ProcessDay(env, day, fs, cache);
      var rest := Walk(env, day + Dates.DAY, today, Dates.Month(day), o.fs, o.cache);
      Walk(env, day, today, lastMonth, fs, cache) == rest.(messages := info + rest.messages, saved := [day] + rest.saved)
  {
  }

  /** A weekend day adds at most a month line in front of how the run ends. */
  lemma EndsAfterWeekend(env: Env, trading: seq<int>, info: seq<Message>, rest: Run)
    requires forall i :: 0 <= i < |info| ==> info[i].MonthInfo?
    requires rest.status == Ok(false) ==> EndedOn(env, trading, rest)
    ensures rest.status == Ok(false) ==> EndedOn(env, trading, rest.(messages := info + rest.messages))
  {
    if rest.status == Ok(false) {
      EndedOnAfterMonthLines(env, trading, info, rest);
    }
  }

  /** A saved day is the next trading day, and the run ends one trading day further on. */
  lemma EndsAfterSavedDay(env: Env, day: int, trading: seq<int>, info: seq<Message>, rest: Run)
    requires forall i :: 0 <= i < |info| ==> info[i].MonthInfo?
    requires rest.status == Ok(false) ==> EndedOn(env, trading, rest)
    ensures rest.status == Ok(false) ==>
      EndedOn(env, [day] + trading, rest.(messages := info + rest.messages, saved := [day] + rest.saved))
  {
    if rest.status == Ok(false) {
      EndedOnAfterMonthLines(env, trading, info, rest);
      var r := rest.(messages := info + rest.messages, saved := [day] + rest.saved);
      assert ([day] + trading)[1..] == trading;
      assert r.(saved := r.saved[1..]) == rest.(messages := info + rest.messages);
    }
  }

  /** The run ends on the trading day it is processing, having saved nothing from there. */
  lemma EndsOnDay(env: Env, day: int, trading: seq<int>, info: seq<Message>, status: Result<bool, Fault>,
                  messages: seq<Message>, fs: FileSystem, cache: Cache<MyfxPaths.Var>)
    requires forall i :: 0 <= i < |info| ==> info[i].MonthInfo?
    requires status == Ok(false) ==> FalseEnd(env, day, fs, messages)
    ensures status == Ok(false) ==> EndedOn(env, [day] + trading, Run(status, info + messages, [], fs, cache))
  {
    if status == Ok(false) {
      FalseEndAfterMonthLines(env, day, fs, info, messages);
    }
  }

  /**
   * A run of `createIndex` that returns false saved the trading days before
   * some trading day in [start, today) and stopped there, because an
   * instrument had no input file, the index file already existed, or the
   * calculation was empty.
   */
  lemma CreateIndexFalseEnds(env: Env, fs: FileSystem, cache: Cache<MyfxPaths.Var>)
    requires MyfxPaths.CacheOk(env.dataDir, cache)
    ensures CreateIndex(env, fs, cache).status == Ok(false) ==>
      EndedAt(env, DayWalk.Trading(DayWalk.Days(StartDay(env), Today(env)), env.isWeekend), CreateIndex(env, fs, cache))
  {
    if env.index != "" {
      WalkEnds(env, StartDay(env), Today(env), -1, fs, cache);
      if CreateIndex(env, fs, cache).status == Ok(false) {
        EndedOnIsEndedAt(env, DayWalk.Trading(DayWalk.Days(StartDay(env), Today(env)), env.isWeekend), CreateIndex(env, fs, cache));
      }
    }
  }

  /** Creating a day's target does not change which input file any instrument and day has. */
  lemma SourceOfIgnoresTarget(env: Env, symbol: string, d: int, day: int, fs: FileSystem, data: seq<Packer.byte>)
    requires TargetOf(env, day).Ok?
    ensures SourceOf(env.dataDir, symbol, d, fs[TargetOf(env, day).value := data]) == SourceOf(env.dataDir, symbol, d, fs)
  {
    MyfxPaths.SourceIsNeverTarget(env.dataDir, SourceKey(symbol, d, true), SaveBars.TargetKey(env.index, day));
    MyfxPaths.SourceIsNeverTarget(env.dataDir, SourceKey(symbol, d, false), SaveBars.TargetKey(env.index, day));
  }

  /** A successful walk found an input for every instrument on every trading day. */
  lemma {:induction false} WalkNeedsInputs(env: Env, day: int, today: int, lastMonth: int,
                                           fs: FileSystem, cache: Cache<MyfxPaths.Var>)
    requires MyfxPaths.CacheOk(env.dataDir, cache)
    ensures Walk(env, day, today, lastMonth, fs, cache).status == Ok(true) ==>
      forall d :: d in DayWalk.Trading(DayWalk.Days(day, today), env.isWeekend) ==> AllInputs(env, d, fs)
    decreases today - day
  {
    if day < today {
      var month := Dates.Month(day);
      var ds := DayWalk.Days(day, today);
      assert ds[0] == day && ds[1..] == DayWalk.Days(day + Dates.DAY, today);
      var trading' := DayWalk.Trading(ds[1..], env.isWeekend);
      if env.isWeekend(day) {
        WalkNeedsInputs(env, day + Dates.DAY, today, month, fs, cache);
      } else {
        assert DayWalk.Trading(ds, env.isWeekend) == [day] + trading';
        ProcessDayFacts(env, day, fs, cache);
        ProcessDayEnds(env, day, fs, cache);
        match ProcessDay(env, day, fs, cache)
        case Stop(_, _, _, _) =>
        case Next(fs', cache') =>
          WalkNeedsInputs(env, day + Dates.DAY, today, month, fs', cache');
          InputsBeforeSave(env, day, fs, fs', trading');
      }
    }
  }

  /** Inputs found after a day's target was created were there before it. */
  lemma InputsBeforeSave(env: Env, day: int, fs: FileSystem, fs': FileSystem, days: seq<int>)
    requires || fs' == fs
             || (&& TargetOf(env, day).Ok? && TargetOf(env, day).value in fs'
                 && fs' == fs[TargetOf(env, day).value := fs'[TargetOf(env, day).value]])
    ensures (forall d :: d in days ==> AllInputs(env, d, fs')) ==> forall d :: d in days ==> AllInputs(env, d, fs)
  {
    if fs' != fs && forall d :: d in days ==> AllInputs(env, d, fs') {
      var t := TargetOf(env, day).value;
      forall d, i | d in days && 0 <= i < |Members(env.index)|
        ensures HasSource(env.dataDir, Members(env.index)[i].symbol, d, fs)
      {
        SourceOfIgnoresTarget(env, Members(env.index)[i].symbol, d, day, fs, fs'[t]);
        assert AllInputs(env, d, fs');
      }
    }
  }

  /** Every trading day of [start, today) had an input file for every instrument. */
  predicate InputsThroughout(env: Env, fs: FileSystem, start: int, today: int)
  {
    forall d :: start <= d < today && (d - start) % Dates.DAY == 0 && !env.isWeekend(d) ==> AllInputs(env, d, fs)
  }

  /**
   * `createIndex` returns true only if every instrument had an input file on
   * every trading day: one missing file on one trading day prevents success.
   */
  lemma CreateIndexNeedsEveryInput(env: Env, fs: FileSystem, cache: Cache<MyfxPaths.Var>)
    requires MyfxPaths.CacheOk(env.dataDir, cache)
    ensures CreateIndex(env, fs, cache).status == Ok(true) ==> InputsThroughout(env, fs, StartDay(env), Today(env))
  {
    if env.index != "" {
      WalkInputsThroughout(env, StartDay(env), Today(env), fs, cache);
    }
  }

  /** The walk from `start` to `today` of a successful run found every input of every trading day. */
  lemma WalkInputsThroughout(env: Env, start: int, today: int, fs: FileSystem, cache: Cache<MyfxPaths.Var>)
    requires MyfxPaths.CacheOk(env.dataDir, cache)
    ensures Walk(env, start, today, -1, fs, cache).status == Ok(true) ==> InputsThroughout(env, fs, start, today)
  {
    WalkNeedsInputs(env, start, today, -1, fs, cache);
    if Walk(env, start, today, -1, fs, cache).status == Ok(true) {
      forall d | start <= d < today && (d - start) % Dates.DAY == 0 && !env.isWeekend(d)
        ensures AllInputs(env, d, fs)
      {
        DayWalk.InDays(start, today, d);
      }
    }
  }

  /**
   * Every trading day of [start, today) was published into a new file of a
   * full day, no file that existed before changed, and every new file is the
   * target of such a day.
   */
  predicate PublishedRange(env: Env, before: FileSystem, after: FileSystem, start: int, today: int)
  {
    && (forall d :: start <= d < today && (d - start) % Dates.DAY == 0 && !env.isWeekend(d) ==>
          Published(env, before, after, d))
    && (forall p :: p in before ==> p in after && after[p] == before[p])
    && (forall p :: p in after && p !in before ==>
          exists d :: start <= d < today && !env.isWeekend(d) && TargetOf(env, d) == Ok(p))
  }

  /**
   * A successful run with raw output on has published every trading day from
   * the start day up to yesterday, each into a new file of 1440 records, and
   * touched nothing else.
   */
  lemma CreateIndexPublishesEveryTradingDay(env: Env, fs: FileSystem, cache: Cache<MyfxPaths.Var>)
    requires MyfxPaths.CacheOk(env.dataDir, cache)
    requires env.saveRaw
    ensures var r := CreateIndex(env, fs, cache);
      r.status == Ok(true) ==> PublishedRange(env, fs, r.fs, StartDay(env), Today(env))
  {
    if env.index != "" {
      WalkPublishes(env, StartDay(env), Today(env), fs, cache);
    }
  }

  /** The walk from `start` to `today` of a successful run publishes every trading day between them. */
  lemma WalkPublishes(env: Env, start: int, today: int, fs: FileSystem, cache: Cache<MyfxPaths.Var>)
    requires MyfxPaths.CacheOk(env.dataDir, cache)
    requires env.saveRaw
    ensures var r := Walk(env, start, today, -1, fs, cache);
      r.status == Ok(true) ==> PublishedRange(env, fs, r.fs, start, today)
  {
    var r := Walk(env, start, today, -1, fs, cache);
    WalkFiles(env, start, today, -1, fs, cache);
    WalkDays(env, start, today, -1, fs, cache);
    if r.status == Ok(true) {
      SavedDaysPublished(env, start, today, fs, r);
      NewFilesAreTargets(env, start, today, fs, r);
    }
  }

  /** Every trading day of [start, today) is saved, and therefore published. */
  lemma SavedDaysPublished(env: Env, start: int, today: int, fs: FileSystem, r: Run)
    requires env.saveRaw && FilesFacts(env, fs, r)
    requires r.saved == DayWalk.Trading(DayWalk.Days(start, today), env.isWeekend)
    ensures forall d :: start <= d < today && (d - start) % Dates.DAY == 0 && !env.isWeekend(d) ==>
      Published(env, fs, r.fs, d)
  {
    forall d | start <= d < today && (d - start) % Dates.DAY == 0 && !env.isWeekend(d)
      ensures Published(env, fs, r.fs, d)
    {
      DayWalk.InDays(start, today, d);
      var i :| 0 <= i < |r.saved| && r.saved[i] == d;
    }
  }

  /** Every file the run created is the target of a trading day of [start, today). */
  lemma NewFilesAreTargets(env: Env, start: int, today: int, fs: FileSystem, r: Run)
    requires env.saveRaw && FilesFacts(env, fs, r)
    requires r.saved == DayWalk.Trading(DayWalk.Days(start, today), env.isWeekend)
    ensures forall p :: p in r.fs && p !in fs ==>
      exists d :: start <= d < today && !env.isWeekend(d) && TargetOf(env, d) == Ok(p)
  {
    var trading := DayWalk.Trading(DayWalk.Days(start, today), env.isWeekend);
    forall p | p in r.fs && p !in fs
      ensures exists d :: start <= d < today && !env.isWeekend(d) && TargetOf(env, d) == Ok(p)
    {
      var d :| d in r.saved && TargetOf(env, d) == Ok(p);
      assert d in trading;
      DayWalk.InDays(start, today, d);
    }
  }
}
