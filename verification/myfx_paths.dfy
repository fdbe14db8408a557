/**
 * `getVar` of `updateM1Bars`: the directory and file names of the MyFX M1
 * history, derived from an identifier, a symbol and a day, and memoised in the
 * FIFO cache of module VarCache.
 *
 * `Resolve` states the names directly; `GetVar` follows the script: a cache
 * hit is returned before any check, a file name asks for its directory and a
 * directory for its date part through nested `getVar` calls (each storing its
 * own result first), and only a successful evaluation is stored.
 */
module MyfxPaths {
  import opened Wrappers
  import opened VarCache
  import Php
  import Dates

  /** The exceptions `getVar` throws for its string and int arguments. */
  datatype Failure =
    | InvalidTime(time: int)          // `!$time`: 0, or no time at all
    | InvalidSymbol(symbol: string)   // `!$symbol`: "", "0", or no symbol at all
    | UnknownId(id: string)

  /** The Dukascopy input tree or the MyFX output tree below the data directory. */
  datatype Tree = Source | Target

  /** The variable identifiers the script knows, and any other name. */
  datatype Var =
    | DirDate                              // "myfxDirDate"
    | Dir(tree: Tree)                      // "myfxSourceDir", "myfxTargetDir"
    | File(tree: Tree, compressed: bool)   // "myfxSource.raw", ..., "myfxTarget.compressed"
    | Unknown(name: string)

  function TreeName(t: Tree): string
  {
    match t
    case Source => "dukascopy"
    case Target => "myfx"
  }

  function FileName(compressed: bool): string
  {
    if compressed then "/M1.rar" else "/M1.bin"
  }

  /** The identifier string of each variable. */
  function VarName(v: Var): string
  {
    match v
    case DirDate => "myfxDirDate"
    case Dir(Source) => "myfxSourceDir"
    case Dir(Target) => "myfxTargetDir"
    case File(Source, false) => "myfxSource.raw"
    case File(Source, true) => "myfxSource.compressed"
    case File(Target, false) => "myfxTarget.raw"
    case File(Target, true) => "myfxTarget.compressed"
    case Unknown(name) => name
  }

  /** The `if ($id == ...)` chain of `getVar`. */
  function ParseVar(id: string): (v: Var)
    ensures VarName(v) == id
    ensures v.Unknown? <==> forall w: Var :: !w.Unknown? ==> VarName(w) != id
  {
    match id
    case "myfxDirDate" => DirDate
    case "myfxSourceDir" => Dir(Source)
    case "myfxTargetDir" => Dir(Target)
    case "myfxSource.raw" => File(Source, false)
    case "myfxSource.compressed" => File(Source, true)
    case "myfxTarget.raw" => File(Target, false)
    case "myfxTarget.compressed" => File(Target, true)
    case _ => Unknown(id)
  }

  /** Every known identifier string selects its own variable. */
  lemma ParseVarName(v: Var)
    requires !v.Unknown?
    ensures ParseVar(VarName(v)) == v
  {
  }

  /** How deep an identifier nests: date 0, directory 1, file 2. */
  function Rank(v: Var): nat
  {
    match v
    case Dir(_) => 1
    case File(_, _) => 2
    case _ => 0
  }

  /** `$dataDirectory/history/dukascopy` or `$dataDirectory/history/myfx`. */
  function TreeRoot(dataDir: string, tree: Tree): string
  {
    dataDir + "/history/" + TreeName(tree)
  }

  /** The directory of one symbol and day in one tree, checked as the script checks it. */
  function DayDir(dataDir: string, tree: Tree, symbol: string, time: int): (r: Result<string, Failure>)
    ensures r.Err? <==> Php.Falsy(symbol) || time == 0
    ensures Php.Falsy(symbol) ==> r == Err(InvalidSymbol(symbol))
    ensures r.Ok? ==> r.value == TreeRoot(dataDir, tree) + "/" + symbol + "/" + Dates.DirDate(time)
  {
    if Php.Falsy(symbol) then Err(InvalidSymbol(symbol))
    else if time == 0 then Err(InvalidTime(time))
    else Ok(TreeRoot(dataDir, tree) + "/" + symbol + "/" + Dates.DirDate(time))
  }

  /**
   * The uncached meaning of every identifier: the symbol is checked before
   * the time, and an unknown identifier is an error whatever the arguments.
   */
  function Resolve(dataDir: string, k: Key<Var>): Result<string, Failure>
  {
    match k.id
    case DirDate => if k.time == 0 then Err(InvalidTime(k.time)) else Ok(Dates.DirDate(k.time))
    case Dir(tree) => DayDir(dataDir, tree, k.symbol, k.time)
    case File(tree, compressed) =>
      (match DayDir(dataDir, tree, k.symbol, k.time)
       case Ok(dir) => Ok(dir + FileName(compressed))
       case Err(e) => Err(e))
    case Unknown(name) => Err(UnknownId(name))
  }

  /**
   * The file names spelled out: `<dataDir>/history/dukascopy/<symbol>/<Y/m/d>/M1.bin`
   * and `.../M1.rar` for input, the same below `history/myfx` for output; a
   * missing symbol is reported before a missing time, and an unknown
   * identifier fails whatever its arguments.
   */
  lemma FileNames(dataDir: string, tree: Tree, compressed: bool, symbol: string, time: int, name: string)
    ensures var r := Resolve(dataDir, Key(File(tree, compressed), symbol, time));
      && (Php.Falsy(symbol) ==> r == Err(InvalidSymbol(symbol)))
      && (!Php.Falsy(symbol) && time == 0 ==> r == Err(InvalidTime(0)))
      && (!Php.Falsy(symbol) && time != 0 ==>
            r == Ok(dataDir + "/history/" + (if tree == Source then "dukascopy" else "myfx") + "/" + symbol
                    + "/" + Dates.DirDate(time) + (if compressed then "/M1.rar" else "/M1.bin")))
    ensures Resolve(dataDir, Key(Unknown(name), symbol, time)) == Err(UnknownId(name))
  {
    var root := dataDir + "/history/" + (if tree == Source then "dukascopy" else "myfx");
    assert TreeRoot(dataDir, tree) == root;
    if !Php.Falsy(symbol) && time != 0 {
      var dir := root + "/" + symbol + "/" + Dates.DirDate(time);
      assert DayDir(dataDir, tree, symbol, time) == Ok(dir);
    }
  }

  /** Every cached value is the one its key resolves to. */
  predicate CacheSound(dataDir: string, c: Cache<Var>)
  {
    forall i :: 0 <= i < |c| ==> Resolve(dataDir, c[i].0) == Ok(c[i].1)
  }

  /** The well-formedness `getVar` keeps: unique keys, at most 128 of them, all sound. */
  predicate CacheOk(dataDir: string, c: Cache<Var>)
  {
    UniqueKeys(c) && |c| <= MaxSize && CacheSound(dataDir, c)
  }

  /**
   * One call of `getVar($id, $symbol, $time)` against cache `c`: the value or
   * exception, and the cache afterwards. The configured data directory is the
   * parameter `dataDir`. A hit is returned before any argument check; a miss
   * is evaluated and, only when that succeeds, stored.
   */
  function GetVar(dataDir: string, k: Key<Var>, c: Cache<Var>): (r: (Result<string, Failure>, Cache<Var>))
    decreases Rank(k.id), 1
  {
    match Lookup(c, k)
    case Some(v) => (Ok(v), c)
    case None =>
      var (res, c') := Evaluate(dataDir, k, c);
      match res
      case Ok(v) => (res, Store(c', k, v))
      case Err(_) => (res, c')
  }

  /**
   * The `if ($id == ...)` chain on a miss: a directory asks `getVar` for its
   * date part and a file for its directory, threading the cache through.
   */
  function Evaluate(dataDir: string, k: Key<Var>, c: Cache<Var>): (r: (Result<string, Failure>, Cache<Var>))
    decreases Rank(k.id), 0
  {
    match k.id
    case DirDate =>
      if k.time == 0 then (Err(InvalidTime(k.time)), c) else (Ok(Dates.DirDate(k.time)), c)
    case Dir(tree) =>
      if Php.Falsy(k.symbol) then (Err(InvalidSymbol(k.symbol)), c)
      else
        var (date, c') := GetVar(dataDir, Key(DirDate, "", k.time), c);
        (match date
         case Ok(d) => Ok(TreeRoot(dataDir, tree) + "/" + k.symbol + "/" + d)
         case Err(e) => Err(e), c')
    case File(tree, compressed) =>
      var (dir, c') := GetVar(dataDir, Key(Dir(tree), k.symbol, k.time), c);
      (match dir
       case Ok(d) => Ok(d + FileName(compressed))
       case Err(e) => Err(e), c')
    case Unknown(name) => (Err(UnknownId(name)), c)
  }

  /**
   * A hit is answered before any argument is checked: whatever the key (no
   * symbol, no time, an unknown identifier), a cached value is returned as
   * stored and the cache is left as it was.
   */
  lemma HitSkipsChecks(dataDir: string, k: Key<Var>, v: string, c: Cache<Var>)
    requires UniqueKeys(c) && (k, v) in c
    ensures GetVar(dataDir, k, c) == (Ok(v), c)
  {
    var i :| 0 <= i < |c| && c[i] == (k, v);
  }

  /**
   * The cache is transparent: from any well-formed cache `getVar` returns
   * exactly the uncached value, keeps the cache well-formed, leaves it
   * untouched on an error, and afterwards holds the answer when it succeeded.
   */
  lemma {:induction false} GetVarIsResolve(dataDir: string, k: Key<Var>, c: Cache<Var>)
    requires CacheOk(dataDir, c)
    ensures GetVar(dataDir, k, c).0 == Resolve(dataDir, k)
    ensures CacheOk(dataDir, GetVar(dataDir, k, c).1)
    ensures GetVar(dataDir, k, c).0.Err? ==> GetVar(dataDir, k, c).1 == c
    ensures GetVar(dataDir, k, c).0.Ok? ==> Lookup(GetVar(dataDir, k, c).1, k) == Some(GetVar(dataDir, k, c).0.value)
    decreases Rank(k.id), 1
  {
    match Lookup(c, k)
    case Some(v) =>
      var i :| 0 <= i < |c| && c[i] == (k, v);
    case None =>
      EvaluateIsResolve(dataDir, k, c);
      var (res, c') := Evaluate(dataDir, k, c);
      if res.Ok? {
        StoreSound(dataDir, c', k, res.value);
      }
  }

  /**
   * A falsy time fails for every identifier (each one reaches the date
   * branch with the same time) and leaves the cache as it was, so neither
   * `"$id|$symbol|"` nor `"$id|$symbol|0"` is ever stored.
   */
  lemma ZeroTimeNeverCached(dataDir: string, k: Key<Var>, c: Cache<Var>)
    requires CacheOk(dataDir, c) && k.time == 0
    ensures GetVar(dataDir, k, c).0.Err?
    ensures GetVar(dataDir, k, c).1 == c
  {
    GetVarIsResolve(dataDir, k, c);
  }

  lemma {:induction false} EvaluateIsResolve(dataDir: string, k: Key<Var>, c: Cache<Var>)
    requires CacheOk(dataDir, c)
    ensures Evaluate(dataDir, k, c).0 == Resolve(dataDir, k)
    ensures CacheOk(dataDir, Evaluate(dataDir, k, c).1)
    ensures Evaluate(dataDir, k, c).0.Err? ==> Evaluate(dataDir, k, c).1 == c
    decreases Rank(k.id), 0
  {
    match k.id
    case Dir(_) =>
      if !Php.Falsy(k.symbol) {
        GetVarIsResolve(dataDir, Key(DirDate, "", k.time), c);
      }
    case File(tree, _) =>
      GetVarIsResolve(dataDir, Key(Dir(tree), k.symbol, k.time), c);
    case _ =>
  }

  /** Storing a correct value keeps a well-formed cache well-formed. */
  lemma StoreSound(dataDir: string, c: Cache<Var>, k: Key<Var>, v: string)
    requires CacheOk(dataDir, c) && Resolve(dataDir, k) == Ok(v)
    ensures CacheOk(dataDir, Store(c, k, v))
    ensures Lookup(Store(c, k, v), k) == Some(v)
  {
    var c' := Store(c, k, v);
    forall i | 0 <= i < |c'|
      ensures Resolve(dataDir, c'[i].0) == Ok(c'[i].1)
    {
      assert c'[i] in c';
      if c'[i] != (k, v) {
        var j :| 0 <= j < |c| && c[j] == c'[i];
      }
    }
  }

  /** Splits equal concatenations around a common prefix and suffix. */
  lemma MiddleEqual(p: string, x: string, y: string, s: string)
    requires p + x + s == p + y + s
    ensures x == y
  {
    assert |x| == |y|;
    assert x == (p + x + s)[|p|..|p| + |x|];
    assert y == (p + y + s)[|p|..|p| + |y|];
  }

  /**
   * Two days of one symbol share a target file exactly when they are the same
   * UTC day: each published day has a file of its own.
   */
  lemma TargetFileIdentifiesDay(dataDir: string, symbol: string, t1: int, t2: int)
    requires !Php.Falsy(symbol) && t1 != 0 && t2 != 0
    ensures Resolve(dataDir, Key(File(Target, false), symbol, t1)) == Resolve(dataDir, Key(File(Target, false), symbol, t2))
        <==> t1 / Dates.DAY == t2 / Dates.DAY
  {
    var p := TreeRoot(dataDir, Target) + "/" + symbol + "/";
    var d1, d2 := Dates.DirDate(t1), Dates.DirDate(t2);
    assert Resolve(dataDir, Key(File(Target, false), symbol, t1)) == Ok(p + d1 + "/M1.bin");
    assert Resolve(dataDir, Key(File(Target, false), symbol, t2)) == Ok(p + d2 + "/M1.bin");
    if p + d1 + "/M1.bin" == p + d2 + "/M1.bin" {
      MiddleEqual(p, d1, d2, "/M1.bin");
    }
    Dates.DirDateIdentifiesDay(t1, t2);
  }

  /** No source name (a Dukascopy file) is ever a target name (a MyFX file). */
  lemma SourceIsNeverTarget(dataDir: string, source: Key<Var>, target: Key<Var>)
    requires source.id.File? && source.id.tree == Source
    requires target.id.File? && target.id.tree == Target
    ensures Resolve(dataDir, source).Ok? && Resolve(dataDir, target).Ok? ==>
      Resolve(dataDir, source).value != Resolve(dataDir, target).value
  {
    if Resolve(dataDir, source).Ok? && Resolve(dataDir, target).Ok? {
      var s := Resolve(dataDir, source).value;
      var t := Resolve(dataDir, target).value;
      var n := |dataDir + "/history/"|;
      assert s[n] == TreeRoot(dataDir, Source)[n] == 'd';
      assert t[n] == TreeRoot(dataDir, Target)[n] == 'm';
    }
  }
}
