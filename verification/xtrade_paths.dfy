/**
 * `getVar` of `createHistory`: the directory and file names of the XTrade M1
 * history of one symbol and day, memoised in the FIFO cache of module
 * VarCache. The directory sits below the symbol's group, which comes from the
 * symbol table, a parameter here.
 */
module XtradePaths {
  import opened Wrappers
  import opened VarCache
  import Php
  import Dates

  /** The exceptions `getVar` throws for its string and int arguments. */
  datatype Failure =
    | InvalidTime(time: int)          // `!$time`
    | InvalidSymbol(symbol: string)   // `!$symbol`
    | UnknownId(id: string)

  /** The variable identifiers the script knows, and any other name. */
  datatype Var =
    | DirDate                  // "xtradeDirDate"
    | Dir                      // "xtradeDir"
    | File(compressed: bool)   // "xtradeFile.raw", "xtradeFile.compressed"
    | Unknown(name: string)

  /** `XTrade::$symbols[$symbol]['group']`. */
  type Groups = string -> string

  function VarName(v: Var): string
  {
    match v
    case DirDate => "xtradeDirDate"
    case Dir => "xtradeDir"
    case File(false) => "xtradeFile.raw"
    case File(true) => "xtradeFile.compressed"
    case Unknown(name) => name
  }

  /** The `if ($id == ...)` chain of `getVar`. */
  function ParseVar(id: string): (v: Var)
    ensures VarName(v) == id
    ensures v.Unknown? <==> forall w: Var :: !w.Unknown? ==> VarName(w) != id
  {
    match id
    case "xtradeDirDate" => DirDate
    case "xtradeDir" => Dir
    case "xtradeFile.raw" => File(false)
    case "xtradeFile.compressed" => File(true)
    case _ => Unknown(id)
  }

  function FileName(compressed: bool): string
  {
    if compressed then "/M1.rar" else "/M1.myfx"
  }

  function Rank(v: Var): nat
  {
    match v
    case Dir => 1
    case File(_) => 2
    case _ => 0
  }

  /** `$dataDirectory/history/xtrade/$group/$symbol`. */
  function SymbolRoot(dataDir: string, groups: Groups, symbol: string): string
  {
    dataDir + "/history/xtrade/" + groups(symbol) + "/" + symbol
  }

  /** The directory of one symbol and day: the symbol is checked before the time. */
  function DayDir(dataDir: string, groups: Groups, symbol: string, time: int): (r: Result<string, Failure>)
    ensures r.Err? <==> Php.Falsy(symbol) || time == 0
    ensures Php.Falsy(symbol) ==> r == Err(InvalidSymbol(symbol))
    ensures r.Ok? ==> r.value == SymbolRoot(dataDir, groups, symbol) + "/" + Dates.DirDate(time)
  {
    if Php.Falsy(symbol) then Err(InvalidSymbol(symbol))
    else if time == 0 then Err(InvalidTime(time))
    else Ok(SymbolRoot(dataDir, groups, symbol) + "/" + Dates.DirDate(time))
  }

  /** The uncached meaning of every identifier. */
  function Resolve(dataDir: string, groups: Groups, k: Key<Var>): Result<string, Failure>
  {
    match k.id
    case DirDate => if k.time == 0 then Err(InvalidTime(k.time)) else Ok(Dates.DirDate(k.time))
    case Dir => DayDir(dataDir, groups, k.symbol, k.time)
    case File(compressed) =>
      (match DayDir(dataDir, groups, k.symbol, k.time)
       case Ok(dir) => Ok(dir + FileName(compressed))
       case Err(e) => Err(e))
    case Unknown(name) => Err(UnknownId(name))
  }

  /**
   * The file names spelled out: `<dataDir>/history/xtrade/<group>/<symbol>/<Y/m/d>/M1.myfx`
   * and `.../M1.rar`; a missing symbol is reported before a missing time, and
   * an unknown identifier fails whatever its arguments.
   */
  lemma FileNames(dataDir: string, groups: Groups, compressed: bool, symbol: string, time: int, name: string)
    ensures var r := Resolve(dataDir, groups, Key(File(compressed), symbol, time));
      && (Php.Falsy(symbol) ==> r == Err(InvalidSymbol(symbol)))
      && (!Php.Falsy(symbol) && time == 0 ==> r == Err(InvalidTime(0)))
      && (!Php.Falsy(symbol) && time != 0 ==>
            r == Ok(dataDir + "/history/xtrade/" + groups(symbol) + "/" + symbol
                    + "/" + Dates.DirDate(time) + (if compressed then "/M1.rar" else "/M1.myfx")))
    ensures Resolve(dataDir, groups, Key(Unknown(name), symbol, time)) == Err(UnknownId(name))
  {
  }

  predicate CacheSound(dataDir: string, groups: Groups, c: Cache<Var>)
  {
    forall i :: 0 <= i < |c| ==> Resolve(dataDir, groups, c[i].0) == Ok(c[i].1)
  }

  predicate CacheOk(dataDir: string, groups: Groups, c: Cache<Var>)
  {
    UniqueKeys(c) && |c| <= MaxSize && CacheSound(dataDir, groups, c)
  }

  /** One call of `getVar($id, $symbol, $time)` against cache `c`. */
  function GetVar(dataDir: string, groups: Groups, k: Key<Var>, c: Cache<Var>): (r: (Result<string, Failure>, Cache<Var>))
    decreases Rank(k.id), 1
  {
    match Lookup(c, k)
    case Some(v) => (Ok(v), c)
    case None =>
      var (res, c') := Evaluate(dataDir, groups, k, c);
      match res
      case Ok(v) => (res, Store(c', k, v))
      case Err(_) => (res, c')
  }

  /** The `if ($id == ...)` chain on a miss. */
  function Evaluate(dataDir: string, groups: Groups, k: Key<Var>, c: Cache<Var>): (r: (Result<string, Failure>, Cache<Var>))
    decreases Rank(k.id), 0
  {
    match k.id
    case DirDate =>
      if k.time == 0 then (Err(InvalidTime(k.time)), c) else (Ok(Dates.DirDate(k.time)), c)
    case Dir =>
      if Php.Falsy(k.symbol) then (Err(InvalidSymbol(k.symbol)), c)
      else
        var (date, c') := GetVar(dataDir, groups, Key(DirDate, "", k.time), c);
        (match date
         case Ok(d) => Ok(SymbolRoot(dataDir, groups, k.symbol) + "/" + d)
         case Err(e) => Err(e), c')
    case File(compressed) =>
      var (dir, c') := GetVar(dataDir, groups, Key(Dir, k.symbol, k.time), c);
      (match dir
       case Ok(d) => Ok(d + FileName(compressed))
       case Err(e) => Err(e), c')
    case Unknown(name) => (Err(UnknownId(name)), c)
  }

  /**
   * A hit is answered before any argument is checked: whatever the key (no
   * symbol, no time, an unknown identifier), a cached value is returned as
   * stored and the cache is left as it was.
   */
  lemma HitSkipsChecks(dataDir: string, groups: Groups, k: Key<Var>, v: string, c: Cache<Var>)
    requires UniqueKeys(c) && (k, v) in c
    ensures GetVar(dataDir, groups, k, c) == (Ok(v), c)
  {
    var i :| 0 <= i < |c| && c[i] == (k, v);
  }

  /**
   * The cache is transparent: from any well-formed cache `getVar` returns the
   * uncached value, keeps the cache well-formed, leaves it untouched on an
   * error, and afterwards holds the answer when it succeeded.
   */
  lemma {:induction false} GetVarIsResolve(dataDir: string, groups: Groups, k: Key<Var>, c: Cache<Var>)
    requires CacheOk(dataDir, groups, c)
    ensures GetVar(dataDir, groups, k, c).0 == Resolve(dataDir, groups, k)
    ensures CacheOk(dataDir, groups, GetVar(dataDir, groups, k, c).1)
    ensures GetVar(dataDir, groups, k, c).0.Err? ==> GetVar(dataDir, groups, k, c).1 == c
    ensures GetVar(dataDir, groups, k, c).0.Ok? ==>
      Lookup(GetVar(dataDir, groups, k, c).1, k) == Some(GetVar(dataDir, groups, k, c).0.value)
    decreases Rank(k.id), 1
  {
    match Lookup(c, k)
    case Some(v) =>
      var i :| 0 <= i < |c| && c[i] == (k, v);
    case None =>
      EvaluateIsResolve(dataDir, groups, k, c);
      var (res, c') := Evaluate(dataDir, groups, k, c);
      if res.Ok? {
        StoreSound(dataDir, groups, c', k, res.value);
      }
  }

  /**
   * A falsy time fails for every identifier (each one reaches the date
   * branch with the same time) and leaves the cache as it was, so neither
   * `"$id|$symbol|"` nor `"$id|$symbol|0"` is ever stored.
   */
  lemma ZeroTimeNeverCached(dataDir: string, groups: Groups, k: Key<Var>, c: Cache<Var>)
    requires CacheOk(dataDir, groups, c) && k.time == 0
    ensures GetVar(dataDir, groups, k, c).0.Err?
    ensures GetVar(dataDir, groups, k, c).1 == c
  {
    GetVarIsResolve(dataDir, groups, k, c);
  }

  lemma {:induction false} EvaluateIsResolve(dataDir: string, groups: Groups, k: Key<Var>, c: Cache<Var>)
    requires CacheOk(dataDir, groups, c)
    ensures Evaluate(dataDir, groups, k, c).0 == Resolve(dataDir, groups, k)
    ensures CacheOk(dataDir, groups, Evaluate(dataDir, groups, k, c).1)
    ensures Evaluate(dataDir, groups, k, c).0.Err? ==> Evaluate(dataDir, groups, k, c).1 == c
    decreases Rank(k.id), 0
  {
    match k.id
    case Dir =>
      if !Php.Falsy(k.symbol) {
        GetVarIsResolve(dataDir, groups, Key(DirDate, "", k.time), c);
      }
    case File(_) =>
      GetVarIsResolve(dataDir, groups, Key(Dir, k.symbol, k.time), c);
    case _ =>
  }

  lemma StoreSound(dataDir: string, groups: Groups, c: Cache<Var>, k: Key<Var>, v: string)
    requires CacheOk(dataDir, groups, c) && Resolve(dataDir, groups, k) == Ok(v)
    ensures CacheOk(dataDir, groups, Store(c, k, v))
    ensures Lookup(Store(c, k, v), k) == Some(v)
  {
    var c' := Store(c, k, v);
    forall i | 0 <= i < |c'|
      ensures Resolve(dataDir, groups, c'[i].0) == Ok(c'[i].1)
    {
      assert c'[i] in c';
      if c'[i] != (k, v) {
        var j :| 0 <= j < |c| && c[j] == c'[i];
      }
    }
  }

  /** The compressed and the raw file of a day are two different files. */
  lemma CompressedIsNotRaw(dataDir: string, groups: Groups, symbol: string, time: int)
    requires !Php.Falsy(symbol) && time != 0
    ensures Resolve(dataDir, groups, Key(File(true), symbol, time)) != Resolve(dataDir, groups, Key(File(false), symbol, time))
  {
    var dir := DayDir(dataDir, groups, symbol, time).value;
    var a, b := dir + "/M1.rar", dir + "/M1.myfx";
    assert |a| != |b|;
  }
}
