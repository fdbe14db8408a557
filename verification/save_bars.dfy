/**
 * `saveBars($symbol, $day, $bars)` of `updateM1Bars`: check the day once
 * more, pack it, and, when raw MyFX data is to be kept, publish it under the
 * target name unless a file is already there. Compressed output is not
 * produced by the script.
 */
module SaveBars {
  import opened Wrappers
  import opened Bars
  import opened VarCache
  import opened FileStore
  import Packer
  import DayValidator
  import MyfxPaths

  /** The exceptions `saveBars` raises, its own or those of `getVar`. */
  datatype Error =
    | Rejected(rejection: DayValidator.Rejection)
    | PathError(failure: MyfxPaths.Failure)

  /** `return true` or `return false`, or an exception, with the resulting file system and cache. */
  datatype Step = Step(status: Result<bool, Error>, fs: FileSystem, cache: Cache<MyfxPaths.Var>)

  function TargetKey(symbol: string, day: int): Key<MyfxPaths.Var>
  {
    Key(MyfxPaths.File(MyfxPaths.Target, false), symbol, day)
  }

  function Save(symbol: string, day: int, bars: seq<Bar>, saveRaw: bool,
                dataDir: string, fs: FileSystem, cache: Cache<MyfxPaths.Var>): (r: Step)
    ensures r.status.Err? && r.status.error.Rejected? <==> DayValidator.Validate(bars).Some?
    ensures DayValidator.Validate(bars).Some? ==>
      r == Step(Err(Rejected(DayValidator.Validate(bars).value)), fs, cache)
    ensures DayValidator.Validate(bars).None? && !saveRaw ==> r == Step(Ok(true), fs, cache)
  {
    match DayValidator.Validate(bars)
    case Some(rejection) => Step(Err(Rejected(rejection)), fs, cache)
    case None =>
      var data := Packer.Pack(bars);
      if !saveRaw then Step(Ok(true), fs, cache)
      else
        var (target, cache') := MyfxPaths.GetVar(dataDir, TargetKey(symbol, day), cache);
        match target
        case Err(f) => Step(Err(PathError(f)), fs, cache')
        case Ok(file) =>
          if file in fs then Step(Ok(false), fs, cache')
          else Step(Ok(true), Publish(fs, file, data), cache')
  }

  /**
   * With raw output on and a well-formed cache, a valid day is published
   * exactly when its target name resolves and is still free; it then holds
   * the packed bars, every other file is as before, and the cache stays
   * well-formed. An existing target is never overwritten.
   */
  lemma SavePublishes(symbol: string, day: int, bars: seq<Bar>, dataDir: string,
                      fs: FileSystem, cache: Cache<MyfxPaths.Var>)
    requires MyfxPaths.CacheOk(dataDir, cache)
    requires DayValidator.Validate(bars).None?
    ensures var r := Save(symbol, day, bars, true, dataDir, fs, cache);
      var target := MyfxPaths.Resolve(dataDir, TargetKey(symbol, day));
      && MyfxPaths.CacheOk(dataDir, r.cache)
      && (target.Err? ==> r.status == Err(PathError(target.error)) && r.fs == fs)
      && (target.Ok? && target.value in fs ==> r.status == Ok(false) && r.fs == fs)
      && (target.Ok? && target.value !in fs ==>
            r.status == Ok(true) && r.fs == fs[target.value := Packer.Pack(bars)])
  {
    MyfxPaths.GetVarIsResolve(dataDir, TargetKey(symbol, day), cache);
    var target := MyfxPaths.Resolve(dataDir, TargetKey(symbol, day));
    if target.Ok? && target.value !in fs {
      PublishIsAtomic(fs, target.value, Packer.Pack(bars));
    }
  }

  /** Saving never removes a file and never changes one that existed before. */
  lemma SaveOnlyAdds(symbol: string, day: int, bars: seq<Bar>, saveRaw: bool,
                     dataDir: string, fs: FileSystem, cache: Cache<MyfxPaths.Var>)
    ensures var r := Save(symbol, day, bars, saveRaw, dataDir, fs, cache);
      forall p :: p in fs ==> p in r.fs && r.fs[p] == fs[p]
  {
    var r := Save(symbol, day, bars, saveRaw, dataDir, fs, cache);
    if r.fs != fs {
      var (target, _) := MyfxPaths.GetVar(dataDir, TargetKey(symbol, day), cache);
      PublishIsAtomic(fs, target.value, Packer.Pack(bars));
    }
  }
}
