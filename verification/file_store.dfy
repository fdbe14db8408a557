/**
 * The file operations step (3) of `saveBars` performs to publish one day:
 * `tempnam` in the target directory, `fopen`/`fwrite`/`fclose` of the packed
 * data, then `rename` onto the target name. The file system is a map from
 * path to contents; directories are not modelled.
 */
module FileStore {
  import opened Packer
  import Php

  type FileSystem = map<string, seq<byte>>

  /** A bound on the length of every name in a finite set. */
  ghost function MaxLen(names: set<string>): (m: nat)
    ensures forall x :: x in names ==> |x| <= m
    decreases names
  {
    if names == {} then 0
    else
      var x :| x in names;
      var m := MaxLen(names - {x});
      if |x| > m then |x| else m
  }

  /**
   * The name `tempnam(dirName($file), baseName($file))` picks: the target
   * name followed by a suffix, the first such name with n or more characters
   * of suffix that is not yet taken. The random suffix of PHP is replaced by
   * this deterministic search.
   */
  function TempNameFrom(fs: FileSystem, file: string, n: nat): (t: string)
    requires n >= 1
    ensures t !in fs
    ensures |t| > |file| && t[..|file|] == file
    decreases MaxLen(fs.Keys) + 1 - |file| - n
  {
    var name := file + Php.Repeat('X', n);
    if name !in fs then name
    else
      assert |name| <= MaxLen(fs.Keys);
      TempNameFrom(fs, file, n + 1)
  }

  function TempName(fs: FileSystem, file: string): (t: string)
    ensures t !in fs && t != file
  {
    TempNameFrom(fs, file, 1)
  }

  /**
   * The states the file system passes through while a day is published:
   * after `tempnam` (an empty temporary file), after `fwrite`/`fclose`, and
   * after `rename`.
   */
  function PublishSteps(fs: FileSystem, file: string, data: seq<byte>): (states: seq<FileSystem>)
    ensures |states| == 3
  {
    var tmp := TempName(fs, file);
    var created := fs[tmp := []];
    var written := created[tmp := data];
    var renamed := (written - {tmp})[file := data];
    [created, written, renamed]
  }

  /** The file system once the day is published. */
  function Publish(fs: FileSystem, file: string, data: seq<byte>): (fs': FileSystem)
  {
    PublishSteps(fs, file, data)[2]
  }

  /**
   * `rename` makes the publication atomic: a file that was absent stays
   * absent in every intermediate state and then appears complete, and apart
   * from it the final state equals the initial one.
   */
  lemma PublishIsAtomic(fs: FileSystem, file: string, data: seq<byte>)
    requires file !in fs
    ensures var states := PublishSteps(fs, file, data);
      && (forall i :: 0 <= i < 2 ==> file !in states[i])
      && states[2] == fs[file := data]
  {
    var tmp := TempName(fs, file);
    var states := PublishSteps(fs, file, data);
    assert states[2] == fs[file := data] by {
      assert (fs[tmp := data] - {tmp}) == fs;
    }
  }

  /**
   * While publishing, the target name never refers to anything but the full
   * data, and no other file the system held before is touched.
   */
  lemma PublishNeverCorrupts(fs: FileSystem, file: string, data: seq<byte>)
    ensures forall i :: 0 <= i < 3 ==>
      var s := PublishSteps(fs, file, data)[i];
      file in s ==> (file in fs && s[file] == fs[file]) || s[file] == data
    ensures forall i, p :: 0 <= i < 3 && p in fs && p != file ==>
      var s := PublishSteps(fs, file, data)[i];
      p in s && s[p] == fs[p]
  {
  }
}
