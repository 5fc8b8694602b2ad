/**
 writeOwnerOnly of cli/mctl/internal/auth/zitadel.go: the credential file is replaced
 through a temp file and a rename. Any of the calls can fail, a write after part of its
 bytes, and the process can die at any of them.
 */
module TokenFile {
  // A file's bytes, and whether only its owner may read it.
  datatype File = File(bytes: string, ownerOnly: bool)

  type Files = map<string, File>

  // How one call turns out; a short write leaves the first `written` bytes.
  datatype Fate = Done | Error | Short(written: nat) | Killed

  /** The directory, and how its calls turn out, one after the other; past the end of the list the process is dead. */
  class Disk {
    var files: Files
    var calls: nat
    const fates: seq<Fate>

    constructor (files: Files, fates: seq<Fate>)
      ensures this.files == files && this.fates == fates && calls == 0
    {
      this.files, this.fates, calls := files, fates, 0;
    }

    method Next() returns (fate: Fate)
      modifies this`calls
      ensures calls == old(calls) + 1 && fate == FateOf(fates, old(calls))
    {
      fate := FateOf(fates, calls);
      calls := calls + 1;
    }
  }

  function FateOf(fates: seq<Fate>, i: nat): Fate {
    if i < |fates| then fates[i] else Killed
  }

  /** So many calls, from one on, all go through. */
  predicate AllDone(fates: seq<Fate>, from: nat, calls: nat) {
    forall i :: from <= i < from + calls ==> FateOf(fates, i) == Done
  }

  /** Of the calls made, whoever is dead was killed at the last, and anybody else at none. */
  predicate Survived(fates: seq<Fate>, from: nat, to: nat, dead: bool) {
    if dead then from < to && FateOf(fates, to - 1) == Killed
    else forall i :: from <= i < to ==> FateOf(fates, i) != Killed
  }

  // What the caller sees: no error, an error, or nothing any more.
  datatype Result = Ok | Err | Dead

  /** Part of the credential, or all of it, in a file of its own that nobody else may read. */
  predicate IsTemp(file: File, bytes: string) {
    file.bytes <= bytes && file.ownerOnly
  }

  /** The directory while the temp file is being written: as before, but for that file. */
  predicate InProgress(before: Files, now: Files, temp: string, bytes: string) {
    now - {temp} == before && (temp in now ==> IsTemp(now[temp], bytes))
  }

  /** The deferred removal of the temp file; its error is ignored. */
  method Cleanup(d: Disk, temp: string, ghost before: Files, ghost bytes: string, failed: Result) returns (r: Result)
    requires InProgress(before, d.files, temp, bytes) && temp !in before && failed != Dead
    modifies d
    ensures InProgress(before, d.files, temp, bytes) && (r == failed || r == Dead)
    ensures d.calls == old(d.calls) + 1 && Survived(d.fates, old(d.calls), d.calls, r == Dead)
    ensures FateOf(d.fates, old(d.calls)) == Done ==> d.files == before
  {
    var fate := d.Next();
    if fate.Killed? {
      return Dead;
    }
    if fate.Done? {
      d.files := d.files - {temp};
    }
    r := failed;
  }

  /** CreateTemp, Chmod, Write and Close: the temp file is complete, or the writing is over. */
  method WriteTemp(d: Disk, temp: string, bytes: string) returns (r: Result)
    requires temp !in d.files
    modifies d
    ensures InProgress(old(d.files), d.files, temp, bytes)
    ensures r == Ok ==> temp in d.files && d.files[temp] == File(bytes, true) && d.calls == old(d.calls) + 4
    ensures r == Ok <==> AllDone(d.fates, old(d.calls), 4)
    ensures d.calls > old(d.calls) && Survived(d.fates, old(d.calls), d.calls, r == Dead)
  {
    ghost var before := d.files;
    var fate := d.Next();
    if !fate.Done? {
      // Killed or an error: no temp file to remove yet.
      return if fate.Killed? then Dead else Err;
    }
    d.files := d.files[temp := File("", true)];
    assert d.files - {temp} == before;
    fate := d.Next();
    if !fate.Done? {
      if fate.Killed? {
        return Dead;
      }
      r := Cleanup(d, temp, before, bytes, Err);
      return;
    }
    fate := d.Next();
    if !fate.Done? {
      var n := if fate.Short? && fate.written < |bytes| then fate.written else 0;
      d.files := d.files[temp := File(bytes[..n], true)];
      assert d.files - {temp} == before;
      if fate.Killed? {
        return Dead;
      }
      r := Cleanup(d, temp, before, bytes, Err);
      return;
    }
    d.files := d.files[temp := File(bytes, true)];
    assert d.files - {temp} == before;
    fate := d.Next();
    if !fate.Done? {
      if fate.Killed? {
        return Dead;
      }
      r := Cleanup(d, temp, before, bytes, Err);
      return;
    }
    r := Ok;
  }

  /** The path is as it was. */
  predicate IsSame(before: Files, now: Files, path: string) {
    (path in now <==> path in before) && (path in now ==> now[path] == before[path])
  }

  lemma OnlyTempIsNew(before: Files, now: Files, path: string, temp: string)
    requires now - {temp} == before && temp != path
    ensures now - {path, temp} == before - {path} && IsSame(before, now, path)
  {
    assert (now - {temp}) - {path} == now - {path, temp};
    assert path in now ==> path in now - {temp} && now[path] == (now - {temp})[path];
    assert path in before ==> path in now - {temp} && before[path] == (now - {temp})[path];
  }

  /** Rename, and the deferred removal, which finds nothing after it. */
  method MoveIntoPlace(d: Disk, path: string, temp: string, bytes: string, ghost before: Files) returns (r: Result)
    requires InProgress(before, d.files, temp, bytes) && temp !in before && temp != path
    requires temp in d.files && d.files[temp] == File(bytes, true)
    modifies d
    ensures d.files - {path, temp} == before - {path}
    ensures temp in d.files ==> IsTemp(d.files[temp], bytes)
    ensures (path in d.files && d.files[path] == File(bytes, true)) || IsSame(before, d.files, path)
    ensures r == Ok ==> d.files == before[path := File(bytes, true)] && AllDone(d.fates, old(d.calls), 1)
    ensures r == Err ==> d.files - {temp} == before
    ensures AllDone(d.fates, old(d.calls), 2) ==> r == Ok
    ensures Survived(d.fates, old(d.calls), d.calls, r == Dead)
  {
    OnlyTempIsNew(before, d.files, path, temp);
    var fate := d.Next();
    if fate.Done? {
      d.files := (d.files - {temp})[path := File(bytes, true)];
      assert d.files == before[path := File(bytes, true)];
      fate := d.Next();
      r := if fate.Killed? then Dead else Ok;
    } else if fate.Killed? {
      r := Dead;
    } else {
      r := Cleanup(d, temp, before, bytes, Err);
      OnlyTempIsNew(before, d.files, path, temp);
    }
  }

  /**
   writeOwnerOnly(). A reader of the path sees the old credential or the whole new one,
   whatever fails and wherever the process dies: the new one whenever the caller is told
   so, never when it is told of an error. It is told so whenever no call fails, and it is
   told something unless the process was killed. What may be left over is a file of
   another name that only the owner can read.
   */
  method WriteOwnerOnly(d: Disk, path: string, temp: string, bytes: string) returns (r: Result)
    requires temp !in d.files && temp != path
    modifies d
    ensures d.files - {path, temp} == old(d.files) - {path}
    ensures temp in d.files ==> IsTemp(d.files[temp], bytes)
    ensures (path in d.files && d.files[path] == File(bytes, true)) || IsSame(old(d.files), d.files, path)
    ensures r == Ok ==> d.files == old(d.files)[path := File(bytes, true)]
    ensures r == Err ==> d.files - {temp} == old(d.files)
    ensures r == Ok ==> AllDone(d.fates, old(d.calls), 5)
    ensures AllDone(d.fates, old(d.calls), 6) ==> r == Ok
    ensures Survived(d.fates, old(d.calls), d.calls, r == Dead)
  {
    ghost var before := d.files;
    r := WriteTemp(d, temp, bytes);
    if r != Ok {
      OnlyTempIsNew(before, d.files, path, temp);
      return;
    }
    r := MoveIntoPlace(d, path, temp, bytes, before);
  }
}
