/** Replacing a private file so that a crash at any moment leaves a complete copy.
    The file system is a map; `trace` holds every state it has been in, that is,
    every state a crash could leave behind. */
module SecureFiles {
  import opened Options

  type Path = string
  type Bytes = seq<bv8>

  /** A crash may cut off what has not been synced. */
  datatype FileData = FileData(body: Bytes, synced: bool)

  type Files = map<Path, FileData>

  const CREATE_TRIES := 32

  /** What the operating system answers to one call. */
  datatype Answer = Done | AlreadyExists | PermissionDenied | NotFound | Broken

  /** The answers to the calls of one replacement, in the order the calls appear. */
  datatype Os = Os(
    windows: bool,
    createDir: Answer,
    create: nat -> Answer,
    written: nat,           // bytes `write_all` gets down before it fails
    write: Answer,
    sync: Answer,
    firstRename: Answer,
    setAside: Answer,
    secondRename: Answer,
    rollBack: Answer,
    removeBackup: Answer,
    removeTemp: Answer)

  /** The whole of `body` is safely stored at `p`. */
  predicate Holds(files: Files, p: Path, body: Bytes) {
    p in files && files[p] == FileData(body, true)
  }

  /** The destination is as it was before. */
  predicate Same(files: Files, before: Files, path: Path) {
    if path in before then path in files && files[path] == before[path] else path !in files
  }

  /** The destination has its old content, or the whole new body. */
  predicate OldOrNew(files: Files, before: Files, path: Path, body: Bytes) {
    Same(files, before, path) || Holds(files, path, body)
  }

  /** As `OldOrNew`, but the old content may also be waiting at the backup path. */
  predicate NothingLost(files: Files, before: Files, path: Path, backup: Path, body: Bytes) {
    || OldOrNew(files, before, path, body)
    || (path in before && path !in files && backup in files && files[backup] == before[path])
  }

  /** What a crash may leave at the destination, by platform. */
  predicate CrashSafe(windows: bool, files: Files, before: Files, path: Path, backup: Path, body: Bytes) {
    if windows then NothingLost(files, before, path, backup, body) else OldOrNew(files, before, path, body)
  }

  /** No file but the destination, the temporary file and the backup is touched. */
  predicate OthersSame(files: Files, before: Files, path: Path, tmp: Path, backup: Path) {
    files - {path, tmp, backup} == before - {path, tmp, backup}
  }

  /** No file but `p` is touched. */
  predicate OnlyChanged(files: Files, before: Files, p: Path) {
    files - {p} == before - {p}
  }

  function Digits(n: nat): string {
    if n < 10 then [(n + 48) as char] else Digits(n / 10) + [(n % 10 + 48) as char]
  }

  /** A hidden name next to the destination. */
  function Sibling(dir: string, name: string, pid: string, id: nat, suffix: string): Path {
    dir + "." + name + "." + pid + "." + Digits(id) + "." + suffix
  }

  /** Names with different numbers differ, so that no two attempts share a file. */
  lemma NumberedSiblingsDiffer(dir: string, name: string, pid: string, i: nat, j: nat, suffix: string)
    requires i != j
    ensures Sibling(dir, name, pid, i, suffix) != Sibling(dir, name, pid, j, suffix)
  {
    var front, back := dir + "." + name + "." + pid + ".", "." + suffix;
    assert Sibling(dir, name, pid, i, suffix) == front + Digits(i) + back;
    assert Sibling(dir, name, pid, j, suffix) == front + Digits(j) + back;
    if Sibling(dir, name, pid, i, suffix) == Sibling(dir, name, pid, j, suffix) {
      SameMiddle(front, Digits(i), Digits(j), back);
      DigitsDiffer(i, j);
    }
  }

  lemma SameMiddle(front: string, x: string, y: string, back: string)
    requires front + x + back == front + y + back
    ensures x == y
  {
    var s, t := front + x + back, front + y + back;
    assert |x| == |y|;
    assert x == s[|front|..|front| + |x|] && y == t[|front|..|front| + |y|];
  }

  lemma {:induction false} DigitsDiffer(i: nat, j: nat)
    ensures Digits(i) == Digits(j) ==> i == j
    ensures Digits(i) != ""
    decreases i + j
  {
    var a, b := Digits(i), Digits(j);
    if i >= 10 && j >= 10 {
      DigitsDiffer(i / 10, j / 10);
      if a == b {
        assert a[|a| - 1] == b[|b| - 1] && a[..|a| - 1] == Digits(i / 10) && b[..|b| - 1] == Digits(j / 10);
      }
    } else if i >= 10 {
      DigitsDiffer(i / 10, 0);
    } else if j >= 10 {
      DigitsDiffer(0, j / 10);
      assert Digits(j / 10) != "" by { DigitsDiffer(j / 10, 0); }
    }
  }

  lemma SiblingsDiffer(dir: string, name: string, pid: string, i: nat, j: nat)
    ensures Sibling(dir, name, pid, i, "tmp") != dir + name
    ensures Sibling(dir, name, pid, j, "bak") != dir + name
    ensures Sibling(dir, name, pid, i, "tmp") != Sibling(dir, name, pid, j, "bak")
  {
    var t, b := Sibling(dir, name, pid, i, "tmp"), Sibling(dir, name, pid, j, "bak");
    assert |t| > |dir + name| && |b| > |dir + name|;
    assert t[|t| - 1] == 'p' && b[|b| - 1] == 'k';
  }

  // ------------------------------------------- when a replacement succeeds

  /** One of the tries from the `i`-th on finds a free name and creates the file. */
  predicate TempCreated(files: Files, dir: string, name: string, pid: string, id: nat, os: Os, i: nat)
    decreases 32 - i
  {
    i < 32 &&
    if Sibling(dir, name, pid, id + i, "tmp") in files || os.create(i) == AlreadyExists
    then TempCreated(files, dir, name, pid, id, os, i + 1)
    else os.create(i) == Done
  }

  predicate FillSucceeds(os: Os) { os.write == Done && os.sync == Done }

  /** The plain rename is refused in the way that makes Windows take the detour. */
  predicate TakesDetour(os: Os) { os.windows && os.firstRename in {AlreadyExists, PermissionDenied} }

  /** The old file, if there is one, moves aside. */
  predicate MovesAside(present: bool, os: Os) { present && os.setAside == Done }

  predicate DetourSucceeds(present: bool, os: Os) {
    os.secondRename == Done && (present ==> os.setAside == Done || os.setAside == NotFound)
  }

  predicate ReplaceSucceeds(present: bool, os: Os) {
    os.firstRename == Done || (TakesDetour(os) && DetourSucceeds(present, os))
  }

  /** The old file is set aside, the new one cannot be installed, and the old one
      cannot be moved back. */
  predicate LeftAside(present: bool, os: Os) {
    MovesAside(present, os) && os.secondRename != Done && os.rollBack != Done
  }

  /** Everything before the replacement succeeds. */
  predicate Stages(files: Files, dir: string, name: string, pid: string, id: nat, os: Os) {
    os.createDir == Done && TempCreated(files, dir, name, pid, id, os, 0) && FillSucceeds(os)
  }

  class FileSystem {
    const pid: string
    var files: Files
    var nextTempId: nat
    ghost var trace: seq<Files>

    constructor (pid: string, initial: Files)
      ensures files == initial && trace == [] && nextTempId == 0
    {
      this.pid := pid;
      files, trace, nextTempId := initial, [], 0;
    }

    /** The file system reaches a new state. */
    method Become(next: Files)
      modifies this`files, this`trace
      ensures files == next && trace == old(trace) + [next]
    {
      files := next;
      trace := trace + [next];
    }

    /** `rename`: replaces the target in one step or does nothing. */
    method Rename(from: Path, to: Path, answer: Answer) returns (got: Answer)
      requires from != to
      modifies this`files, this`trace
      ensures got == if from in old(files) then answer else NotFound
      ensures got == Done ==> from in old(files) && files == (old(files) - {from})[to := old(files)[from]]
      ensures got == Done ==> trace == old(trace) + [files]
      ensures got != Done ==> files == old(files) && trace == old(trace)
    {
      if from !in files { return NotFound; }
      if answer == Done { Become((files - {from})[to := files[from]]); }
      return answer;
    }

    method Remove(p: Path, answer: Answer)
      modifies this`files, this`trace
      ensures files == if answer == Done then old(files) - {p} else old(files)
      ensures trace == old(trace) || trace == old(trace) + [files]
    {
      if p in files && answer == Done { Become(files - {p}); }
    }

    method UniqueSibling(dir: string, name: string, suffix: string) returns (p: Path)
      modifies this`nextTempId
      ensures p == Sibling(dir, name, pid, old(nextTempId), suffix) && nextTempId == old(nextTempId) + 1
    {
      p := Sibling(dir, name, pid, nextTempId, suffix);
      nextTempId := nextTempId + 1;
    }

    /** A new, empty file under an unused name. */
    method CreateTemp(dir: string, name: string, os: Os) returns (tmp: Option<Path>)
      modifies this
      ensures tmp.Some? ==>
        && IsSibling(tmp.value, dir, name, pid, "tmp")
        && tmp.value !in old(files) && files == old(files)[tmp.value := FileData([], false)]
        && trace == old(trace) + [files]
      ensures tmp.None? ==> files == old(files) && trace == old(trace)
      ensures tmp.Some? <==> TempCreated(old(files), dir, name, pid, old(nextTempId), os, 0)
    {
      for i := 0 to CREATE_TRIES
        invariant files == old(files) && trace == old(trace) && nextTempId == old(nextTempId) + i
        invariant TempCreated(files, dir, name, pid, old(nextTempId), os, 0)
          == TempCreated(files, dir, name, pid, old(nextTempId), os, i)
      {
        var p := UniqueSibling(dir, name, "tmp");
        if p !in files {
          if os.create(i) == Done {
            Become(files[p := FileData([], false)]);
            return Some(p);
          }
          if os.create(i) != AlreadyExists { return None; }
        }
      }
      return None;
    }

    /** Write the body, byte after byte as far as a crash can tell, and sync it. */
    method Fill(tmp: Path, body: Bytes, os: Os) returns (ok: bool)
      requires tmp in files
      modifies this`files, this`trace
      ensures ok <==> FillSucceeds(os)
      ensures ok ==> Holds(files, tmp, body)
      ensures OnlyChanged(files, old(files), tmp)
      ensures Grows(old(trace), trace) && OnlyChangedSince(trace, |old(trace)|, old(files), tmp)
    {
      var n := if os.write == Done || os.written > |body| then |body| else os.written;
      for k := 0 to n
        invariant OnlyChanged(files, old(files), tmp)
        invariant Grows(old(trace), trace) && OnlyChangedSince(trace, |old(trace)|, old(files), tmp)
      {
        Become(files[tmp := FileData(body[..k + 1], false)]);
      }
      if os.write != Done || os.sync != Done { return false; }
      Become(files[tmp := FileData(body, true)]);
      return true;
    }

    /** Everything up to the replacement: the new body under a temporary name. */
    method Stage(dir: string, name: string, body: Bytes, os: Os) returns (ok: bool, tmp: Option<Path>)
      modifies this
      ensures tmp.None? ==> !ok && files == old(files) && trace == old(trace)
      ensures tmp.Some? ==> IsSibling(tmp.value, dir, name, pid, "tmp") && tmp.value !in old(files)
      ensures tmp.Some? ==> OnlyChanged(files, old(files), tmp.value)
      ensures tmp.Some? ==> Grows(old(trace), trace) && OnlyChangedSince(trace, |old(trace)|, old(files), tmp.value)
      ensures ok ==> tmp.Some? && Holds(files, tmp.value, body)
      ensures ok <==> TempCreated(old(files), dir, name, pid, old(nextTempId), os, 0) && FillSucceeds(os)
    {
      tmp := CreateTemp(dir, name, os);
      if tmp.None? { return false, tmp; }
      ghost var empty, start := files, |old(trace)|;
      assert OnlyChanged(empty, old(files), tmp.value);
      ok := Fill(tmp.value, body, os);
      forall i | start <= i < |trace| ensures OnlyChanged(trace[i], old(files), tmp.value) {
        if i == start { assert trace[start] == trace[..start + 1][start] == empty; }
      }
      assert trace[..start] == trace[..start + 1][..start];
    }

    /** Put the temporary file in place of the destination. */
    method Replace(tmp: Path, dir: string, name: string, body: Bytes, os: Os) returns (ok: bool, backup: Path)
      requires Holds(files, tmp, body) && IsSibling(tmp, dir, name, pid, "tmp")
      modifies this
      ensures IsSibling(backup, dir, name, pid, "bak")
      ensures ok <==> ReplaceSucceeds(dir + name in old(files), os)
      ensures ok ==> Holds(files, dir + name, body) && tmp !in files
      ensures ok && os.removeBackup == Done ==> backup !in files || backup in old(files)
      ensures !ok ==> CrashSafe(os.windows, files, old(files), dir + name, backup, body)
      ensures !ok ==>
        (Same(files, old(files), dir + name) <==> !(TakesDetour(os) && LeftAside(dir + name in old(files), os)))
      ensures OthersSame(files, old(files), dir + name, tmp, backup)
      ensures Grows(old(trace), trace)
      ensures CrashSafeSince(os.windows, trace, |old(trace)|, old(files), dir + name, backup, body)
    {
      var path := dir + name;
      ghost var id :| tmp == Sibling(dir, name, pid, id, "tmp");
      SiblingsDiffer(dir, name, pid, id, nextTempId);
      backup := Sibling(dir, name, pid, nextTempId, "bak");
      var got := Rename(tmp, path, os.firstRename);
      if got == Done { return true, backup; }
      if !os.windows || (got != AlreadyExists && got != PermissionDenied) { return false, backup; }
      ok, backup := SetAside(tmp, dir, name, body, os);
    }

    /** The detour for a destination that cannot simply be overwritten. */
    method SetAside(tmp: Path, dir: string, name: string, body: Bytes, os: Os) returns (ok: bool, backup: Path)
      requires Holds(files, tmp, body) && IsSibling(tmp, dir, name, pid, "tmp") && os.windows
      modifies this
      ensures IsSibling(backup, dir, name, pid, "bak")
      ensures ok <==> DetourSucceeds(dir + name in old(files), os)
      ensures ok ==> Holds(files, dir + name, body) && tmp !in files
      ensures ok && os.removeBackup == Done && MovesAside(dir + name in old(files), os) ==> backup !in files
      ensures !MovesAside(dir + name in old(files), os) ==> (backup in files <==> backup in old(files))
      ensures !ok ==> CrashSafe(true, files, old(files), dir + name, backup, body)
      ensures !ok ==> (Same(files, old(files), dir + name) <==> !LeftAside(dir + name in old(files), os))
      ensures OthersSame(files, old(files), dir + name, tmp, backup)
      ensures Grows(old(trace), trace)
      ensures CrashSafeSince(true, trace, |old(trace)|, old(files), dir + name, backup, body)
    {
      var path := dir + name;
      ghost var id :| tmp == Sibling(dir, name, pid, id, "tmp");
      SiblingsDiffer(dir, name, pid, id, nextTempId);
      backup := UniqueSibling(dir, name, "bak");
      var got := Rename(path, backup, os.setAside);
      if got == NotFound {
        got := Rename(tmp, path, os.secondRename);
        return got == Done, backup;
      }
      if got != Done { return false, backup; }
      got := Rename(tmp, path, os.secondRename);
      if got == Done {
        Remove(backup, os.removeBackup);
        return true, backup;
      }
      var _ := Rename(backup, path, os.rollBack);
      return false, backup;
    }

    /** Replace the destination by `body`. */
    method WritePrivate(dir: string, name: string, body: Bytes, os: Os) returns (ok: bool, tmp: Path, backup: Path)
      modifies this
      // whatever moment a crash strikes
      ensures Grows(old(trace), trace)
      ensures CrashSafeSince(os.windows, trace, |old(trace)|, old(files), dir + name, backup, body)
      // exactly these answers mean success
      ensures var present := dir + name in old(files);
        ok <==> Stages(old(files), dir, name, pid, old(nextTempId), os) && ReplaceSucceeds(present, os)
      // success is the new body, failure the old state, or on Windows at worst a backup
      ensures ok ==> Holds(files, dir + name, body)
      ensures !ok ==> CrashSafe(os.windows, files, old(files), dir + name, backup, body)
      // after a success the backup is cleaned up as far as the system lets it
      ensures ok && os.removeBackup == Done ==> backup !in files || backup in old(files)
      // exactly these answers leave the old body at the backup only
      ensures !ok ==>
        (Same(files, old(files), dir + name) <==>
          !(Stages(old(files), dir, name, pid, old(nextTempId), os)
            && TakesDetour(os) && LeftAside(dir + name in old(files), os)))
      // and nothing else changes, the temporary file included
      ensures OthersSame(files, old(files), dir + name, tmp, backup)
      ensures ok || os.removeTemp == Done ==> tmp !in files || files == old(files)
    {
      var path := dir + name;
      tmp, backup := path, path;
      if os.createDir != Done { return false, tmp, backup; }
      var staged;
      ok, staged := Stage(dir, name, body, os);
      if staged.None? { return; }
      tmp := staged.value;
      ghost var before, mid, middle := old(files), files, |trace|;
      ghost var id :| tmp == Sibling(dir, name, pid, id, "tmp");
      SiblingsDiffer(dir, name, pid, id, 0);
      StagingIsSafe(os.windows, trace, |old(trace)|, before, path, tmp, body);
      Untouched(mid, before, path, tmp);
      OthersChain(mid, before, path, tmp, backup);
      if ok {
        ok, backup := Replace(tmp, dir, name, body, os);
        ghost var other :| backup == Sibling(dir, name, pid, other, "bak");
        SiblingsDiffer(dir, name, pid, id, other);
        Untouched(mid, before, backup, tmp);
        OthersChain(mid, before, path, tmp, backup);
        Rebased(os.windows, trace, |old(trace)|, middle, mid, before, path, backup, body);
      }
      if !ok {
        WithoutTemp(os.windows, files, before, path, tmp, backup, body);
        Remove(tmp, os.removeTemp);
      }
    }
  }

  lemma OthersChain(mid: Files, before: Files, path: Path, tmp: Path, backup: Path)
    requires OnlyChanged(mid, before, tmp)
    ensures OthersSame(mid, before, path, tmp, backup)
  {
    assert mid - {path, tmp, backup} == (mid - {tmp}) - {path, backup};
    assert before - {path, tmp, backup} == (before - {tmp}) - {path, backup};
  }

  lemma WithoutTemp(windows: bool, files: Files, before: Files, path: Path, tmp: Path, backup: Path, body: Bytes)
    requires CrashSafe(windows, files, before, path, backup, body) && tmp != path && tmp != backup
    ensures CrashSafe(windows, files - {tmp}, before, path, backup, body)
    ensures Same(files, before, path) ==> Same(files - {tmp}, before, path)
    ensures OthersSame(files, before, path, tmp, backup) ==> OthersSame(files - {tmp}, before, path, tmp, backup)
  {
    assert files - {path, tmp, backup} == (files - {tmp}) - {path, tmp, backup};
  }

  ghost predicate IsSibling(p: Path, dir: string, name: string, pid: string, suffix: string) {
    exists id :: p == Sibling(dir, name, pid, id, suffix)
  }

  predicate Grows(before: seq<Files>, trace: seq<Files>) {
    |before| <= |trace| && trace[..|before|] == before
  }

  predicate OnlyChangedSince(trace: seq<Files>, start: nat, before: Files, p: Path) {
    forall i | start <= i < |trace| :: OnlyChanged(trace[i], before, p)
  }

  predicate CrashSafeSince(windows: bool, trace: seq<Files>, start: nat, before: Files,
                           path: Path, backup: Path, body: Bytes) {
    forall i | start <= i < |trace| :: CrashSafe(windows, trace[i], before, path, backup, body)
  }

  lemma Untouched(files: Files, before: Files, path: Path, tmp: Path)
    requires OnlyChanged(files, before, tmp) && path != tmp
    ensures Same(files, before, path)
  {
    assert path in files <==> path in files - {tmp};
    assert path in before <==> path in before - {tmp};
    if path in before { assert (files - {tmp})[path] == (before - {tmp})[path]; }
  }

  lemma StagingIsSafe(windows: bool, trace: seq<Files>, start: nat, before: Files, path: Path, tmp: Path, body: Bytes)
    requires OnlyChangedSince(trace, start, before, tmp) && path != tmp
    ensures forall backup :: CrashSafeSince(windows, trace, start, before, path, backup, body)
  {
    forall i | start <= i < |trace| ensures Same(trace[i], before, path) {
      Untouched(trace[i], before, path, tmp);
    }
  }

  /** The replacement began in a state with the old destination. */
  lemma Rebased(windows: bool, trace: seq<Files>, start: nat, middle: nat, mid: Files, before: Files,
                path: Path, backup: Path, body: Bytes)
    requires start <= middle <= |trace| && Same(mid, before, path)
    requires CrashSafeSince(windows, trace[..middle], start, before, path, backup, body)
    requires CrashSafeSince(windows, trace, middle, mid, path, backup, body)
    ensures CrashSafeSince(windows, trace, start, before, path, backup, body)
  {
    forall i | start <= i < |trace| ensures CrashSafe(windows, trace[i], before, path, backup, body) {
      if i < middle {
        assert trace[..middle][i] == trace[i];
      } else {
        assert CrashSafe(windows, trace[i], mid, path, backup, body);
      }
    }
  }
}
