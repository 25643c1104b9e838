/**
 * One `Log` instance: its buffer of formatted lines, the pause flag, the
 * flush that drains the buffer to the console or to a file, and the
 * rotating file writer. Each call is taken as atomic (the mutex and the
 * periodic flusher are not part of this model); the environment mode and
 * the size threshold are parameters, and the file system is a `Disk`.
 */
module Logging {
  import opened Decimal
  import opened FileName
  import opened NewPath

  /** The process-wide environment mode. */
  datatype Environment = EnvConsole | EnvDevelop | EnvProduct

  /** One observable write: a line on standard output, or text appended to a file. */
  datatype Output = Console(text: string) | File(path: string, text: string)

  /** The files on disk: each path and the bytes it holds (its size is their number). */
  class Disk {
    var files: map<string, string>

    constructor (files: map<string, string>)
      ensures this.files == files
    {
      this.files := files;
    }
  }

  /** `strings.Join(items, "")`: as long as the lines together. */
  function Concat(items: seq<string>): (r: string)
    ensures |r| == TotalLength(items)
  {
    if items == [] then "" else items[0] + Concat(items[1..])
  }

  /** Joining distributes over concatenation: a flushed block is the earlier lines, then the later ones. */
  lemma {:induction false} ConcatAppend(a: seq<string>, b: seq<string>)
    ensures Concat(a + b) == Concat(a) + Concat(b)
    decreases |a|
  {
    if a == [] {
      assert a + b == b;
    } else {
      assert (a + b)[0] == a[0];
      assert (a + b)[1..] == a[1..] + b;
      ConcatAppend(a[1..], b);
    }
  }

  /** The number of characters in all the lines together. */
  function TotalLength(items: seq<string>): nat
  {
    if items == [] then 0 else |items[0]| + TotalLength(items[1..])
  }

  /** The file at `p` exists and is larger than the threshold (`file.Size() > fileSize`). */
  predicate Oversize(files: map<string, string>, p: string, limit: int) {
    p in files && |files[p]| > limit
  }

  /** The files whose names have a rotatable suffix with an ordinal at least that of `p`. */
  ghost function Later(files: map<string, string>, p: string): set<string>
    requires HasMatch(p)
  {
    set q | q in files && HasMatch(q) && Ordinal(q) >= Ordinal(p)
  }

  /**
   * The rotation loop from `p` ends without 64-bit overflow: when `p` is
   * oversize, its name has a rotatable suffix, and every number in that
   * suffix stays below the largest `int` for as many steps as there are
   * files left to skip.
   */
  ghost predicate Rotatable(files: map<string, string>, p: string, limit: int) {
    Oversize(files, p, limit) ==>
      HasMatch(p) && AllBelow(RunValues(Suffix(p)), MaxInt64 - |Later(files, p)|)
  }

  /** One step of the loop keeps it rotatable, moves the ordinal up by one and leaves fewer files to skip. */
  lemma RotateStep(files: map<string, string>, p: string, limit: int)
    requires Oversize(files, p, limit) && Rotatable(files, p, limit)
    ensures HasMatch(NextName(p)) && Ordinal(NextName(p)) == Ordinal(p) + 1
    ensures Rotatable(files, NextName(p), limit)
    ensures |Later(files, NextName(p))| < |Later(files, p)|
  {
    var n := NextName(p);
    NextNameEffect(p);
    var now, next := Later(files, p), Later(files, n);
    assert p in now;
    assert next <= now - {p};
    assert |now - {p}| == |now| - 1;
    assert |next| <= |now| - 1 by {
      SubsetCardinality(next, now - {p});
    }
    forall i | 0 <= i < |RunValues(Suffix(n))|
      ensures RunValues(Suffix(n))[i] < MaxInt64 - |next|
    {
      assert RunValues(Suffix(n))[i] == RunValues(Suffix(p))[i] + 1;
    }
  }

  lemma SubsetCardinality(a: set<string>, b: set<string>)
    requires a <= b
    ensures |a| <= |b|
  {
    assert b == a + (b - a);
  }

  /**
   * The paths `writeToFile` visits from `p`: each oversize one is followed
   * by its next name, and the last one is missing or within the threshold.
   */
  ghost function Chain(files: map<string, string>, p: string, limit: int): (c: seq<string>)
    requires Rotatable(files, p, limit)
    ensures |c| >= 1 && c[0] == p && !Oversize(files, c[|c| - 1], limit)
    ensures forall i :: 0 <= i < |c| - 1 ==> Oversize(files, c[i], limit) && c[i + 1] == NextName(c[i])
    ensures |c| > 1 ==> forall i :: 0 <= i < |c| ==> HasMatch(c[i]) && Ordinal(c[i]) == Ordinal(p) + i
    decreases if Oversize(files, p, limit) then |Later(files, p)| else 0
  {
    if Oversize(files, p, limit) then
      RotateStep(files, p, limit);
      var rest := Chain(files, NextName(p), limit);
      [p] + rest
    else [p]
  }

  /**
   * The path the rotation loop from `p` settles on: one that is missing or
   * within the threshold; starting from an oversize file it has a rotatable
   * suffix with a larger ordinal, so the ordinal never moves backward, and
   * otherwise it is `p` itself.
   */
  ghost function Resolve(files: map<string, string>, p: string, limit: int): (r: string)
    requires Rotatable(files, p, limit)
    ensures !Oversize(files, r, limit)
    ensures Oversize(files, p, limit) ==> HasMatch(r) && Ordinal(r) > Ordinal(p)
    ensures !Oversize(files, p, limit) ==> r == p
    decreases if Oversize(files, p, limit) then |Later(files, p)| else 0
  {
    if Oversize(files, p, limit) then
      RotateStep(files, p, limit);
      Resolve(files, NextName(p), limit)
    else p
  }

  /** The settled path is the last one the loop visits. */
  lemma {:induction false} ResolveEndsChain(files: map<string, string>, p: string, limit: int)
    requires Rotatable(files, p, limit)
    ensures var c := Chain(files, p, limit);
      Resolve(files, p, limit) == c[|c| - 1]
    decreases if Oversize(files, p, limit) then |Later(files, p)| else 0
  {
    if Oversize(files, p, limit) {
      ChainStep(files, p, limit);
      ResolveEndsChain(files, NextName(p), limit);
    }
  }

  /** An oversize path is followed in its chain by the chain of its next name. */
  lemma ChainStep(files: map<string, string>, p: string, limit: int)
    requires Oversize(files, p, limit) && Rotatable(files, p, limit)
    ensures Rotatable(files, NextName(p), limit)
    ensures Chain(files, p, limit) == [p] + Chain(files, NextName(p), limit)
    ensures Resolve(files, p, limit) == Resolve(files, NextName(p), limit)
    ensures var n := NextName(p);
      (if Oversize(files, n, limit) then |Later(files, n)| else 0) < |Later(files, p)|
  {
    RotateStep(files, p, limit);
  }

  /** The loop stops at once on a path that is missing or within the threshold. */
  lemma ResolveStops(files: map<string, string>, p: string, limit: int)
    requires !Oversize(files, p, limit)
    ensures Rotatable(files, p, limit) && Resolve(files, p, limit) == p
  {
  }

  /** Creating a missing file empty and then appending to it is `AppendTo`. */
  lemma CreateThenAppend(files: map<string, string>, p: string, content: string)
    ensures var created := if p in files then files else files[p := ""];
      created[p := created[p] + content] == AppendTo(files, p, content)
  {
  }

  /** The visited paths are pairwise distinct: the loop never comes back to a file. */
  lemma ChainDistinct(files: map<string, string>, p: string, limit: int)
    requires Rotatable(files, p, limit)
    ensures var c := Chain(files, p, limit);
      forall i, j :: 0 <= i < j < |c| ==> c[i] != c[j]
  {
    var c := Chain(files, p, limit);
    forall i, j | 0 <= i < j < |c|
      ensures c[i] != c[j]
    {
      assert Ordinal(c[i]) < Ordinal(c[j]);
    }
  }

  /** The files after appending `content` to `p`, creating `p` empty first when it is missing. */
  function AppendTo(files: map<string, string>, p: string, content: string): (r: map<string, string>)
    ensures r.Keys == files.Keys + {p}
    ensures |r[p]| == (if p in files then |files[p]| else 0) + |content|
    ensures p in files ==> r[p][..|files[p]|] == files[p]
    ensures r[p][|r[p]| - |content|..] == content
    ensures forall q :: q in files && q != p ==> r[q] == files[q]
  {
    var before := if p in files then files[p] else "";
    files[p := before + content]
  }

  /**
   * What a flush of `items` does: nothing when there are none; otherwise
   * their joined text goes, with a trailing newline, to the console when
   * the mode is console or there is no path, and else to the file the
   * rotation loop settles on.
   */
  ghost predicate Flushed(items: seq<string>, env: Environment, limit: int,
                          files: map<string, string>, path: string, out: seq<Output>,
                          files': map<string, string>, path': string, out': seq<Output>)
    requires items != [] && env != EnvConsole && path != "" ==> Rotatable(files, path, limit)
  {
    if items == [] then
      files' == files && path' == path && out' == out
    else if env == EnvConsole || path == "" then
      files' == files && path' == path && out' == out + [Console(Concat(items) + "\n")]
    else
      path' == Resolve(files, path, limit) && files' == AppendTo(files, path', Concat(items))
      && out' == out + [File(path', Concat(items))]
  }

  class Log {
    /** The buffered lines, oldest first. */
    var list: seq<string>
    /** The current output file. */
    var filePath: string
    var isPause: bool
    /** Everything written so far, in order. */
    ghost var emitted: seq<Output>

    /**
     * `New`: the dated initial path, an empty buffer, not paused. The path
     * is derived by `InitialPathFixed` (see the note on `InitialPath`).
     */
    constructor (template: string, date: string)
      requires IsDate(date)
      ensures filePath == InitialPathFixed(template, date)
      ensures list == [] && !isPause && emitted == []
    {
      filePath := InitialPathFixed(template, date);
      list := [];
      isPause := false;
      emitted := [];
    }

    /** `Pasue`: only the flag changes. */
    method Pause()
      modifies this`isPause
      ensures isPause
    {
      isPause := true;
    }

    /** `Continue`: only the flag changes. */
    method Continue()
      modifies this`isPause
      ensures !isPause
    {
      isPause := false;
    }

    /**
     * `writeToFile`: skip every oversize file by rotating the name, create
     * the one reached when it is missing, and append `content` to it.
     */
    method WriteToFile(content: string, fileSize: int, disk: Disk)
      requires Rotatable(disk.files, filePath, fileSize)
      modifies this`filePath, this`emitted, disk
      ensures filePath == Resolve(old(disk.files), old(filePath), fileSize)
      ensures disk.files == AppendTo(old(disk.files), filePath, content)
      ensures emitted == old(emitted) + [File(filePath, content)]
    {
      ghost var files := disk.files;
      while Oversize(disk.files, filePath, fileSize)
        invariant disk.files == files && emitted == old(emitted)
        invariant Rotatable(files, filePath, fileSize)
        invariant Resolve(files, old(filePath), fileSize) == Resolve(files, filePath, fileSize)
        decreases if Oversize(files, filePath, fileSize) then |Later(files, filePath)| else 0
      {
        ChainStep(files, filePath, fileSize);
        filePath := NextName(filePath);
      }
      ResolveStops(files, filePath, fileSize);
      CreateThenAppend(files, filePath, content);
      if filePath !in disk.files {
        disk.files := disk.files[filePath := ""];
      }
      disk.files := disk.files[filePath := disk.files[filePath] + content];
      emitted := emitted + [File(filePath, content)];
    }

    /**
     * `Flush`: swap the buffer for an empty one; when it held lines, write
     * their joined text to the console or the rotating file.
     */
    method Flush(env: Environment, fileSize: int, disk: Disk)
      requires list != [] && env != EnvConsole && filePath != "" ==> Rotatable(disk.files, filePath, fileSize)
      modifies this`list, this`filePath, this`emitted, disk
      ensures list == []
      ensures Flushed(old(list), env, fileSize, old(disk.files), old(filePath), old(emitted),
                      disk.files, filePath, emitted)
    {
      var drained := list;
      list := [];
      if |drained| == 0 {
        return;
      }
      var content := Concat(drained);
      if env == EnvConsole || filePath == "" {
        emitted := emitted + [Console(content + "\n")];
      } else {
        WriteToFile(content, fileSize, disk);
      }
    }

    /**
     * `append`: while paused the line is dropped; otherwise it joins the
     * buffer, and the buffer is flushed once its line count times 1024
     * exceeds the threshold.
     */
    method Append(item: string, env: Environment, fileSize: int, disk: Disk)
      requires !isPause && (|list| + 1) * 1024 > fileSize && env != EnvConsole && filePath != "" ==>
        Rotatable(disk.files, filePath, fileSize)
      modifies this`list, this`filePath, this`emitted, disk
      ensures old(isPause) ==>
        list == old(list) && filePath == old(filePath) && emitted == old(emitted) && disk.files == old(disk.files)
      ensures !old(isPause) && (|old(list)| + 1) * 1024 <= fileSize ==>
        list == old(list) + [item] && filePath == old(filePath) && emitted == old(emitted) && disk.files == old(disk.files)
      ensures !old(isPause) && (|old(list)| + 1) * 1024 > fileSize ==>
        list == [] && Flushed(old(list) + [item], env, fileSize, old(disk.files), old(filePath), old(emitted),
                              disk.files, filePath, emitted)
    {
      if isPause {
        return;
      }
      list := list + [item];
      var count := |list|;
      if count * 1024 > fileSize {
        Flush(env, fileSize, disk);
      }
    }
  }
}
