/** `copyOneFile` and `fixedCopy`: the per-file path mapping and the
    fail-fast loop over the selected files. The file system is an input that
    gives, for each copy request, the outcome of every step of that copy. */
module Batch {
  import opened Common
  import opened Text
  import Resolve
  import CopyFile

  /** The arguments `copyOneFile` passes to `copyFileContents`. */
  datatype Request = Request(size: nat, src: string, dst: string)

  /** The separator literal `copyOneFile` places between destination and name. */
  const Backslash: string := "\\"

  /** The step outcomes the file system gives the copy at each position of
      a batch. A copy depends on the request and on everything copied before
      it (a disk filling up, a file replaced meanwhile), so two attempts of
      the same request can end differently. */
  type FileSystem = (nat, Request) -> CopyFile.Steps

  /** The source path of a wildcard copy: `Join(Dir(src), name)`. */
  function SourceOf(paths: PathOps, src: string, name: string): string {
    paths.join([paths.dir(src), name])
  }

  /** The destination path of a wildcard copy: `Join(dst, "\\", name)`. */
  function TargetOf(paths: PathOps, dst: string, name: string): string {
    paths.join([dst, Backslash, name])
  }

  /** `copyOneFile`: a wildcard source copies `Dir(src)/name` into the
      destination directory; a literal source copies `src` to `dst` as given. */
  function CopyOneFile(paths: PathOps, src: string, dst: string, file: Resolve.Entry): (q: Request)
    ensures q.size == file.size
    ensures IsWildcard(src) ==> q.src == SourceOf(paths, src, file.name) && q.dst == TargetOf(paths, dst, file.name)
    ensures !IsWildcard(src) ==> q.src == src && q.dst == dst
  {
    if IsWildcard(src) then
      Request(file.size, SourceOf(paths, src, file.name), TargetOf(paths, dst, file.name))
    else
      Request(file.size, src, dst)
  }

  /** The copy requests of a batch, in file order. */
  function Requests(paths: PathOps, src: string, dst: string, files: seq<Resolve.Entry>): (qs: seq<Request>)
    ensures |qs| == |files|
    ensures forall k :: 0 <= k < |files| ==> qs[k] == CopyOneFile(paths, src, dst, files[k])
  {
    if |files| == 0 then []
    else [CopyOneFile(paths, src, dst, files[0])] + Requests(paths, src, dst, files[1..])
  }

  /** What `copyFileContents` returns for request `q` copied at position `k`. */
  function Outcome(fs: FileSystem, k: nat, q: Request): CopyFile.Exit {
    CopyFile.CopyFileContents(fs(k, q))
  }

  /** Sum of the bytes the first `n` requests report written, each at its position. */
  function Written(fs: FileSystem, qs: seq<Request>, n: nat): nat
    requires n <= |qs|
  {
    if n == 0 then 0 else Written(fs, qs, n - 1) + Outcome(fs, n - 1, qs[n - 1]).written
  }

  /** What the loop of `fixedCopy` leaves behind: the bytes it returns, the
      error it returns, how many files it counted as copied, and the requests
      it handed to `copyFileContents`, in order. */
  datatype Loop = Loop(written: nat, err: Option<Error>, copied: nat, attempted: seq<Request>)

  /** The loop of `fixedCopy` after its first `n` iterations, or after the
      iteration that returned if that came earlier. */
  function LoopAfter(fs: FileSystem, qs: seq<Request>, n: nat): (r: Loop)
    requires n <= |qs|
    ensures |r.attempted| <= n && r.attempted == qs[..|r.attempted|]
    ensures r.err.None? ==> r.copied == n == |r.attempted|
    ensures r.err.Some? ==> |r.attempted| == r.copied + 1 <= n && Outcome(fs, r.copied, qs[r.copied]).err == r.err
    ensures forall j :: 0 <= j < r.copied ==> j < n && Outcome(fs, j, qs[j]).err.None?
    ensures r.copied <= n && r.written == Written(fs, qs, r.copied)
  {
    if n == 0 then Loop(0, None, 0, [])
    else
      var before := LoopAfter(fs, qs, n - 1);
      if before.err.Some? then before
      else
        var o := Outcome(fs, n - 1, qs[n - 1]);
        if o.err.Some? then Loop(before.written, o.err, n - 1, qs[..n])
        else Loop(before.written + o.written, None, n, qs[..n])
  }

  /** The loop of `fixedCopy`: copy in order; on the first error return the
      bytes of the files before it together with that error. */
  function CopyEach(fs: FileSystem, qs: seq<Request>): (r: Loop)
    ensures |r.attempted| <= |qs| && r.attempted == qs[..|r.attempted|]
    ensures r.err.None? ==> r.copied == |qs| == |r.attempted|
    ensures r.err.Some? ==> |r.attempted| == r.copied + 1 <= |qs| && Outcome(fs, r.copied, qs[r.copied]).err == r.err
    ensures forall j :: 0 <= j < r.copied ==> j < |qs| && Outcome(fs, j, qs[j]).err.None?
    ensures r.copied <= |qs| && r.written == Written(fs, qs, r.copied)
  {
    LoopAfter(fs, qs, |qs|)
  }

  /** The result of `fixedCopy`: the loop's returns and the counters after it. */
  datatype Batch = Batch(written: nat, err: Option<Error>, counters: Counters, attempted: seq<Request>)

  /** `fixedCopy` without its verbose reporting: set `filecount` to the number
      of files, then run the loop, adding each file copied to `filecopied`. */
  function FixedCopy(paths: PathOps, src: string, dst: string, files: seq<Resolve.Entry>,
                     c: Counters, fs: FileSystem): (b: Batch)
    ensures b.counters.filecount == |files|
    ensures b.counters.estimatesize == c.estimatesize
    ensures c.filecopied <= b.counters.filecopied <= c.filecopied + |files|
    ensures b.err.None? <==> b.counters.filecopied == c.filecopied + |files|
  {
    var loop := CopyEach(fs, Requests(paths, src, dst, files));
    Batch(loop.written, loop.err, Counters(c.estimatesize, |files|, c.filecopied + loop.copied), loop.attempted)
  }

  /** Fail-fast: when the first failing request is the one at `i`, the loop
      returns the bytes of the `i` requests before it with that request's
      error, counts `i` files copied, and attempts nothing after it. */
  lemma FailFast(fs: FileSystem, qs: seq<Request>, i: nat)
    requires i < |qs|
    requires forall j :: 0 <= j < i ==> Outcome(fs, j, qs[j]).err.None?
    requires Outcome(fs, i, qs[i]).err.Some?
    ensures var r := CopyEach(fs, qs);
            && r.copied == i
            && r.err == Outcome(fs, i, qs[i]).err
            && r.written == Written(fs, qs, i)
            && r.attempted == qs[..i + 1]
  {
  }

  /** All succeed: the loop returns the bytes of every request, no error, and
      counts every file copied. */
  lemma {:induction false} AllSucceed(fs: FileSystem, qs: seq<Request>)
    requires forall j :: 0 <= j < |qs| ==> Outcome(fs, j, qs[j]).err.None?
    ensures var r := CopyEach(fs, qs);
            r.err.None? && r.copied == |qs| && r.written == Written(fs, qs, |qs|) && r.attempted == qs
  {
  }

  /** The bytes a batch reports are those of the files that succeeded: a
      file whose copy returned bytes together with an error adds nothing. */
  lemma {:induction false} WrittenCountsSuccessesOnly(fs: FileSystem, qs: seq<Request>)
    ensures var r := CopyEach(fs, qs);
            r.err.Some? ==> r.written + Outcome(fs, r.copied, qs[r.copied]).written == Written(fs, qs, r.copied + 1)
  {
  }

  /** When every copy runs clean and transfers exactly the size of its
      file, the batch returns the total size of the selected files, no error,
      and every file counted copied. */
  lemma {:induction false} CleanBatchCopiesTotalSize(paths: PathOps, src: string, dst: string, files: seq<Resolve.Entry>,
                                  c: Counters, fs: FileSystem)
    requires forall k, q :: fs(k, q) == CopyFile.Steps(Ok, Ok, Ok, CopyFile.Transferred(q.size), Ok, Ok)
    ensures var b := FixedCopy(paths, src, dst, files, c, fs);
            && b.err.None?
            && b.written == Resolve.TotalSize(files)
            && b.counters.filecopied == c.filecopied + |files|
  {
    var qs := Requests(paths, src, dst, files);
    AllSucceed(fs, qs);
    WrittenIsTotalSize(paths, src, dst, files, fs);
  }

  lemma {:induction false} WrittenIsTotalSize(paths: PathOps, src: string, dst: string, files: seq<Resolve.Entry>,
                                              fs: FileSystem)
    requires forall k, q :: fs(k, q) == CopyFile.Steps(Ok, Ok, Ok, CopyFile.Transferred(q.size), Ok, Ok)
    ensures Written(fs, Requests(paths, src, dst, files), |files|) == Resolve.TotalSize(files)
  {
    WrittenIsTotalSizeUpTo(paths, src, dst, files, fs, |files|);
    assert files[..|files|] == files;
  }

  lemma {:induction false} WrittenIsTotalSizeUpTo(paths: PathOps, src: string, dst: string, files: seq<Resolve.Entry>,
                                                  fs: FileSystem, n: nat)
    requires n <= |files|
    requires forall k, q :: fs(k, q) == CopyFile.Steps(Ok, Ok, Ok, CopyFile.Transferred(q.size), Ok, Ok)
    ensures Written(fs, Requests(paths, src, dst, files), n) == Resolve.TotalSize(files[..n])
  {
    if n > 0 {
      WrittenIsTotalSizeUpTo(paths, src, dst, files, fs, n - 1);
      assert files[..n][..n - 1] == files[..n - 1];
    }
  }

  /** A literal source spec ignores the entry's name: two entries of the
      same size give the same copy request, from `src` to `dst`. */
  lemma LiteralIgnoresEntry(paths: PathOps, src: string, dst: string, f: Resolve.Entry, g: Resolve.Entry)
    requires !IsWildcard(src) && f.size == g.size
    ensures CopyOneFile(paths, src, dst, f) == CopyOneFile(paths, src, dst, g) == Request(f.size, src, dst)
  {
  }

  /** For a wildcard source spec, when `Join(dst, "\\", name)` tells listing
      names apart, entries with different names never share a destination. */
  lemma WildcardTargets(paths: PathOps, src: string, dst: string, f: Resolve.Entry, g: Resolve.Entry)
    requires IsWildcard(src)
    requires Resolve.ListingName(f.name) && Resolve.ListingName(g.name)
    requires forall n1, n2 ::
               (Resolve.ListingName(n1) && Resolve.ListingName(n2) && TargetOf(paths, dst, n1) == TargetOf(paths, dst, n2))
               ==> n1 == n2
    ensures f.name != g.name ==> CopyOneFile(paths, src, dst, f).dst != CopyOneFile(paths, src, dst, g).dst
  {
  }

  /** The scenario of three files where the second cannot be opened: one
      file copied, the second's error returned, the third never attempted. */
  lemma SecondOfThreeFails(fs: FileSystem, q1: Request, q2: Request, q3: Request, e: Error)
    requires Outcome(fs, 0, q1).err.None?
    requires fs(1, q2).open == Failed(e)
    ensures var r := CopyEach(fs, [q1, q2, q3]);
            && r.copied == 1
            && r.err == Some(e)
            && r.written == Outcome(fs, 0, q1).written
            && r.attempted == [q1, q2]
  {
    var qs := [q1, q2, q3];
    FailFast(fs, qs, 1);
    assert qs[..1] == [q1];
    assert qs[..2] == [q1, q2];
  }

  /** The same request twice, as a literal source with two entries equal up
      to case produces: the first copy can succeed and the second fail, and
      then exactly one file is counted. */
  lemma RepeatedRequestCanFailSecond(fs: FileSystem, q: Request, e: Error)
    requires Outcome(fs, 0, q).err.None?
    requires fs(1, q).create == Failed(e)
    ensures var r := CopyEach(fs, [q, q]);
            && r.copied == 1
            && r.err == Outcome(fs, 1, q).err
            && r.err.Some?
            && r.attempted == [q, q]
  {
  }
}
