/** `copyFileContents`: one throttled file copy. The file system and the
    throttler are replaced by the outcome of each step; the model runs the
    steps in order, registers the same deferred functions as the Go code and
    runs them, most recent first, on the named results `written` and `err`. */
module CopyFile {
  import opened Common

  /** What `io.Copy` gives back: a byte count, or an error with the bytes
      written before it. */
  datatype Transfer = Transferred(n: nat) | TransferFailed(partial: nat, err: Error)

  /** The outcome of every step the copy may take. Closing the source cannot
      fail observably: the Go code discards its error. */
  datatype Steps = Steps(
    open: Status,       // os.Open(src)
    addReader: Status,  // pool.AddReader(file)
    create: Status,     // os.Create(dst)
    copy: Transfer,     // io.Copy(out, throttledFile)
    sync: Status,       // out.Sync()
    closeDst: Status    // out.Close(), in the deferred function
  )

  /** The observable actions, in the order they happen. */
  datatype Event = NewPool | Open | AddReader | Create | Copy | Sync | CloseDst | CloseSrc | ReleasePool

  /** A function registered with `defer`. */
  datatype Deferred = ReleasePoolOnExit | CloseSrcOnExit | CloseDstOnExit(result: Status)

  /** The named results on return, and every action taken. */
  datatype Exit = Exit(written: nat, err: Option<Error>, trace: seq<Event>)

  function EventOf(d: Deferred): Event {
    match d
    case ReleasePoolOnExit => ReleasePool
    case CloseSrcOnExit => CloseSrc
    case CloseDstOnExit(_) => CloseDst
  }

  /** The error a deferred function leaves in `err`: only closing the
      destination writes it, and only when it is still nil. */
  function AfterDeferred(d: Deferred, err: Option<Error>): Option<Error> {
    match d
    case CloseDstOnExit(Failed(e)) => if err.None? then Some(e) else err
    case _ => err
  }

  /** The actions of the deferred functions, in the order they run. */
  function Fired(defers: seq<Deferred>): seq<Event>
    decreases |defers|
  {
    if |defers| == 0 then []
    else [EventOf(defers[|defers| - 1])] + Fired(defers[..|defers| - 1])
  }

  /** The error of the first failing destination close to run, if any. */
  function CloseError(defers: seq<Deferred>): Option<Error>
    decreases |defers|
  {
    if |defers| == 0 then None
    else match defers[|defers| - 1]
      case CloseDstOnExit(Failed(e)) => Some(e)
      case _ => CloseError(defers[..|defers| - 1])
  }

  /** Returning from the function: the deferred functions run last-in,
      first-out. None of them changes `written`, and a close error only
      replaces a nil `err`. */
  function Unwind(defers: seq<Deferred>, written: nat, err: Option<Error>, trace: seq<Event>): (r: Exit)
    ensures r.written == written
    ensures r.trace == trace + Fired(defers)
    ensures r.err == if err.Some? then err else CloseError(defers)
    decreases |defers|
  {
    if |defers| == 0 then
      assert trace + [] == trace;
      Exit(written, err, trace)
    else
      var last, earlier := defers[|defers| - 1], defers[..|defers| - 1];
      assert Fired(defers) == [EventOf(last)] + Fired(earlier);
      assert (trace + [EventOf(last)]) + Fired(earlier) == trace + Fired(defers);
      Unwind(earlier, written, AfterDeferred(last, err), trace + [EventOf(last)])
  }

  /** How many times an action occurs in a trace. */
  function Occurrences(trace: seq<Event>, e: Event): nat {
    if |trace| == 0 then 0
    else (if trace[0] == e then 1 else 0) + Occurrences(trace[1..], e)
  }

  /** `copyFileContents(size, src, dst, bwlimit)` for the given step outcomes. */
  function CopyFileContents(s: Steps): (r: Exit)
    // error results
    ensures s.open.Failed? ==> r.written == 0 && r.err == Some(s.open.err)
    ensures s.open.Ok? && s.addReader.Failed? ==> r.written == 0 && r.err == Some(s.addReader.err)
    ensures s.open.Ok? && s.addReader.Ok? && s.create.Failed? ==> r.written == 0 && r.err == Some(s.create.err)
    ensures s.open.Ok? && s.addReader.Ok? && s.create.Ok? && s.copy.TransferFailed? ==>
              r.written == 0 && r.err == Some(s.copy.err)
    ensures s.open.Ok? && s.addReader.Ok? && s.create.Ok? && s.copy.Transferred? ==>
              && r.written == s.copy.n
              && (s.sync.Failed? ==> r.err == Some(s.sync.err))
              && (s.sync.Ok? && s.closeDst.Failed? ==> r.err == Some(s.closeDst.err))
    // success exactly when every step succeeds
    ensures r.err.None? <==>
              s.open.Ok? && s.addReader.Ok? && s.create.Ok? && s.copy.Transferred? && s.sync.Ok? && s.closeDst.Ok?
    ensures r.err.Some? ==> r.written == 0 || s.copy.Transferred?
  {
    var pool := [ReleasePoolOnExit];
    var withSrc := pool + [CloseSrcOnExit];
    var withDst := withSrc + [CloseDstOnExit(s.closeDst)];
    DeferStacks(s.closeDst);
    if s.open.Failed? then Unwind(pool, 0, Some(s.open.err), [NewPool, Open])
    else if s.addReader.Failed? then Unwind(withSrc, 0, Some(s.addReader.err), [NewPool, Open, AddReader])
    else if s.create.Failed? then Unwind(withSrc, 0, Some(s.create.err), [NewPool, Open, AddReader, Create])
    else
      match s.copy
      case TransferFailed(_, e) =>
        Unwind(withDst, 0, Some(e), [NewPool, Open, AddReader, Create, Copy])
      case Transferred(n) =>
        Unwind(withDst, n, if s.sync.Failed? then Some(s.sync.err) else None,
               [NewPool, Open, AddReader, Create, Copy, Sync])
  }

  /** Resource discipline of `copyFileContents`: each handle that was opened
      is closed exactly once, and the throttler pool is created and released
      exactly once, whatever step fails. */
  lemma CopyFileContentsCloses(s: Steps)
    ensures var r := CopyFileContents(s); Occurrences(r.trace, CloseSrc) == (if s.open.Ok? then 1 else 0)
    ensures var r := CopyFileContents(s);
              Occurrences(r.trace, CloseDst) == (if s.open.Ok? && s.addReader.Ok? && s.create.Ok? then 1 else 0)
    ensures var r := CopyFileContents(s); Occurrences(r.trace, NewPool) == 1 && Occurrences(r.trace, ReleasePool) == 1
  {
    TraceCases(s);
    CountsOpenFailed();
    CountsAddReaderFailed();
    CountsCreateFailed();
    CountsCopyFailed();
    CountsCopyDone();
    PoolCountsCopyDone();
  }

  /** Ordering of `copyFileContents`: the destination is created only after
      the source was opened and handed to the throttler; the pool comes first
      and goes last; the destination is closed before the source. */
  lemma CopyFileContentsOrder(s: Steps)
    ensures var r := CopyFileContents(s); Create in r.trace <==> s.open.Ok? && s.addReader.Ok?
    ensures var r := CopyFileContents(s); r.trace[0] == NewPool && r.trace[|r.trace| - 1] == ReleasePool
    ensures var r := CopyFileContents(s); s.open.Ok? && s.addReader.Ok? && s.create.Ok? ==>
              r.trace[|r.trace| - 3..] == [CloseDst, CloseSrc, ReleasePool]
  {
    TraceCases(s);
  }

  /** The trace of `copyFileContents` on each of its five paths. */
  lemma TraceCases(s: Steps)
    ensures var t := CopyFileContents(s).trace;
            && (s.open.Failed? ==> t == [NewPool, Open, ReleasePool])
            && (s.open.Ok? && s.addReader.Failed? ==> t == [NewPool, Open, AddReader, CloseSrc, ReleasePool])
            && (s.open.Ok? && s.addReader.Ok? && s.create.Failed? ==> t == [NewPool, Open, AddReader, Create, CloseSrc, ReleasePool])
            && (s.open.Ok? && s.addReader.Ok? && s.create.Ok? && s.copy.TransferFailed? ==> t == [NewPool, Open, AddReader, Create, Copy, CloseDst, CloseSrc, ReleasePool])
            && (s.open.Ok? && s.addReader.Ok? && s.create.Ok? && s.copy.Transferred? ==> t == [NewPool, Open, AddReader, Create, Copy, Sync, CloseDst, CloseSrc, ReleasePool])
  {
    DeferStacks(s.closeDst);
  }

  /** Occurrence counts on each of the five paths. */
  lemma CountsOpenFailed()
    ensures Occurrences([NewPool, Open, ReleasePool], CloseSrc) == 0
    ensures Occurrences([NewPool, Open, ReleasePool], CloseDst) == 0
    ensures Occurrences([NewPool, Open, ReleasePool], NewPool) == 1
    ensures Occurrences([NewPool, Open, ReleasePool], ReleasePool) == 1
  {
  }

  lemma CountsAddReaderFailed()
    ensures Occurrences([NewPool, Open, AddReader, CloseSrc, ReleasePool], CloseSrc) == 1
    ensures Occurrences([NewPool, Open, AddReader, CloseSrc, ReleasePool], CloseDst) == 0
    ensures Occurrences([NewPool, Open, AddReader, CloseSrc, ReleasePool], NewPool) == 1
    ensures Occurrences([NewPool, Open, AddReader, CloseSrc, ReleasePool], ReleasePool) == 1
  {
  }

  lemma CountsCreateFailed()
    ensures Occurrences([NewPool, Open, AddReader, Create, CloseSrc, ReleasePool], CloseSrc) == 1
    ensures Occurrences([NewPool, Open, AddReader, Create, CloseSrc, ReleasePool], CloseDst) == 0
    ensures Occurrences([NewPool, Open, AddReader, Create, CloseSrc, ReleasePool], NewPool) == 1
    ensures Occurrences([NewPool, Open, AddReader, Create, CloseSrc, ReleasePool], ReleasePool) == 1
  {
  }

  lemma CountsCopyFailed()
    ensures Occurrences([NewPool, Open, AddReader, Create, Copy, CloseDst, CloseSrc, ReleasePool], CloseSrc) == 1
    ensures Occurrences([NewPool, Open, AddReader, Create, Copy, CloseDst, CloseSrc, ReleasePool], CloseDst) == 1
    ensures Occurrences([NewPool, Open, AddReader, Create, Copy, CloseDst, CloseSrc, ReleasePool], NewPool) == 1
    ensures Occurrences([NewPool, Open, AddReader, Create, Copy, CloseDst, CloseSrc, ReleasePool], ReleasePool) == 1
  {
  }

  lemma CountsCopyDone()
    ensures Occurrences([NewPool, Open, AddReader, Create, Copy, Sync, CloseDst, CloseSrc, ReleasePool], CloseSrc) == 1
    ensures Occurrences([NewPool, Open, AddReader, Create, Copy, Sync, CloseDst, CloseSrc, ReleasePool], CloseDst) == 1
  {
  }

  lemma PoolCountsCopyDone()
    ensures Occurrences([NewPool, Open, AddReader, Create, Copy, Sync, CloseDst, CloseSrc, ReleasePool], NewPool) == 1
    ensures Occurrences([NewPool, Open, AddReader, Create, Copy, Sync, CloseDst, CloseSrc, ReleasePool], ReleasePool) == 1
  {
  }

  /** The three stacks of deferred functions `copyFileContents` can return with. */
  lemma DeferStacks(c: Status)
    ensures Fired([ReleasePoolOnExit]) == [ReleasePool]
    ensures Fired([ReleasePoolOnExit, CloseSrcOnExit]) == [CloseSrc, ReleasePool]
    ensures Fired([ReleasePoolOnExit, CloseSrcOnExit, CloseDstOnExit(c)]) == [CloseDst, CloseSrc, ReleasePool]
    ensures CloseError([ReleasePoolOnExit]) == None
    ensures CloseError([ReleasePoolOnExit, CloseSrcOnExit]) == None
    ensures CloseError([ReleasePoolOnExit, CloseSrcOnExit, CloseDstOnExit(c)]) == if c.Failed? then Some(c.err) else None
  {
    var s1 := [ReleasePoolOnExit];
    var s2 := [ReleasePoolOnExit, CloseSrcOnExit];
    var s3 := [ReleasePoolOnExit, CloseSrcOnExit, CloseDstOnExit(c)];
    assert s2[..1] == s1;
    assert s3[..2] == s2;
    assert s1[..0] == [];
  }
}
