/** `genericCopy` and the exit decisions of `main`. The parsed command line,
    the directory listing, the file system and the elapsed time are inputs. */
module Program {
  import opened Common
  import Text
  import Resolve
  import Batch
  import Report

  /** The settings of the command line once parsed: `-src`, `-dst`, the
      `-limit` in bytes per second, and `-verbose`. */
  datatype Config = Config(src: string, dst: string, limit: nat, verbose: bool)

  /** The outcome of `processArgs`. */
  datatype Args = Parsed(cfg: Config) | Invalid(err: Error)

  /** Everything outside the program: path functions, directory listings,
      the step outcomes of each copy, and the time `fixedCopy` took. */
  datatype Env = Env(paths: PathOps, readDir: string -> Resolve.Listing, fs: Batch.FileSystem, elapsedNanos: nat)

  /** The figures of the verbose output. */
  datatype Summary = Summary(estimatedSeconds: nat, elapsedSeconds: nat, averageRate: nat)

  /** What `genericCopy` comes to: its returns and the context counters, or
      one of the two ways the process dies inside it. */
  datatype Generic =
    | Done(written: nat, err: Option<Error>, counters: Counters, attempted: seq<Batch.Request>, summary: Option<Summary>)
    | Fatal(reason: Error)   // log.Fatal on an unreadable directory
    | DivideByZero           // runtime panic computing the estimate

  /** How the process ends: an exit status, or a runtime panic. */
  datatype Termination = Exit(code: int) | Panic

  /** A whole run: how it ends, the bytes reported copied, the counters, the
      copies attempted and the verbose figures. */
  datatype Completion = Completion(term: Termination, copied: nat, counters: Counters,
                         attempted: seq<Batch.Request>, summary: Option<Summary>)

  const Zero := Counters(0, 0, 0)

  /** `genericCopy` with `fixedCopy`'s verbose estimate. */
  function GenericCopy(cfg: Config, env: Env): (g: Generic)
    ensures g.Fatal? <==> env.readDir(env.paths.dir(cfg.src)).Unreadable?
    ensures g.DivideByZero? <==> env.readDir(env.paths.dir(cfg.src)).Listed? && cfg.verbose && cfg.limit == 0
    ensures g.Done? ==>
              && g.counters.filecopied <= g.counters.filecount
              && (g.err.None? <==> g.counters.filecopied == g.counters.filecount)
              && (g.summary.Some? <==> cfg.verbose)
  {
    match Resolve.GetFiles(env.paths, env.readDir, cfg.src, Zero)
    case Fatal(e) => Fatal(e)
    case Resolved(files, c) =>
      var estimate := if cfg.verbose then Report.EstimateAsWritten(c.estimatesize, cfg.limit) else Some(0);
      if estimate.None? then DivideByZero
      else
        var b := Batch.FixedCopy(env.paths, cfg.src, cfg.dst, files, c, env.fs);
        var summary :=
          if cfg.verbose then
            Some(Summary(estimate.value, Report.ElapsedSeconds(env.elapsedNanos),
                         Report.AverageRate(b.written, env.elapsedNanos)))
          else None;
        Done(b.written, b.err, b.counters, b.attempted, summary)
  }

  /** `main` as written: a configuration error exits with 2, an error from
      the copy with 1, anything else with 0. Status 0 comes only from a loop
      that counted every selected file, so the red message for fewer files
      copied than counted is never shown. A zero limit in verbose mode panics
      before any copy. */
  function Execute(args: Args, env: Env): (r: Completion)
    ensures args.Invalid? ==> r.term == Exit(2) && r.attempted == []
    ensures args.Parsed? && env.readDir(env.paths.dir(args.cfg.src)).Unreadable? ==>
              r.term == Exit(1) && r.attempted == []
    ensures args.Parsed? && env.readDir(env.paths.dir(args.cfg.src)).Listed? && args.cfg.verbose && args.cfg.limit == 0 ==>
              r.term == Panic && r.attempted == []
    ensures r.counters.filecopied <= r.counters.filecount
    ensures r.term == Exit(0) ==> r.counters.filecopied == r.counters.filecount
  {
    match args
    case Invalid(_) => Completion(Exit(2), 0, Zero, [], None)
    case Parsed(cfg) =>
      match GenericCopy(cfg, env)
      case Fatal(_) => Completion(Exit(1), 0, Zero, [], None)
      case DivideByZero => Completion(Panic, 0, Zero, [], None)
      case Done(written, err, c, attempted, summary) =>
        Completion(if err.Some? then Exit(1) else Exit(0), written, c, attempted, summary)
  }

  /** The limit check `processArgs` lacks: a zero rate is a configuration error. */
  function CheckLimit(args: Args): (a: Args)
    ensures a.Parsed? <==> args.Parsed? && args.cfg.limit > 0
    ensures a.Parsed? ==> a == args
  {
    if args.Parsed? && args.cfg.limit == 0 then Invalid("limit must be greater than zero") else args
  }

  /** `main` with the zero limit rejected as a configuration error: it never
      panics, and a run that gets past the arguments behaves as written. */
  function Run(args: Args, env: Env): (r: Completion)
    ensures r.term != Panic
    ensures args.Parsed? && args.cfg.limit == 0 ==> r.term == Exit(2) && r.attempted == []
    ensures args.Parsed? && args.cfg.limit > 0 ==> r == Execute(args, env)
    ensures r.counters.filecopied <= r.counters.filecount
  {
    Execute(CheckLimit(args), env)
  }

  /** The exit status distinguishes the copy error from success: status 1
      after a listing was read means some selected file was not copied. */
  lemma ExitStatusOfCopy(args: Args, env: Env)
    requires args.Parsed? && args.cfg.limit > 0
    requires env.readDir(env.paths.dir(args.cfg.src)).Listed?
    ensures var r := Run(args, env);
            && (r.term == Exit(0) || r.term == Exit(1))
            && (r.term == Exit(0) <==> r.counters.filecopied == r.counters.filecount)
  {
  }

  /** A pattern that selects nothing still ends with status 0, with no file
      counted and nothing attempted. */
  lemma NothingSelectedExitsZero(args: Args, env: Env)
    requires args.Parsed? && args.cfg.limit > 0
    requires env.readDir(env.paths.dir(args.cfg.src)).Listed?
    requires forall e :: e in env.readDir(env.paths.dir(args.cfg.src)).entries ==>
               !Resolve.Keep(env.paths.base(args.cfg.src), e.name)
    ensures var r := Run(args, env);
            r.term == Exit(0) && r.counters.filecount == 0 && r.attempted == [] && r.copied == 0
  {
    Resolve.SelectEmpty(env.paths.base(args.cfg.src), env.readDir(env.paths.dir(args.cfg.src)).entries);
  }

  /** A literal source is still resolved through the listing of its
      directory: when exactly one entry there has its name up to case, the
      run copies `src` to `dst` once and nothing else. */
  lemma LiteralSourceCopiesOnce(args: Args, env: Env, f: Resolve.Entry)
    requires args.Parsed? && args.cfg.limit > 0 && !Text.IsWildcard(args.cfg.src)
    requires env.readDir(env.paths.dir(args.cfg.src)).Listed?
    requires Resolve.Select(env.paths.base(args.cfg.src), env.readDir(env.paths.dir(args.cfg.src)).entries) == [f]
    ensures var r := Run(args, env);
            && r.counters.filecount == 1
            && |r.attempted| == 1
            && r.attempted[0] == Batch.Request(f.size, args.cfg.src, args.cfg.dst)
  {
  }
}
