# iobandw — a Dafny model of the bandwidth-limited batch copy

`iobandw` copies the files that match a source spec into a destination. Each
copy goes through a throttler that caps throughput at `-limit` bytes per
second. This project models the decision logic of `iobandw.go` and proves
properties of it:

- how a source spec is classified as a wildcard (`isWildcard`);
- how the file set is selected from a directory listing (`getFiles`);
- how each selected entry becomes a source/destination pair (`copyOneFile`);
- how one copy combines the errors of its steps and releases its resources
  through `defer` (`copyFileContents`);
- the fail-fast loop and its counters (`fixedCopy`);
- the report arithmetic and the exit status (`genericCopy`, `main`).

Some things are inputs to the model rather than modelled:

- the directory listing (`readDir`);
- the outcome of every I/O step of a copy, given by the copy's position in the
  batch and its request (`FileSystem`);
- `filepath.Dir`, `filepath.Base` and `filepath.Join` (`PathOps`), which are
  platform-dependent;
- the elapsed time in nanoseconds;
- the parsed command line (`Args`).

Modules, leaf first:

- `Common` (common.dfy): errors, options, the counter record, the path functions.
- `Text` (text.dfy): `isWildcard` and ASCII lower-casing.
- `Glob` (glob.dfy): the pattern matcher.
- `Resolve` (resolve.dfy): `getFiles`.
- `CopyFile` (copyfile.dfy): `copyFileContents`, with Go's defer stack.
- `Batch` (batch.dfy): `copyOneFile` and `fixedCopy`.
- `Report` (report.dfy): estimate, elapsed seconds, average rate.
- `Program` (program.dfy): `genericCopy` and `main`.

Behaviour of the code worth knowing:

- A literal source is also resolved by listing `Dir(src)`. `getFiles` is
  called for every source (iobandw.go:182). For a `Base(src)` without `[`
  or `\`, it keeps the entries whose name equals `Base(src)` up to case;
  `filepath.Match` reads those two characters as pattern syntax. A literal source can therefore select no
  entry, or several entries that differ only in case. Each of those copies
  the same `src` to the same `dst`, and each copy can end differently.
  `Resolve.LiteralKeep`, `Batch.RepeatedRequestCanFailSecond` and
  `Program.LiteralSourceCopiesOnce` state this.
- Directories in the listing are not excluded; they are matched like files.
- Exit status 0 needs `fixedCopy` to return no error. That happens only at
  iobandw.go:174, after every selected file was counted copied. So exit 0
  implies that every selected file was copied, and the red branch at
  iobandw.go:268-270 is never taken. A spec that matches nothing exits 0
  with both counters at 0, unless `-verbose` is given with a zero limit,
  which panics at iobandw.go:155.
- An unreadable directory is not an error that `genericCopy` returns.
  `log.Fatal` ends the process with status 1.
- A failed `io.Copy` returns 0 bytes. A failed `Sync` returns the byte count
  together with the error, and `fixedCopy` then drops those bytes.

## Model

| member | source | states |
|---|---|---|
| Text.IsWildcard | iobandw.go:116-118 | A source spec is a wildcard exactly when some character of it is `*` or `?`. |
| Text.IsWildcardCases | iobandw_test.go:10-14 | The five unit cases: `file.ext` and the empty string are literal; `file??.ext`, `file*.ext`, `file*.?xt` are wildcards. |
| Text.Lower | iobandw.go:128 | Lower-casing keeps the length and lower-cases every character in place (ASCII only). |
| Text.IsWildcardLower | iobandw.go:128 | Lower-casing a spec does not change whether it is a wildcard. |
| Glob.Match | iobandw.go:128 | A match has at least one name character per pattern character other than `*`, and exactly as many characters as the pattern when it has no `*`. |
| Glob.MatchComplete | iobandw.go:128 | Filling each `*` with any text and each `?` with one character gives a name the pattern matches. |
| Glob.MatchSound | iobandw.go:128 | Every name a pattern matches is such a filling of it. With MatchComplete, this pins down what `*`, `?` and literals mean. |
| Glob.LiteralMatch | iobandw.go:128 | A pattern without `*` or `?` matches exactly the name equal to it. |
| Glob.StarMatchesAll | iobandw.go:128 | The pattern `*` matches every name, the empty one included. |
| Glob.MatchLowerIsFold | iobandw.go:128 | Lower-casing both pattern and name, then matching, equals a matcher that compares literal characters up to ASCII case. |
| Resolve.Keep | iobandw.go:128 | Lower-casing pattern and name, then matching, is the same as the reference matcher that compares literal characters up to ASCII case. |
| Resolve.Select | iobandw.go:127-137 | Every selected entry is in the listing and matches; every matching entry of the listing is selected. |
| Resolve.SelectIsFilter | iobandw.go:127-137 | The selection is the listing restricted to increasing positions, and a position is included exactly when its entry matches. Order is kept, nothing is duplicated or reordered. |
| Resolve.SelectEmpty | iobandw.go:127-137 | The selection is empty exactly when no listing entry matches. |
| Resolve.GetFiles | iobandw.go:121-139 | The listing read is that of `Dir(src)` and the pattern is `Base(src)`, whether or not the source is a wildcard. An unreadable directory is fatal. Otherwise `estimatesize` grows by the total size of exactly the selected entries, and the other counters do not change. |
| Resolve.LiteralKeep | iobandw.go:122-128 | For a literal pattern, an entry is kept exactly when its name equals the pattern up to ASCII case. |
| Resolve.CaseInsensitiveCases | iobandw.go:128 | `*.TXT` selects `a.txt` and `*.txt` selects `A.TXT`. |
| Resolve.KeepIgnoresCase | iobandw.go:128 | Patterns, or names, that differ only in ASCII case select the same way. This equals case-folded matching. |
| CopyFile.Unwind | iobandw.go:101-106 | Deferred functions run last-registered first and never change `written`. A destination-close error only replaces a nil `err`. |
| CopyFile.CopyFileContents | iobandw.go:50-113 | Returns `(0, e)` when open, AddReader, create or copy fails with `e`, and `(n, syncErr)` when the copy of `n` bytes is followed by a failing sync. A close error replaces only a nil error. The error is nil exactly when every step succeeds. |
| CopyFile.CopyFileContentsCloses | iobandw.go:58-106 | On every path, the source is closed exactly once if it was opened (never otherwise), the destination exactly once if it was created, and the throttler pool is created and released exactly once. |
| CopyFile.CopyFileContentsOrder | iobandw.go:58-106 | The destination is created only after open and AddReader succeed. The pool comes first and is released last. After a create, the destination is closed before the source. |
| Batch.CopyOneFile | iobandw.go:142-147 | The request carries the entry's size. A wildcard source copies `Join(Dir(src), name)` to `Join(dst, "\\", name)`; a literal source copies `src` to `dst`. |
| Batch.CopyEach | iobandw.go:166-174 | The loop attempts a prefix of the requests, and every attempted one before the last succeeded. Without an error it copies all; with one, it stops at the first failing request and returns that request's error and the bytes of the requests before it. Each copy's outcome depends on its position in the batch as well as on its request. |
| Batch.FixedCopy | iobandw.go:151-175 | `filecount` becomes the number of files and `filecopied` grows by at most that number. It grows by exactly that number when no error is returned. |
| Batch.FailFast | iobandw.go:166-170 | If the first failing file is at index i: i files are counted, the bytes of files 0..i-1 are returned with that file's error, and no file after i is attempted. |
| Batch.AllSucceed | iobandw.go:166-174 | If every file succeeds: all are counted and attempted, and the bytes of all are returned without error. |
| Batch.WrittenCountsSuccessesOnly | iobandw.go:167-172 | Bytes that a failing copy reports, such as after a failed sync, are not added to the batch total. |
| Batch.CleanBatchCopiesTotalSize | iobandw.go:151-175 | If each copy transfers exactly its file's size without error, the batch returns the total size of the selected files and counts every file. |
| Batch.LiteralIgnoresEntry | iobandw.go:145-146 | For a literal source, two entries of the same size give the same request, from `src` to `dst`: the name is ignored. |
| Batch.WildcardTargets | iobandw.go:143-144 | For a wildcard source, when `Join(dst, "\\", name)` tells listing names apart, two listing entries with different names never share a destination. |
| Batch.SecondOfThreeFails | iobandw.go:166-170 | In a three-file batch whose second source cannot be opened: one file is counted, the open error is returned, and the third file is never attempted. |
| Batch.RepeatedRequestCanFailSecond | iobandw.go:166-172 | The same request copied twice can succeed first and fail second. Then one file is counted and the second copy's error is returned. |
| Report.ElapsedSeconds | iobandw.go:188-189 | Elapsed whole seconds are the duration in nanoseconds rounded down to a multiple of one second. |
| Report.AverageRate | iobandw.go:189-197 | The average is bytes divided by elapsed seconds, rounded down. An elapsed time of 0 seconds counts as 1, so the average is then the byte count. |
| Report.EstimatedSeconds | iobandw.go:155 | The estimate is the estimated size divided by a positive limit, rounded down. |
| Report.EstimateAsWritten | iobandw.go:155 | The division as written: it fails (a Go panic) exactly when the limit is 0, and otherwise is the rounded-down quotient. |
| Program.GenericCopy | iobandw.go:180-203 | A run dies of `log.Fatal` exactly when the directory cannot be read, and of a divide-by-zero panic exactly when the listing was read, the run is verbose and the limit is 0. Otherwise: `filecopied <= filecount`, the error is nil exactly when they are equal, and a summary is produced exactly in verbose mode. |
| Program.Execute | iobandw.go:251-277 | `main` as written. A configuration error exits 2 and an unreadable directory exits 1, both before any copy. Verbose with a zero limit panics before any copy. Exit 0 implies every selected file was copied. |
| Program.CheckLimit | iobandw.go:223-227 | The corrected argument check keeps exactly the parsed configurations whose limit is positive, unchanged. |
| Program.Run | iobandw.go:251-277 | The corrected `main` never panics. A zero limit exits 2 before any copy. Any other run behaves as `main` as written. |
| Program.ExitStatusOfCopy | iobandw.go:260-276 | Once the listing was read, the status is 0 or 1. It is 0 exactly when every selected file was copied. |
| Program.NothingSelectedExitsZero | iobandw.go:260-276 | A spec that matches nothing exits 0, counts no file and attempts no copy. |
| Program.LiteralSourceCopiesOnce | iobandw.go:143-146 | A literal source with one matching entry in its directory copies `src` to `dst` exactly once. |

## Findings

| source | as written | input that shows it | evidently intended | confidence | as-written member | corrected member |
|---|---|---|---|---|---|---|
| iobandw.go:155 | `ctx.estimatesize/ctx.limit` divides by the parsed limit, and `processArgs` (iobandw.go:223-227) accepts a limit of 0 | `-limit 0 -verbose` with a readable source directory: integer divide-by-zero panic before any file is copied | a zero rate limit is rejected as a configuration error (exit status 2) before any I/O | medium, not executed | Program.Execute | Program.Run |

`Report.EstimateAsWritten` shows the failing division. `Program.Run`
rejects a zero limit through `Program.CheckLimit` and is proved never to panic.

## Left out

- Bandwidth throttling itself (`iothrottler`): time-based pacing inside a foreign library. Creating the pool, `AddReader` and releasing the pool are abstract steps. Whether a zero bandwidth stalls the throttler is not modelled.
- File-system I/O (`os.Open`, `os.Create`, `io.Copy`, `Sync`, `Close`, `ioutil.ReadDir`): each is an input outcome. The source handle's `Close` error is discarded by the code, so it is not an input.
- `log.Fatal` on an unreadable directory is modelled as the `Fatal` outcome and exit status 1, not as a returned error.
- The `err` branch at iobandw.go:129-132 is dead code: `filepath.Match` reports an error only together with `false`. The modelled pattern language has no malformed patterns, so the branch has no counterpart.
- `filepath.Match` character classes `[...]` and backslash escapes: the model treats `[`, `]` and `\` as literal characters. Listing names contain no path separator, so the rule that `*` and `?` never match a separator is not modelled.
- `Glob.Match`: names are sequences of Unicode characters, while `filepath.Match` works on UTF-8 bytes. After a `*`, Go retries at every byte offset, so a `?` can consume a single byte inside a multi-byte character. Go therefore selects some non-ASCII names the model rejects: `*???.txt` selects `日本.txt`. The model is exact on ASCII names.
- `Glob.MatchSound`: for the same reason, "every match is a filling of the pattern" holds for Go on ASCII names only.
- `strings.ToLower` outside ASCII: only `A`-`Z` are lower-cased.
- `Text.Lower`: does not model Unicode case mapping, because only ASCII letters are folded (see above).
- Command-line parsing, the required-flag check and `humanize.ParseBytes`: the parsed result is the input `Args`. Only the missing zero-limit check is modelled (`Program.CheckLimit`).
- Printing, colours, progress dots and OK/KO markers: side effects only. The verbose figures are kept in `Summary`.
- Timestamps: the elapsed time is an input in nanoseconds.
- `Batch.WildcardTargets`: assumes that `Join(dst, "\\", name)` is injective on listing names (`Resolve.ListingName`: not empty, not `.` or `..`, free of `/` and `\`) instead of modelling `filepath.Join`, which cleans its result and so merges other names, such as the empty name and `.`. Names containing `\`, which a Linux listing can return, fall outside the lemma.
- `Report.ElapsedSeconds`: does not model the float rounding of `Duration.Seconds`, which can round up only for durations of roughly 100 days or more.
- Integer widths: sizes, byte counts and counters are unbounded naturals. The 64-bit wrap-around of `estimatesize` and `wholesize` is not modelled, because real file sizes do not reach it.
- `Report.EstimatedSeconds`: does not model the `time.Duration` overflow of `estimate * time.Second` at iobandw.go:155. It is reachable only with a very small `-limit`, for example about 9.3 GB of files at 1 byte per second. It affects only the printed estimate, which then wraps to a negative duration, while `Summary.estimatedSeconds` keeps the unwrapped quotient.
- The global `contexte` record is passed explicitly: as `Config` and `Counters` values.
