/** `getFiles`: the file set of a copy is the listing of `Dir(src)` filtered
    by the pattern `Base(src)`, compared in lower case on both sides. */
module Resolve {
  import opened Common
  import opened Text
  import Glob

  /** One entry of a directory listing (`os.FileInfo`): its name and size.
      Subdirectories are entries like any other. */
  datatype Entry = Entry(name: string, size: nat)

  /** What `ioutil.ReadDir` gives back: the entries, or an error. `ReadDir`
      sorts the entries by name; the model accepts them in any order, so
      every property here holds for the sorted order in particular. */
  datatype Listing = Listed(entries: seq<Entry>) | Unreadable(err: Error)

  /** A directory entry name that is not empty, not `.` or `..`, and free
      of `/` and `\`, so that it is a single path element on every platform. */
  predicate ListingName(n: string) {
    |n| > 0 && n != "." && n != ".." && '/' !in n && '\\' !in n
  }

  /** The result of `getFiles`: the selected entries and the updated counters,
      or the error that `log.Fatal` reports before ending the process. */
  datatype Resolution = Resolved(files: seq<Entry>, counters: Counters) | Fatal(err: Error)

  /** The test `getFiles` applies to one name: both sides lower-cased, then
      matched. It is matching with literal characters compared up to ASCII case. */
  function Keep(pattern: string, name: string): (r: bool)
    ensures r == Glob.MatchFold(pattern, name)
  {
    Glob.MatchLowerIsFold(pattern, name);
    Glob.Match(Lower(pattern), Lower(name))
  }

  /** The entries `getFiles` appends, in listing order. */
  function Select(pattern: string, entries: seq<Entry>): (r: seq<Entry>)
    ensures |r| <= |entries|
    ensures forall e :: e in r ==> e in entries && Keep(pattern, e.name)
    ensures forall e :: e in entries && Keep(pattern, e.name) ==> e in r
  {
    if |entries| == 0 then []
    else if Keep(pattern, entries[0].name) then [entries[0]] + Select(pattern, entries[1..])
    else Select(pattern, entries[1..])
  }

  /** The selection is empty exactly when no entry of the listing matches. */
  lemma {:induction false} SelectEmpty(pattern: string, entries: seq<Entry>)
    ensures |Select(pattern, entries)| == 0 <==> forall e :: e in entries ==> !Keep(pattern, e.name)
  {
    if |entries| > 0 {
      SelectEmpty(pattern, entries[1..]);
      assert forall e :: e in entries <==> e == entries[0] || e in entries[1..];
    }
  }

  /** The sum of the sizes of some entries, added up in order. */
  function TotalSize(entries: seq<Entry>): nat {
    if |entries| == 0 then 0
    else TotalSize(entries[..|entries| - 1]) + entries[|entries| - 1].size
  }

  /** `getFiles`: list `Dir(src)` and keep the entries matching `Base(src)`.
      A literal source goes through the same listing and match. */
  function GetFiles(paths: PathOps, readDir: string -> Listing, src: string, c: Counters): (r: Resolution)
    ensures r.Fatal? <==> readDir(paths.dir(src)).Unreadable?
    ensures r.Resolved? ==>
              && r.files == Select(paths.base(src), readDir(paths.dir(src)).entries)
              && r.counters == c.(estimatesize := c.estimatesize + TotalSize(r.files))
  {
    match readDir(paths.dir(src))
    case Unreadable(e) => Fatal(e)
    case Listed(entries) =>
      var files := Select(paths.base(src), entries);
      Resolved(files, c.(estimatesize := c.estimatesize + TotalSize(files)))
  }

  /** `Select` is a filter: its result is the subsequence of the listing at
      the increasing positions `idx`, and a position is among them exactly
      when its entry matches. */
  lemma {:induction false} SelectIsFilter(pattern: string, entries: seq<Entry>) returns (idx: seq<nat>)
    ensures |idx| == |Select(pattern, entries)|
    ensures forall k :: 0 <= k < |idx| ==> idx[k] < |entries| && Select(pattern, entries)[k] == entries[idx[k]]
    ensures forall k, l :: 0 <= k < l < |idx| ==> idx[k] < idx[l]
    ensures forall i :: 0 <= i < |entries| ==> (i in idx <==> Keep(pattern, entries[i].name))
  {
    var keep := KeepFlags(pattern, entries);
    SelectIsFilterBy(pattern, entries);
    idx := FilterPositions(entries, keep);
  }

  /** Whether each entry of the listing matches. */
  function KeepFlags(pattern: string, entries: seq<Entry>): (keep: seq<bool>)
    ensures |keep| == |entries|
    ensures forall i :: 0 <= i < |entries| ==> keep[i] == Keep(pattern, entries[i].name)
  {
    if |entries| == 0 then [] else [Keep(pattern, entries[0].name)] + KeepFlags(pattern, entries[1..])
  }

  /** The elements of `xs` whose flag is set, in order. */
  function FilterBy<T>(xs: seq<T>, keep: seq<bool>): seq<T>
    requires |xs| == |keep|
  {
    if |xs| == 0 then [] else (if keep[0] then [xs[0]] else []) + FilterBy(xs[1..], keep[1..])
  }

  /** `Select` filters the listing by the match flags of its entries. */
  lemma {:induction false} SelectIsFilterBy(pattern: string, entries: seq<Entry>)
    ensures Select(pattern, entries) == FilterBy(entries, KeepFlags(pattern, entries))
  {
    if |entries| > 0 {
      SelectIsFilterBy(pattern, entries[1..]);
      assert KeepFlags(pattern, entries)[1..] == KeepFlags(pattern, entries[1..]);
    }
  }

  /** The positions a filter keeps: increasing, and exactly those flagged. */
  lemma {:induction false} FilterPositions<T>(xs: seq<T>, keep: seq<bool>) returns (idx: seq<nat>)
    requires |xs| == |keep|
    ensures |idx| == |FilterBy(xs, keep)|
    ensures forall k :: 0 <= k < |idx| ==> idx[k] < |xs| && FilterBy(xs, keep)[k] == xs[idx[k]]
    ensures forall k, l :: 0 <= k < l < |idx| ==> idx[k] < idx[l]
    ensures forall i :: 0 <= i < |xs| ==> (i in idx <==> keep[i])
  {
    if |xs| == 0 {
      idx := [];
    } else {
      var rest := FilterPositions(xs[1..], keep[1..]);
      var tail := FilterBy(xs[1..], keep[1..]);
      forall k | 0 <= k < |rest|
        ensures rest[k] < |xs| - 1 && tail[k] == xs[rest[k] + 1]
      {
        assert xs[1..][rest[k]] == xs[rest[k] + 1];
      }
      forall i | 0 <= i < |xs| - 1
        ensures i in rest <==> keep[i + 1]
      {
        assert keep[1..][i] == keep[i + 1];
      }
      idx := PrependPositions(xs, keep, tail, rest);
    }
  }

  /** Positions of a filter, extended by one element in front: `rest` are the
      positions in `xs[1..]` of the elements that make up `tail`. */
  lemma PrependPositions<T>(xs: seq<T>, keep: seq<bool>, tail: seq<T>, rest: seq<nat>) returns (idx: seq<nat>)
    requires |xs| == |keep| > 0
    requires |rest| == |tail|
    requires forall k :: 0 <= k < |rest| ==> rest[k] < |xs| - 1 && tail[k] == xs[rest[k] + 1]
    requires forall k, l :: 0 <= k < l < |rest| ==> rest[k] < rest[l]
    requires forall i :: 0 <= i < |xs| - 1 ==> (i in rest <==> keep[i + 1])
    ensures var sel := (if keep[0] then [xs[0]] else []) + tail;
            |idx| == |sel| && forall k :: 0 <= k < |idx| ==> idx[k] < |xs| && sel[k] == xs[idx[k]]
    ensures forall k, l :: 0 <= k < l < |idx| ==> idx[k] < idx[l]
    ensures forall i :: 0 <= i < |xs| ==> (i in idx <==> keep[i])
  {
    var shifted := Shift(rest);
    var head: seq<nat> := if keep[0] then [0] else [];
    idx := head + shifted;
    var sel := (if keep[0] then [xs[0]] else []) + tail;
    forall k | 0 <= k < |idx|
      ensures idx[k] < |xs| && sel[k] == xs[idx[k]]
    {
      if k >= |head| {
        assert idx[k] == shifted[k - |head|];
      }
    }
    ShiftedIncreasing(rest, shifted, head, idx);
    ShiftedMembers(rest, shifted, head, idx, |xs|);
  }

  /** Every position moved one place on. */
  function Shift(s: seq<nat>): (r: seq<nat>)
    ensures |r| == |s|
    ensures forall k :: 0 <= k < |s| ==> r[k] == s[k] + 1
  {
    if |s| == 0 then [] else [s[0] + 1] + Shift(s[1..])
  }

  /** Positions shifted by one stay increasing, also behind a leading zero. */
  lemma ShiftedIncreasing(rest: seq<nat>, shifted: seq<nat>, head: seq<nat>, idx: seq<nat>)
    requires |shifted| == |rest|
    requires forall k :: 0 <= k < |rest| ==> shifted[k] == rest[k] + 1
    requires forall k, l :: 0 <= k < l < |rest| ==> rest[k] < rest[l]
    requires head == [] || head == [0]
    requires idx == head + shifted
    ensures forall k, l :: 0 <= k < l < |idx| ==> idx[k] < idx[l]
  {
    forall k, l | 0 <= k < l < |idx|
      ensures idx[k] < idx[l]
    {
      var h := |head|;
      assert idx[l] == shifted[l - h];
      if k >= h {
        assert idx[k] == shifted[k - h];
      }
    }
  }

  /** Adding one to every position of `rest` gives `shifted`; position 0 is
      present exactly when the head holds it. */
  lemma ShiftedMembers(rest: seq<nat>, shifted: seq<nat>, head: seq<nat>, idx: seq<nat>, n: nat)
    requires |shifted| == |rest|
    requires forall k :: 0 <= k < |rest| ==> shifted[k] == rest[k] + 1
    requires head == [] || head == [0]
    requires idx == head + shifted
    ensures 0 in idx <==> head == [0]
    ensures forall i :: 1 <= i < n ==> (i in idx <==> i - 1 in rest)
  {
    forall i | 1 <= i < n
      ensures i in idx <==> i - 1 in rest
    {
      if i in idx {
        var k :| 0 <= k < |idx| && idx[k] == i;
        assert shifted[k - |head|] == i;
        assert rest[k - |head|] == i - 1;
      }
      if i - 1 in rest {
        var k :| 0 <= k < |rest| && rest[k] == i - 1;
        assert idx[k + |head|] == i;
      }
    }
  }

  /** A literal pattern keeps exactly the entries whose name equals it up to
      ASCII case, so a literal source may select no entry, or several. */
  lemma LiteralKeep(pattern: string, name: string)
    requires !IsWildcard(pattern)
    ensures Keep(pattern, name) <==> Lower(name) == Lower(pattern)
  {
    IsWildcardLower(pattern);
    Glob.LiteralMatch(Lower(pattern), Lower(name));
  }

  /** Matching ignores ASCII case on both sides: the cases of the fix in version 1.2. */
  lemma CaseInsensitiveCases()
    ensures Keep("*.TXT", "a.txt")
    ensures Keep("*.txt", "A.TXT")
  {
    assert Lower("*.TXT") == "*.txt";
    assert Lower("a.txt") == "a.txt";
    assert Lower("*.txt") == "*.txt";
    assert Lower("A.TXT") == "a.txt";
    Glob.StarAbsorbs("*.txt", "a", ".txt");
    Glob.LiteralMatch(".txt", ".txt");
    assert "a" + ".txt" == "a.txt";
  }

  /** Names equal up to ASCII case are kept or dropped together, and so are patterns. */
  lemma {:induction false} KeepIgnoresCase(p1: string, p2: string, n1: string, n2: string)
    requires Lower(p1) == Lower(p2) && Lower(n1) == Lower(n2)
    ensures Keep(p1, n1) == Keep(p2, n2)
    ensures Keep(p1, n1) == Glob.MatchFold(p2, n2)
  {
  }
}
