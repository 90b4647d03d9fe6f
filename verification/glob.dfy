/** The pattern matcher behind `getFiles`: `filepath.Match` restricted to the
    pattern language of `*` (any run of characters), `?` (exactly one
    character) and literal characters. Directory entry names carry no path
    separator, so the separator rule of `filepath.Match` never fires. */
module Glob {
  import opened Text

  /** The number of `*` in a pattern. */
  function Stars(p: string): (n: nat)
    ensures n <= |p|
  {
    if |p| == 0 then 0 else (if p[0] == '*' then 1 else 0) + Stars(p[1..])
  }

  /** Does pattern `p` match the whole of `s`? Every character of `p` other
      than `*` consumes exactly one character of `s`, so a match is at least
      that long, and exactly that long when `p` has no `*`. */
  function Match(p: string, s: string): (r: bool)
    ensures r ==> |p| - Stars(p) <= |s|
    ensures r && Stars(p) == 0 ==> |s| == |p|
    decreases |p| + |s|
  {
    if |p| == 0 then |s| == 0
    else if p[0] == '*' then Match(p[1..], s) || (|s| > 0 && Match(p, s[1..]))
    else |s| > 0 && (p[0] == '?' || p[0] == s[0]) && Match(p[1..], s[1..])
  }

  /** A choice of text `w` for the metacharacters of `p`, one per
      metacharacter in order: any text for `*`, one character for `?`. */
  predicate Fits(p: string, w: seq<string>)
    decreases |p|
  {
    if |p| == 0 then |w| == 0
    else if p[0] == '*' then |w| > 0 && Fits(p[1..], w[1..])
    else if p[0] == '?' then |w| > 0 && |w[0]| == 1 && Fits(p[1..], w[1..])
    else Fits(p[1..], w)
  }

  /** The text obtained from `p` by replacing each metacharacter with its choice in `w`. */
  function Expand(p: string, w: seq<string>): string
    requires Fits(p, w)
    decreases |p|
  {
    if |p| == 0 then []
    else if IsMeta(p[0]) then w[0] + Expand(p[1..], w[1..])
    else [p[0]] + Expand(p[1..], w)
  }

  /** A leading `*` absorbs any prefix in front of a match of the rest. */
  lemma {:induction false} StarAbsorbs(p: string, f: string, t: string)
    requires |p| > 0 && p[0] == '*' && Match(p[1..], t)
    ensures Match(p, f + t)
    decreases |f|
  {
    if |f| == 0 {
      assert f + t == t;
    } else {
      StarAbsorbs(p, f[1..], t);
      assert (f + t)[1..] == f[1..] + t;
    }
  }

  /** Every instance of a pattern is matched by it. */
  lemma {:induction false} MatchComplete(p: string, w: seq<string>)
    requires Fits(p, w)
    ensures Match(p, Expand(p, w))
    decreases |p|
  {
    if |p| > 0 {
      if p[0] == '*' {
        MatchComplete(p[1..], w[1..]);
        StarAbsorbs(p, w[0], Expand(p[1..], w[1..]));
      } else if p[0] == '?' {
        MatchComplete(p[1..], w[1..]);
        var s := Expand(p, w);
        assert s[1..] == Expand(p[1..], w[1..]);
      } else {
        MatchComplete(p[1..], w);
        var s := Expand(p, w);
        assert s[1..] == Expand(p[1..], w);
      }
    }
  }

  /** Everything a pattern matches is an instance of it. */
  lemma {:induction false} MatchSound(p: string, s: string) returns (w: seq<string>)
    requires Match(p, s)
    ensures Fits(p, w) && Expand(p, w) == s
    decreases |p| + |s|
  {
    if |p| == 0 {
      w := [];
    } else if p[0] == '*' {
      if Match(p[1..], s) {
        var w' := MatchSound(p[1..], s);
        w := [[]] + w';
        assert w[1..] == w';
      } else {
        var w' := MatchSound(p, s[1..]);
        w := [[s[0]] + w'[0]] + w'[1..];
        assert w[1..] == w'[1..];
        assert s == [s[0]] + s[1..];
      }
    } else if p[0] == '?' {
      var w' := MatchSound(p[1..], s[1..]);
      w := [[s[0]]] + w';
      assert w[1..] == w';
      assert s == [s[0]] + s[1..];
    } else {
      w := MatchSound(p[1..], s[1..]);
      assert s == [s[0]] + s[1..];
    }
  }

  /** A pattern without metacharacters matches exactly itself. */
  lemma {:induction false} LiteralMatch(p: string, s: string)
    requires !IsWildcard(p)
    ensures Match(p, s) <==> p == s
    decreases |p| + |s|
  {
    if |p| > 0 {
      assert !IsMeta(p[0]);
      assert !IsWildcard(p[1..]) by {
        forall i | 0 <= i < |p[1..]| ensures !IsMeta(p[1..][i]) {
          assert p[1..][i] == p[i + 1];
        }
      }
      if |s| > 0 {
        LiteralMatch(p[1..], s[1..]);
        assert p == [p[0]] + p[1..] && s == [s[0]] + s[1..];
      }
    }
  }

  /** Pattern `*` selects every name. */
  lemma {:induction false} StarMatchesAll(s: string)
    ensures Match("*", s)
  {
    StarAbsorbs("*", s, []);
    assert s + [] == s;
  }

  /** A matcher that compares literal characters up to ASCII case: the
      reference for matching after lower-casing both sides. */
  function MatchFold(p: string, s: string): bool
    decreases |p| + |s|
  {
    if |p| == 0 then |s| == 0
    else if p[0] == '*' then MatchFold(p[1..], s) || (|s| > 0 && MatchFold(p, s[1..]))
    else |s| > 0 && (p[0] == '?' || LowerChar(p[0]) == LowerChar(s[0])) && MatchFold(p[1..], s[1..])
  }

  /** Lower-casing pattern and name before matching, as `getFiles` does, is
      matching with literal characters compared up to ASCII case. */
  lemma {:induction false} MatchLowerIsFold(p: string, s: string)
    ensures Match(Lower(p), Lower(s)) == MatchFold(p, s)
    decreases |p| + |s|
  {
    var lp, ls := Lower(p), Lower(s);
    if |p| > 0 {
      LowerChar_Meta(p[0]);
      assert lp[1..] == Lower(p[1..]);
      if |s| > 0 {
        assert ls[1..] == Lower(s[1..]);
        MatchLowerIsFold(p[1..], s[1..]);
        MatchLowerIsFold(p, s[1..]);
      }
      MatchLowerIsFold(p[1..], s);
    }
  }
}
