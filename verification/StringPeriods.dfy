/** str_repeats: the shortest prefix of which a string is a (possibly truncated) repetition. */
module StringPeriods {
  import opened Wrappers

  function Repeat(s: string, k: nat): (r: string)
    ensures |r| == k * |s|
  {
    if k == 0 then [] else s + Repeat(s, k - 1)
  }

  /** The prefix of length x repeated, and cut to the length of the string. */
  function Repetition(s: string, x: nat): string
    requires 1 <= x <= |s|
  {
    Repeat(s[..x], |s| / x) + s[..x][..|s| % x]
  }

  predicate HasPeriod(s: string, x: nat) {
    forall i :: x <= i < |s| ==> s[i] == s[i - x]
  }

  /** A proper prefix that is also a suffix. */
  predicate IsBorder(s: string, b: nat) {
    b < |s| && s[..b] == s[|s| - b..]
  }

  lemma {:induction false} RepeatHasPeriod(p: string, k: nat, m: nat)
    requires m < |p|
    ensures var t := Repeat(p, k) + p[..m]; HasPeriod(t, |p|) && (k >= 1 ==> p <= t) && p[..m] <= t
  {
    if k > 0 {
      RepeatHasPeriod(p, k - 1, m);
      var t, u := Repeat(p, k) + p[..m], Repeat(p, k - 1) + p[..m];
      assert t == p + u;
      forall i | |p| <= i < |t| ensures t[i] == t[i - |p|] {
        assert t[i] == u[i - |p|];
        if i < 2 * |p| {
          assert t[i - |p|] == p[i - |p|];
          assert k == 1 ==> u == p[..m];
        } else {
          assert t[i - |p|] == u[i - 2 * |p|];
        }
      }
    }
  }

  lemma {:induction false} PeriodDetermines(s: string, t: string, x: nat, i: nat)
    requires 1 <= x && |s| == |t| && HasPeriod(s, x) && HasPeriod(t, x) && i < |s|
    requires forall j :: 0 <= j < x && j < |s| ==> s[j] == t[j]
    ensures s[i] == t[i]
  {
    if i >= x {
      PeriodDetermines(s, t, x, i - x);
    }
  }

  /** Repetition, period and border are the same thing. */
  lemma {:induction false} RepetitionExactly(s: string, x: nat)
    requires 1 <= x < |s|
    ensures Repetition(s, x) == s <==> HasPeriod(s, x)
    ensures HasPeriod(s, x) <==> IsBorder(s, |s| - x)
  {
    var p, t := s[..x], Repetition(s, x);
    RepeatHasPeriod(p, |s| / x, |s| % x);
    assert |s| / x >= 1;
    assert |s| / x * x + |s| % x == |s|;
    if HasPeriod(s, x) {
      forall i | 0 <= i < |s| ensures s[i] == t[i] {
        assert forall j :: 0 <= j < x ==> s[j] == p[j] == t[j];
        PeriodDetermines(s, t, x, i);
      }
      assert s == t;
    }
    var b := |s| - x;
    if IsBorder(s, b) {
      forall i | x <= i < |s| ensures s[i] == s[i - x] {
        assert s[..b][i - x] == s[x..][i - x];
      }
    }
  }

  /** The first prefix that works is returned: the shortest one, whose length is that of the string less
      its longest border; nothing is returned exactly when there is no border but the empty one. */
  method StrRepeats(s: string) returns (r: Option<string>)
    ensures r.None? <==> forall b :: 1 <= b < |s| ==> !IsBorder(s, b)
    ensures r.Some? ==>
      var x := |r.value|;
      && 1 <= x < |s| && r.value == s[..x] && Repetition(s, x) == s
      && (forall y :: 1 <= y < x ==> Repetition(s, y) != s)
      && IsBorder(s, |s| - x)
      && (forall b :: |s| - x < b < |s| ==> !IsBorder(s, b))
  {
    var x := 1;
    while x < |s|
      invariant 1 <= x
      invariant forall y :: 1 <= y < x && y < |s| ==> Repetition(s, y) != s
      invariant forall b: nat :: |s| - x < b < |s| ==> !IsBorder(s, b)
    {
      var substring := s[..x];
      RepetitionExactly(s, x);
      if Repeat(substring, |s| / |substring|) + substring[..|s| % |substring|] == s {
        return Some(substring);
      }
      x := x + 1;
    }
    return None;
  }
}
