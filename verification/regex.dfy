/** Anchored regular expressions of the kind used in CHECK constraints and in the JSON Schema
    `pattern` keyword: classes, concatenation and counted repetition. */
module Regex {
  import opened Strings

  datatype Re =
    | Cls(has: char -> bool)
    | Cat(left: Re, right: Re)
    | Rep(body: Re, lo: nat, hi: Option<nat>)   // {lo,hi}; no hi means unbounded

  /** `^re$` matches `s`. */
  ghost predicate Matches(re: Re, s: string)
    decreases re, |s| + 1, 0
  {
    match re
    case Cls(has) => |s| == 1 && has(s[0])
    case Cat(l, r) => exists k :: 0 <= k <= |s| && Matches2(l, r, s, k)
    case Rep(b, lo, hi) => MatchesRep(re, b, lo, hi, s)
  }

  ghost predicate Matches2(l: Re, r: Re, s: string, k: nat)
    requires k <= |s|
    decreases Cat(l, r), 0, 0
  {
    Matches(l, s[..k]) && Matches(r, s[k..])
  }

  /** `s` is cut into between `lo` and `hi` pieces that each match `b`. Pieces beyond the first
      `lo` are not empty. */
  ghost predicate MatchesRep(re: Re, b: Re, lo: nat, hi: Option<nat>, s: string)
    requires b < re
    decreases re, |s|, lo
  {
    || (lo == 0 && s == [])
    || ((hi.Some? ==> hi.value > 0) &&
        exists k :: (if lo == 0 then 0 < k else 0 <= k) && k <= |s| && Matches(b, s[..k]) &&
          MatchesRep(re, b, Pred(lo), PredHi(hi), s[k..]))
  }

  function Pred(n: nat): nat { if n == 0 then 0 else n - 1 }
  function PredHi(hi: Option<nat>): Option<nat> {
    match hi case None => None case Some(n) => Some(Pred(n))
  }

  predicate Within(n: nat, lo: nat, hi: Option<nat>) {
    lo <= n && (hi.Some? ==> n <= hi.value)
  }

  /** A repeated class matches exactly the strings over that class of an allowed length. */
  lemma RepClass(has: char -> bool, lo: nat, hi: Option<nat>, s: string)
    requires hi.Some? ==> lo <= hi.value
    ensures Matches(Rep(Cls(has), lo, hi), s) <==> Within(|s|, lo, hi) && All(s, has)
  {
    RepClassAux(Rep(Cls(has), lo, hi), has, lo, hi, s);
  }

  lemma {:induction false} RepClassAux(re: Re, has: char -> bool, lo: nat, hi: Option<nat>, s: string)
    requires Cls(has) < re
    requires hi.Some? ==> lo <= hi.value
    ensures MatchesRep(re, Cls(has), lo, hi, s) <==> Within(|s|, lo, hi) && All(s, has)
    decreases |s|
  {
    if s != [] {
      RepClassAux(re, has, Pred(lo), PredHi(hi), s[1..]);
      var here := (hi.Some? ==> hi.value > 0) && has(s[0]) && MatchesRep(re, Cls(has), Pred(lo), PredHi(hi), s[1..]);
      assert s[..1] == [s[0]];
      if MatchesRep(re, Cls(has), lo, hi, s) {
        var k :| (if lo == 0 then 0 < k else 0 <= k) && k <= |s| && Matches(Cls(has), s[..k]) &&
                 MatchesRep(re, Cls(has), Pred(lo), PredHi(hi), s[k..]);
        assert k == 1;
        assert here;
      }
      if Within(|s|, lo, hi) && All(s, has) {
        assert Matches(Cls(has), s[..1]);
        assert here;
      }
      if here {
        assert forall i :: 0 < i < |s| ==> s[i] == s[1..][i - 1];
      }
    }
  }

  lemma CatAt(l: Re, r: Re, a: string, b: string)
    requires Matches(l, a) && Matches(r, b)
    ensures Matches(Cat(l, r), a + b)
  {
    var s := a + b;
    assert s[..|a|] == a && s[|a|..] == b;
    assert Matches2(l, r, s, |a|);
  }

  lemma CatSplit(l: Re, r: Re, s: string) returns (k: nat)
    requires Matches(Cat(l, r), s)
    ensures k <= |s| && Matches(l, s[..k]) && Matches(r, s[k..])
  {
    k :| 0 <= k <= |s| && Matches2(l, r, s, k);
  }

  /** The fixed text `lit`, then `re`. */
  function Literal(lit: string, re: Re): Re {
    if lit == [] then re else Cat(Cls(c => c == lit[0]), Literal(lit[1..], re))
  }

  lemma {:induction false} LiteralMatches(lit: string, re: Re, s: string)
    ensures Matches(Literal(lit, re), s) <==> lit <= s && Matches(re, s[|lit|..])
  {
    if lit == [] {
      assert s[0..] == s;
    } else {
      var first := Cls(c => c == lit[0]);
      var rest := Literal(lit[1..], re);
      if Matches(Literal(lit, re), s) {
        var k := CatSplit(first, rest, s);
        assert k == 1;
        LiteralMatches(lit[1..], re, s[1..]);
        assert s[1..][|lit| - 1..] == s[|lit|..];
        assert s[0] == lit[0];
        assert lit == [lit[0]] + lit[1..] && s == [s[0]] + s[1..];
      }
      if lit <= s && Matches(re, s[|lit|..]) {
        LiteralMatches(lit[1..], re, s[1..]);
        assert s[1..][|lit| - 1..] == s[|lit|..];
        assert s == [s[0]] + s[1..];
        assert Matches(first, [s[0]]);
        CatAt(first, rest, [s[0]], s[1..]);
      }
    }
  }
}
