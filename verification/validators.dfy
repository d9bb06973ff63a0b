/** Request validation of the provisioning API (crates/admin-api/src/models.rs) against the CHECK
    constraints of the tables the requests end up in (migrations/0001_control_plane.sql). */
module Validators {
  import opened Strings
  import opened Regex

  predicate IsLower(c: char) { 'a' <= c <= 'z' }
  predicate IsAlnum(c: char) { IsLower(c) || IsDigit(c) }
  predicate IsNameChar(c: char) { IsAlnum(c) || c == '-' }

  predicate StartsWith(s: string, c: char) { s != [] && s[0] == c }
  predicate EndsWith(s: string, c: char) { s != [] && s[|s| - 1] == c }

  // ------------------------------------------------------------------------
  // The validators, as written
  // ------------------------------------------------------------------------

  predicate ValidateSlug(slug: string) {
    && 2 <= Utf8Len(slug) <= 63
    && All(slug, IsNameChar)
    && !StartsWith(slug, '-')
    && !EndsWith(slug, '-')
  }

  predicate ValidLabel(part: string) {
    && part != []
    && Utf8Len(part) <= 63
    && All(part, IsNameChar)
    && !StartsWith(part, '-')
    && !EndsWith(part, '-')
  }

  predicate ValidateFqdn(fqdn: string) {
    && Utf8Len(fqdn) <= 253
    && '.' in fqdn
    && forall i :: 0 <= i < |Split(fqdn, '.')| ==> ValidLabel(Split(fqdn, '.')[i])
  }

  predicate ValidateLocalPart(local: string) {
    && 1 <= Utf8Len(local) <= 64
    && All(local, c => IsAlnum(c) || c in {'.', '-', '_', '+'})
    && !StartsWith(local, '.')
    && !EndsWith(local, '.')
  }

  // ------------------------------------------------------------------------
  // The CHECK constraints
  // ------------------------------------------------------------------------

  /** `^[a-z0-9][a-z0-9-]{1,62}$` */
  function SlugRe(): Re { Cat(Cls(IsAlnum), Rep(Cls(IsNameChar), 1, Some(62))) }

  /** `[a-z0-9-]{0,61}[a-z0-9]` */
  function LabelTailRe(): Re { Cat(Rep(Cls(IsNameChar), 0, Some(61)), Cls(IsAlnum)) }

  /** `[a-z0-9]([a-z0-9-]{0,61}[a-z0-9])?` */
  function LabelRe(): Re { Cat(Cls(IsAlnum), Rep(LabelTailRe(), 0, Some(1))) }

  predicate IsDot(c: char) { c == '.' }

  /** One label and its dot. */
  function DottedRe(): Re { Cat(LabelRe(), Cls(IsDot)) }

  /** `^([a-z0-9]([a-z0-9-]{0,61}[a-z0-9])?\.)+[a-z]{2,63}$` */
  function FqdnRe(): Re { Cat(Rep(DottedRe(), 1, None), Rep(Cls(IsLower), 2, Some(63))) }

  ghost predicate SlugCheck(slug: string) { Matches(SlugRe(), slug) }
  ghost predicate FqdnCheck(fqdn: string) { Matches(FqdnRe(), fqdn) }

  // ------------------------------------------------------------------------
  // How they relate
  // ------------------------------------------------------------------------

  lemma NameCharsAreAscii(s: string)
    requires All(s, IsNameChar)
    ensures Utf8Len(s) == |s|
  {
    AsciiLen(s);
  }

  /** The CHECK on slugs is met exactly by the validator's slugs and those ending in a hyphen
      that the validator would take without that rule. */
  lemma SlugCheckVersusValidator(slug: string)
    ensures SlugCheck(slug) <==>
            2 <= |slug| <= 63 && All(slug, IsNameChar) && !StartsWith(slug, '-')
    ensures ValidateSlug(slug) <==> SlugCheck(slug) && !EndsWith(slug, '-')
  {
    if SlugCheck(slug) {
      var k := CatSplit(Cls(IsAlnum), Rep(Cls(IsNameChar), 1, Some(62)), slug);
      assert k == 1;
      RepClass(IsNameChar, 1, Some(62), slug[1..]);
      assert forall i :: 0 < i < |slug| ==> slug[i] == slug[1..][i - 1];
      assert slug[..1][0] == slug[0];
    }
    if 2 <= |slug| <= 63 && All(slug, IsNameChar) && !StartsWith(slug, '-') {
      RepClass(IsNameChar, 1, Some(62), slug[1..]);
      assert slug == [slug[0]] + slug[1..];
      assert Matches(Cls(IsAlnum), [slug[0]]);
      CatAt(Cls(IsAlnum), Rep(Cls(IsNameChar), 1, Some(62)), [slug[0]], slug[1..]);
    }
    if All(slug, IsNameChar) { NameCharsAreAscii(slug); }
  }

  lemma LabelTailMatches(s: string)
    ensures Matches(LabelTailRe(), s) <==>
            1 <= |s| <= 62 && All(s, IsNameChar) && IsAlnum(s[|s| - 1])
  {
    var body := Rep(Cls(IsNameChar), 0, Some(61));
    if Matches(LabelTailRe(), s) {
      var k := CatSplit(body, Cls(IsAlnum), s);
      assert k == |s| - 1 && s[k..][0] == s[k];
      RepClass(IsNameChar, 0, Some(61), s[..k]);
      assert forall i :: 0 <= i < k ==> s[i] == s[..k][i];
    }
    if 1 <= |s| <= 62 && All(s, IsNameChar) && IsAlnum(s[|s| - 1]) {
      var k := |s| - 1;
      RepClass(IsNameChar, 0, Some(61), s[..k]);
      assert s[k..] == [s[k]];
      assert Matches(Cls(IsAlnum), s[k..]);
      CatAt(body, Cls(IsAlnum), s[..k], s[k..]);
      assert s == s[..k] + s[k..];
    }
  }

  lemma OptionalTail(s: string)
    ensures Matches(Rep(LabelTailRe(), 0, Some(1)), s) <==> s == [] || Matches(LabelTailRe(), s)
  {
    var re := Rep(LabelTailRe(), 0, Some(1));
    if Matches(re, s) && s != [] {
      assert MatchesRep(re, LabelTailRe(), 0, Some(1), s);
      var k :| 0 < k <= |s| && Matches(LabelTailRe(), s[..k]) &&
               MatchesRep(re, LabelTailRe(), Pred(0), PredHi(Some(1)), s[k..]);
      assert s[k..] == [];
      assert s[..k] == s;
    }
    if s != [] && Matches(LabelTailRe(), s) {
      assert s[..|s|] == s && s[|s|..] == [];
      assert MatchesRep(re, LabelTailRe(), Pred(0), PredHi(Some(1)), s[|s|..]);
    }
  }

  /** The label part of the CHECK is exactly the validator's rule for one label. */
  lemma LabelMatches(s: string)
    ensures Matches(LabelRe(), s) <==> ValidLabel(s)
  {
    var tail := Rep(LabelTailRe(), 0, Some(1));
    if Matches(LabelRe(), s) {
      var k := CatSplit(Cls(IsAlnum), tail, s);
      assert k == 1 && s[..1][0] == s[0];
      OptionalTail(s[1..]);
      LabelTailMatches(s[1..]);
      assert forall i :: 0 < i < |s| ==> s[i] == s[1..][i - 1];
      NameCharsAreAscii(s);
    }
    if ValidLabel(s) {
      NameCharsAreAscii(s);
      assert IsAlnum(s[0]) && IsAlnum(s[|s| - 1]);
      assert s == [s[0]] + s[1..];
      OptionalTail(s[1..]);
      LabelTailMatches(s[1..]);
      assert Matches(Cls(IsAlnum), [s[0]]);
      CatAt(Cls(IsAlnum), tail, [s[0]], s[1..]);
    }
  }

  lemma DottedMatches(s: string)
    ensures Matches(DottedRe(), s) <==> s != [] && s[|s| - 1] == '.' && ValidLabel(s[..|s| - 1])
  {
    if Matches(DottedRe(), s) {
      var k := CatSplit(LabelRe(), Cls(IsDot), s);
      assert k == |s| - 1 && s[k..][0] == s[k];
      LabelMatches(s[..k]);
    }
    if s != [] && s[|s| - 1] == '.' && ValidLabel(s[..|s| - 1]) {
      var k := |s| - 1;
      LabelMatches(s[..k]);
      assert s[k..] == ['.'];
      assert Matches(Cls(IsDot), s[k..]);
      CatAt(LabelRe(), Cls(IsDot), s[..k], s[k..]);
      assert s == s[..k] + s[k..];
    }
  }

  predicate IsLocalChar(c: char) { IsAlnum(c) || c == '.' || c == '+' || c == '_' || c == '-' }
  predicate IsLocalEdge(c: char) { IsAlnum(c) || c == '+' || c == '_' || c == '-' }

  /** `[a-z0-9.+_-]{0,62}[a-z0-9+_-]` */
  function LocalTailRe(): Re { Cat(Rep(Cls(IsLocalChar), 0, Some(62)), Cls(IsLocalEdge)) }

  /** `^[a-z0-9+_-]([a-z0-9.+_-]{0,62}[a-z0-9+_-])?$` */
  function LocalPartRe(): Re { Cat(Cls(IsLocalEdge), Rep(LocalTailRe(), 0, Some(1))) }

  lemma LocalTailMatches(s: string)
    ensures Matches(LocalTailRe(), s) <==> 1 <= |s| <= 63 && All(s, IsLocalChar) && IsLocalEdge(s[|s| - 1])
  {
    var body := Rep(Cls(IsLocalChar), 0, Some(62));
    if Matches(LocalTailRe(), s) {
      var k := CatSplit(body, Cls(IsLocalEdge), s);
      assert k == |s| - 1 && s[k..][0] == s[k];
      RepClass(IsLocalChar, 0, Some(62), s[..k]);
      assert forall i :: 0 <= i < k ==> s[i] == s[..k][i];
    }
    if 1 <= |s| <= 63 && All(s, IsLocalChar) && IsLocalEdge(s[|s| - 1]) {
      var k := |s| - 1;
      RepClass(IsLocalChar, 0, Some(62), s[..k]);
      assert s[k..] == [s[k]];
      assert Matches(Cls(IsLocalEdge), s[k..]);
      CatAt(body, Cls(IsLocalEdge), s[..k], s[k..]);
      assert s == s[..k] + s[k..];
    }
  }

  lemma OptionalLocalTail(s: string)
    ensures Matches(Rep(LocalTailRe(), 0, Some(1)), s) <==> s == [] || Matches(LocalTailRe(), s)
  {
    var re := Rep(LocalTailRe(), 0, Some(1));
    if Matches(re, s) && s != [] {
      assert MatchesRep(re, LocalTailRe(), 0, Some(1), s);
      var k :| 0 < k <= |s| && Matches(LocalTailRe(), s[..k]) &&
               MatchesRep(re, LocalTailRe(), Pred(0), PredHi(Some(1)), s[k..]);
      assert s[k..] == [];
      assert s[..k] == s;
    }
    if s != [] && Matches(LocalTailRe(), s) {
      assert s[..|s|] == s && s[|s|..] == [];
      assert MatchesRep(re, LocalTailRe(), Pred(0), PredHi(Some(1)), s[|s|..]);
    }
  }

  lemma LocalCharsAreAscii(s: string)
    requires All(s, IsLocalChar)
    ensures Utf8Len(s) == |s|
  {
    AsciiLen(s);
  }

  /** The local part the request may name, as one expression: 1 to 64 of `[a-z0-9.+_-]` without a
      dot at either end. */
  lemma LocalPartMatches(local: string)
    ensures ValidateLocalPart(local) <==> Matches(LocalPartRe(), local)
  {
    var tail := Rep(LocalTailRe(), 0, Some(1));
    if Matches(LocalPartRe(), local) {
      var k := CatSplit(Cls(IsLocalEdge), tail, local);
      assert k == 1 && local[..1][0] == local[0];
      OptionalLocalTail(local[1..]);
      LocalTailMatches(local[1..]);
      assert forall i :: 0 < i < |local| ==> local[i] == local[1..][i - 1];
      LocalCharsAreAscii(local);
    }
    if ValidateLocalPart(local) {
      assert All(local, IsLocalChar);
      LocalCharsAreAscii(local);
      assert IsLocalEdge(local[0]) && IsLocalEdge(local[|local| - 1]);
      assert local == [local[0]] + local[1..];
      OptionalLocalTail(local[1..]);
      LocalTailMatches(local[1..]);
      assert Matches(Cls(IsLocalEdge), [local[0]]);
      CatAt(Cls(IsLocalEdge), tail, [local[0]], local[1..]);
    }
  }

  predicate AllLabels(parts: seq<string>) {
    forall i :: 0 <= i < |parts| ==> ValidLabel(parts[i])
  }

  function DotEach(labels: seq<string>): string {
    if labels == [] then "" else labels[0] + "." + DotEach(labels[1..])
  }

  /** What the repeated part of the CHECK matches: some labels, each with its dot. */
  lemma {:induction false} DottedRun(re: Re, lo: nat, s: string) returns (labels: seq<string>)
    requires DottedRe() < re && lo <= 1
    requires MatchesRep(re, DottedRe(), lo, None, s)
    ensures s == DotEach(labels) && AllLabels(labels) && |labels| >= lo
    decreases |s|
  {
    if lo == 0 && s == [] {
      labels := [];
    } else {
      var k :| 0 <= k <= |s| && Matches(DottedRe(), s[..k]) &&
               MatchesRep(re, DottedRe(), Pred(lo), PredHi(None), s[k..]);
      DottedMatches(s[..k]);
      var rest := DottedRun(re, 0, s[k..]);
      labels := [s[..k - 1]] + rest;
      assert s[..k] == s[..k - 1] + ".";
      assert s[..k][..k - 1] == s[..k - 1];
      assert s == s[..k] + s[k..];
      assert labels[1..] == rest;
    }
  }

  lemma {:induction false} DottedRunMatches(re: Re, lo: nat, labels: seq<string>)
    requires DottedRe() < re && lo <= 1 && |labels| >= lo && AllLabels(labels)
    ensures MatchesRep(re, DottedRe(), lo, None, DotEach(labels))
    decreases |labels|
  {
    if labels != [] {
      var s, k := DotEach(labels), |labels[0]| + 1;
      DottedRunMatches(re, 0, labels[1..]);
      assert s[..k] == labels[0] + "." && s[k..] == DotEach(labels[1..]);
      assert s[..k][..k - 1] == labels[0];
      DottedMatches(s[..k]);
      assert MatchesRep(re, DottedRe(), Pred(lo), PredHi(None), s[k..]);
    }
  }

  lemma LabelsHaveNoDot(s: string)
    requires All(s, IsNameChar)
    ensures '.' !in s && '@' !in s && '\n' !in s
  {}

  lemma {:induction false} SplitDotEach(labels: seq<string>, last: string)
    requires AllLabels(labels) && All(last, IsNameChar)
    ensures Split(DotEach(labels) + last, '.') == labels + [last]
  {
    if labels == [] {
      assert DotEach(labels) + last == last;
      LabelsHaveNoDot(last);
      SplitWithout(last, '.');
    } else {
      SplitDotEach(labels[1..], last);
      LabelsHaveNoDot(labels[0]);
      SplitPiece(labels[0], '.', DotEach(labels[1..]) + last);
      assert DotEach(labels) + last == labels[0] + "." + (DotEach(labels[1..]) + last);
      assert labels == [labels[0]] + labels[1..];
    }
  }

  lemma {:induction false} DotEachOfSplit(parts: seq<string>)
    requires |parts| > 0
    ensures Join(parts, ".") == DotEach(parts[..|parts| - 1]) + parts[|parts| - 1]
  {
    if |parts| > 1 {
      DotEachOfSplit(parts[1..]);
      var init := parts[..|parts| - 1];
      assert init[0] == parts[0] && init[1..] == parts[1..][..|parts| - 2];
    }
  }

  function LastLabel(fqdn: string): string {
    var parts := Split(fqdn, '.');
    parts[|parts| - 1]
  }

  /** The top-level label the CHECK insists on and the validator does not. */
  predicate LetterTld(fqdn: string) {
    |LastLabel(fqdn)| >= 2 && All(LastLabel(fqdn), IsLower)
  }

  lemma FqdnCheckHasShape(fqdn: string)
    requires FqdnCheck(fqdn)
    ensures AllLabels(Split(fqdn, '.')) && LetterTld(fqdn) && '.' in fqdn
  {
    var run, tld := Rep(DottedRe(), 1, None), Rep(Cls(IsLower), 2, Some(63));
    var k := CatSplit(run, tld, fqdn);
    var labels := DottedRun(run, 1, fqdn[..k]);
    var last := fqdn[k..];
    RepClass(IsLower, 2, Some(63), last);
    SplitDotEach(labels, last);
    assert fqdn == DotEach(labels) + last;
    NameCharsAreAscii(last);
    assert ValidLabel(last);
    assert fqdn[|labels[0]|] == '.';
  }

  lemma FqdnShapeIsChecked(fqdn: string)
    requires AllLabels(Split(fqdn, '.')) && LetterTld(fqdn) && '.' in fqdn
    ensures FqdnCheck(fqdn)
  {
    var parts := Split(fqdn, '.');
    JoinOfSplit(fqdn, '.');
    assert |parts| > 1 by { if |parts| == 1 { assert false; } }
    var labels, last := parts[..|parts| - 1], parts[|parts| - 1];
    DotEachOfSplit(parts);
    var run, tld := Rep(DottedRe(), 1, None), Rep(Cls(IsLower), 2, Some(63));
    DottedRunMatches(run, 1, labels);
    assert Matches(run, DotEach(labels));
    NameCharsAreAscii(last);
    RepClass(IsLower, 2, Some(63), last);
    CatAt(run, tld, DotEach(labels), last);
  }

  lemma {:induction false} AsciiJoin(parts: seq<string>)
    requires AllLabels(parts)
    ensures All(Join(parts, ['.']), IsFqdnChar)
  {
    if |parts| > 1 { AsciiJoin(parts[1..]); }
  }

  predicate IsFqdnChar(c: char) { IsNameChar(c) || c == '.' }

  /** A checked or validated name only uses lower-case letters, digits, hyphens and dots. */
  lemma FqdnAlphabet(fqdn: string)
    requires AllLabels(Split(fqdn, '.'))
    ensures All(fqdn, IsFqdnChar) && Utf8Len(fqdn) == |fqdn|
  {
    assert All(fqdn, IsFqdnChar) by {
      JoinOfSplit(fqdn, '.');
      AsciiJoin(Split(fqdn, '.'));
    }
    FqdnCharsAreAscii(fqdn);
  }

  lemma FqdnCharsAreAscii(s: string)
    requires All(s, IsFqdnChar)
    ensures Utf8Len(s) == |s|
  {
    AsciiLen(s);
  }

  /** Deciding the two CHECK constraints. */
  predicate SlugColumn(slug: string) { 2 <= |slug| <= 63 && All(slug, IsNameChar) && !StartsWith(slug, '-') }
  predicate FqdnColumn(fqdn: string) { AllLabels(Split(fqdn, '.')) && LetterTld(fqdn) && '.' in fqdn }

  lemma ColumnsDecideChecks(s: string)
    ensures SlugColumn(s) <==> SlugCheck(s)
    ensures FqdnColumn(s) <==> FqdnCheck(s)
  {
    SlugCheckVersusValidator(s);
    if FqdnCheck(s) { FqdnCheckHasShape(s); }
    if FqdnColumn(s) { FqdnShapeIsChecked(s); }
  }

  /** For every string: the column's CHECK together with the length the validator wants is the
      validator together with a top-level label of two or more letters. */
  lemma FqdnCheckVersusValidator(fqdn: string)
    ensures FqdnCheck(fqdn) && |fqdn| <= 253 <==> ValidateFqdn(fqdn) && LetterTld(fqdn)
  {
    if FqdnCheck(fqdn) && |fqdn| <= 253 {
      FqdnCheckHasShape(fqdn);
      FqdnAlphabet(fqdn);
    }
    if ValidateFqdn(fqdn) && LetterTld(fqdn) {
      FqdnShapeIsChecked(fqdn);
    }
  }

  /** The two sides really differ: the request check passes a name the table refuses. */
  lemma ValidatorAdmitsNumericTld()
    ensures ValidateFqdn("a.1") && !FqdnCheck("a.1")
  {
    var s := "a.1";
    SplitPiece("a", '.', "1");
    SplitWithout("1", '.');
    assert s == "a" + ['.'] + "1";
    assert Split(s, '.') == ["a", "1"];
    assert ValidLabel("a") && ValidLabel("1") by { NameCharsAreAscii("a"); NameCharsAreAscii("1"); }
    assert ValidateFqdn(s) by { FqdnAlphabet(s); assert s[1] == '.'; }
    if FqdnCheck(s) { FqdnCheckHasShape(s); assert false; }
  }
}
