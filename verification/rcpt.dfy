/** The meaning of one `rcpt` element of the emitted settings: a `/…/` regular expression searched
    for in the recipient address. Covers literals, `\.`, `.` and a final `$`. */
module Rcpt {
  import opened Strings
  import opened Validators

  datatype Tok = Lit(c: char) | Any | End

  /** Characters with a meaning of their own that this subset does not cover. */
  predicate IsOtherMeta(c: char) { c in {'*', '+', '?', '(', ')', '[', ']', '{', '}', '|', '^', '/', '$', '\\'} }

  function ParseBody(s: string): Option<seq<Tok>> {
    if s == [] then Some([])
    else if s == "$" then Some([End])
    else if s[0] == '\\' then
      if |s| >= 2 && s[1] == '.' then Prepend(Lit('.'), ParseBody(s[2..])) else None
    else if s[0] == '.' then Prepend(Any, ParseBody(s[1..]))
    else if IsOtherMeta(s[0]) then None
    else Prepend(Lit(s[0]), ParseBody(s[1..]))
  }

  function Prepend(t: Tok, rest: Option<seq<Tok>>): Option<seq<Tok>> {
    match rest case Some(ts) => Some([t] + ts) case None => None
  }

  function Parse(text: string): Option<seq<Tok>> {
    if |text| >= 2 && text[0] == '/' && text[|text| - 1] == '/' then ParseBody(text[1..|text| - 1]) else None
  }

  /** PCRE `$`: at the end, or before a line feed that ends the subject. */
  predicate AtEnd(s: string, i: nat) { i == |s| || (i + 1 == |s| && s[i] == '\n') }

  predicate MatchAt(ts: seq<Tok>, s: string, i: nat)
    decreases |ts|
  {
    if ts == [] then true
    else match ts[0]
      case Lit(c) => i < |s| && s[i] == c && MatchAt(ts[1..], s, i + 1)
      case Any => i < |s| && s[i] != '\n' && MatchAt(ts[1..], s, i + 1)
      case End => AtEnd(s, i) && MatchAt(ts[1..], s, i)
  }

  /** The expression is found somewhere in the recipient. */
  ghost predicate Selects(text: string, recipient: string) {
    Parse(text).Some? && exists i: nat :: i <= |recipient| && MatchAt(Parse(text).value, recipient, i)
  }

  function EscapeDots(d: string): string { Replace(d, '.', "\\.") }

  /** The element `render_ucl` emits for a domain. */
  function DomainRegex(domain: string): string { "/@" + EscapeDots(domain) + "$/" }

  function Lits(s: string): seq<Tok> {
    if s == [] then [] else [Lit(s[0])] + Lits(s[1..])
  }

  lemma {:induction false} ParseEscaped(d: string)
    requires All(d, IsFqdnChar)
    ensures ParseBody(EscapeDots(d) + "$") == Some(Lits(d) + [End])
  {
    var e := EscapeDots(d) + "$";
    if d == [] {
      assert e == "$" && Lits(d) + [End] == [End];
    } else {
      ParseEscaped(d[1..]);
      var rest := EscapeDots(d[1..]) + "$";
      assert Lits(d) + [End] == [Lit(d[0])] + (Lits(d[1..]) + [End]);
      if d[0] == '.' {
        assert e == "\\." + rest;
        assert e[2..] == rest && e[0] == '\\' && e[1] == '.';
      } else {
        assert e == [d[0]] + rest;
        assert e[1..] == rest;
      }
    }
  }

  lemma ParseDomainRegex(d: string)
    requires All(d, IsFqdnChar)
    ensures Parse(DomainRegex(d)) == Some([Lit('@')] + Lits(d) + [End])
  {
    var text := DomainRegex(d);
    var body := "@" + (EscapeDots(d) + "$");
    assert text == "/" + body + "/";
    assert text[1..|text| - 1] == body;
    ParseEscaped(d);
    assert body[1..] == EscapeDots(d) + "$";
    assert [Lit('@')] + Lits(d) + [End] == [Lit('@')] + (Lits(d) + [End]);
  }

  lemma {:induction false} MatchLits(d: string, tail: seq<Tok>, s: string, i: nat)
    requires i <= |s|
    ensures MatchAt(Lits(d) + tail, s, i) <==>
            i + |d| <= |s| && s[i..i + |d|] == d && MatchAt(tail, s, i + |d|)
    decreases |d|
  {
    var ts := Lits(d) + tail;
    if d == [] {
      assert ts == tail && s[i..i] == d;
    } else {
      assert ts[1..] == Lits(d[1..]) + tail;
      if i < |s| { MatchLits(d[1..], tail, s, i + 1); }
      if i + |d| <= |s| {
        assert s[i..i + |d|] == [s[i]] + s[i + 1..i + |d|];
        assert d == [d[0]] + d[1..];
      }
    }
  }

  /** The recipient without one line feed at its end. */
  function Chomp(s: string): string {
    if EndsWith(s, '\n') then s[..|s| - 1] else s
  }

  lemma LitsOfAnchored(d: string)
    ensures [Lit('@')] + Lits(d) + [End] == Lits("@" + d) + [End]
  {
    assert ("@" + d)[1..] == d;
  }

  lemma MatchLitsToEnd(w: string, s: string, i: nat)
    requires i <= |s|
    ensures MatchAt(Lits(w) + [End], s, i) <==> i + |w| <= |s| && s[i..i + |w|] == w && AtEnd(s, i + |w|)
  {
    MatchLits(w, [End], s, i);
    assert [End][1..] == [];
  }

  /** A word that ends at the end of the recipient, or before its final line feed. */
  lemma WordAtEnd(w: string, s: string, i: nat)
    requires w != [] && w[|w| - 1] != '\n'
    ensures i + |w| <= |s| && s[i..i + |w|] == w && AtEnd(s, i + |w|) <==>
            |w| <= |Chomp(s)| && i == |Chomp(s)| - |w| && Chomp(s)[|Chomp(s)| - |w|..] == w
  {
    var r := Chomp(s);
    if i + |w| <= |s| && s[i..i + |w|] == w {
      assert w[|w| - 1] == s[i + |w| - 1];
    }
    if i + |w| == |r| { assert r[i..] == s[i..i + |w|]; }
  }

  lemma SelectsIsSuffix(d: string, recipient: string)
    requires All(d, IsFqdnChar)
    ensures Selects(DomainRegex(d), recipient) <==>
            |d| < |Chomp(recipient)| && Chomp(recipient)[|Chomp(recipient)| - |d| - 1..] == "@" + d
  {
    ParseDomainRegex(d);
    LitsOfAnchored(d);
    var ts, r, w := [Lit('@')] + Lits(d) + [End], Chomp(recipient), "@" + d;
    assert w[|w| - 1] != '\n';
    forall i: nat | i <= |recipient|
      ensures MatchAt(ts, recipient, i) <==> |w| <= |r| && i == |r| - |w| && r[|r| - |w|..] == w
    {
      MatchLitsToEnd(w, recipient, i);
      WordAtEnd(w, recipient, i);
    }
    if |w| <= |r| && r[|r| - |w|..] == w { assert MatchAt(ts, recipient, |r| - |w|); }
  }

  /** For every recipient: the emitted expression selects it exactly when the text after its last
      `@`, up to one final line feed, is the domain. */
  lemma SelectsExactlyTheDomain(d: string, recipient: string)
    requires All(d, IsFqdnChar)
    ensures Selects(DomainRegex(d), recipient) <==> DomainPart(Chomp(recipient)) == Some(d)
  {
    SelectsIsSuffix(d, recipient);
    var r := Chomp(recipient);
    if |d| < |r| && r[|r| - |d| - 1..] == "@" + d {
      assert r == r[..|r| - |d| - 1] + "@" + d;
      DomainPartOf(r[..|r| - |d| - 1], d);
    }
    if DomainPart(r) == Some(d) {
      DomainPartIsSuffix(r);
    }
  }

  /** Without the escaping an address at another domain would be selected. */
  lemma UnescapedDotsLeak()
    ensures Selects("/@a.b$/", "u@axb") && DomainPart("u@axb") == Some("axb")
    ensures !Selects(DomainRegex("a.b"), "u@axb")
  {
    var text, s := "/@a.b$/", "u@axb";
    assert text[1..6] == "@a.b$";
    assert "b$"[1..] == "$" && ".b$"[1..] == "b$" && "a.b$"[1..] == ".b$" && "@a.b$"[1..] == "a.b$";
    var t4, t3 := [Lit('b')] + [End], [Any] + ([Lit('b')] + [End]);
    var t2 := [Lit('a')] + t3;
    var t1 := [Lit('@')] + t2;
    assert ParseBody("$") == Some([End]);
    assert ParseBody("b$") == Some(t4);
    assert ParseBody(".b$") == Some(t3);
    assert ParseBody("a.b$") == Some(t2);
    assert Parse(text) == Some(t1);
    assert [End][1..] == [] && t4[1..] == [End] && t3[1..] == t4 && t2[1..] == t3 && t1[1..] == t2;
    assert MatchAt([End], s, 5);
    assert MatchAt(t4, s, 4);
    assert MatchAt(t3, s, 3);
    assert MatchAt(t2, s, 2);
    assert MatchAt(t1, s, 1);
    DomainPartOf("u", "axb");
    assert s == "u" + "@" + "axb";
    SelectsExactlyTheDomain("a.b", s);
    assert Chomp(s) == s;
  }
}
