/** The emitted settings text: the renderer of crates/config-compiler/src/render.rs and a reader
    for the subset of UCL it emits. */
module Ucl {
  import opened Strings
  import opened Rcpt
  import opened Grouping
  import T = Thresholds

  // ------------------------------------------------------------------------
  // Reading: tokens
  // ------------------------------------------------------------------------

  datatype Token = Word(w: string) | Quoted(q: string) | Punct(c: char)

  predicate IsSpace(c: char) { c == ' ' || c == '\n' }
  predicate IsPunct(c: char) { c == '{' || c == '}' || c == '[' || c == ']' || c == '=' || c == ';' || c == ',' }
  predicate IsWordChar(c: char) { !IsSpace(c) && !IsPunct(c) && c != '"' && c != '#' }

  function IndexOf(s: string, c: char): (n: nat)
    ensures n <= |s| && (n < |s| ==> s[n] == c)
  {
    if s == [] || s[0] == c then 0 else 1 + IndexOf(s[1..], c)
  }

  function WordLen(s: string): (n: nat)
    ensures n <= |s| && (s != [] && IsWordChar(s[0]) ==> n > 0)
  {
    if s == [] || !IsWordChar(s[0]) then 0 else 1 + WordLen(s[1..])
  }

  function PrependTokens(ts: seq<Token>, rest: Option<seq<Token>>): Option<seq<Token>> {
    match rest case Some(us) => Some(ts + us) case None => None
  }

  /** Spaces separate, `#` comments run to the end of the line, quotes end at the next quote. */
  function Lex(s: string): Option<seq<Token>>
    decreases |s|
  {
    if s == [] then Some([])
    else if IsSpace(s[0]) then Lex(s[1..])
    else if s[0] == '#' then
      var n := IndexOf(s, '\n');
      if n < |s| then Lex(s[n + 1..]) else Some([])
    else if IsPunct(s[0]) then PrependTokens([Punct(s[0])], Lex(s[1..]))
    else if s[0] == '"' then
      var n := IndexOf(s[1..], '"');
      if n < |s| - 1 then PrependTokens([Quoted(s[1..][..n])], Lex(s[1..][n + 1..])) else None
    else
      var n := WordLen(s);
      PrependTokens([Word(s[..n])], Lex(s[n..]))
  }

  // ------------------------------------------------------------------------
  // Reading: blocks
  // ------------------------------------------------------------------------

  /** One top-level block: the settings of one id. */
  datatype Block = Block(id: string, rcpts: seq<string>, reject: T.Decimal, addHeader: T.Decimal, greylist: T.Decimal)

  function HeadTokens(): seq<Token> {
    [Punct('{'), Word("priority"), Punct('='), Word("10"), Punct(';'), Word("rcpt"), Punct('='), Punct('[')]
  }

  function TailTokens(r: string, a: string, g: string): seq<Token> {
    [Punct(']'), Punct(';'), Word("apply"), Punct('{'), Word("actions"), Punct('{'),
     Word("reject"), Punct('='), Word(r), Punct(';'),
     Word("add_header"), Punct('='), Word(a), Punct(';'),
     Word("greylist"), Punct('='), Word(g), Punct(';'),
     Punct('}'), Punct('}'), Punct('}')]
  }

  const TAIL := 21

  /** Quoted strings separated by commas; returns what follows them. */
  function ParseList(ts: seq<Token>): (r: Option<(seq<string>, seq<Token>)>)
    ensures r.Some? ==> |r.value.1| <= |ts|
  {
    if ts == [] then None
    else if ts[0].Quoted? then
      if |ts| > 1 && ts[1] == Punct(',') then
        match ParseList(ts[2..])
        case Some((qs, rest)) => Some(([ts[0].q] + qs, rest))
        case None => None
      else Some(([ts[0].q], ts[1..]))
    else Some(([], ts))
  }

  function ParseBlock(ts: seq<Token>): (r: Option<(Block, seq<Token>)>)
    ensures r.Some? ==> |r.value.1| < |ts|
  {
    if |ts| < 9 || !ts[0].Word? || ts[1..9] != HeadTokens() then None
    else match ParseList(ts[9..])
      case None => None
      case Some((qs, rest)) =>
        if |rest| < TAIL || !rest[8].Word? || !rest[12].Word? || !rest[16].Word? then None
        else if rest[..TAIL] != TailTokens(rest[8].w, rest[12].w, rest[16].w) then None
        else match (T.ReadDecimal(rest[8].w), T.ReadDecimal(rest[12].w), T.ReadDecimal(rest[16].w))
          case (Some(r), Some(a), Some(g)) => Some((Block(ts[0].w, qs, r, a, g), rest[TAIL..]))
          case _ => None
  }

  function ParseBlocks(ts: seq<Token>): Option<seq<Block>>
    decreases |ts|
  {
    if ts == [] then Some([])
    else match ParseBlock(ts)
      case None => None
      case Some((b, rest)) =>
        match ParseBlocks(rest) case Some(bs) => Some([b] + bs) case None => None
  }

  function Read(text: string): Option<seq<Block>> {
    match Lex(text) case Some(ts) => ParseBlocks(ts) case None => None
  }

  // ------------------------------------------------------------------------
  // Rendering
  // ------------------------------------------------------------------------

  // In pieces: the proof that they hold no line feed looks at every character, and the verifier
  // does not manage that for a long literal.
  const LINE1 := " GENERATED by " + "opengroupware " + "config-compiler " + "\U{2014} DO NOT EDIT."
  const LINE2 := " Rspamd settings" + "-module content " + "for local.d/" + "settings.conf."
  const LINE3 := " Source: control" + "-plane desired " + "state (active " + "tenants + " + "domains)."

  function Comment(line: string): string { "#" + line + "\n" }

  function HeaderText(): string { Comment(LINE1) + Comment(LINE2) + Comment(LINE3) }

  function RegexElement(domain: string): string { "\"" + DomainRegex(domain) + "\"" }

  function RegexElements(domains: seq<string>): (es: seq<string>)
    ensures |es| == |domains| && forall i :: 0 <= i < |domains| ==> es[i] == RegexElement(domains[i])
  {
    seq(|domains|, i requires 0 <= i < |domains| => RegexElement(domains[i]))
  }

  /** `name = value;` and what follows it. */
  function Setting(name: string, value: string, gap: string): string { name + " = " + value + ";" + gap }

  /** `name {` and what follows it. */
  function Open(name: string, gap: string): string { name + " {" + gap }

  function HeadText(id: string): string {
    Open(id, "\n  ") + Setting("priority", "10", "\n  ") + "rcpt = ["
  }

  function ActionsText(r: string, a: string, g: string): string {
    Setting("reject", r, "\n      ") + Setting("add_header", a, "\n      ") + Setting("greylist", g, "\n    ")
  }

  function TailText(r: string, a: string, g: string): string {
    "];\n  " + Open("apply", "\n    ") + Open("actions", "\n      ") + ActionsText(r, a, g) + "}\n  }\n}\n"
  }

  function BlockText(p: TenantPolicy): string {
    HeadText(p.settingsId) + Join(RegexElements(p.domains), ", ") +
    TailText(T.Show(p.policy.reject), T.Show(p.policy.addHeader), T.Show(p.policy.greylist))
  }

  lemma HeadLayout(id: string)
    ensures HeadText(id) == id + " {\n  priority = 10;\n  rcpt = ["
  {
    var setting := Setting("priority", "10", "\n  ");
    assert HeadText(id) == id + (" {" + "\n  " + setting + "rcpt = [");
    assert " {" + "\n  " + setting == " {\n  priority = 10;\n  ";
    assert " {\n  priority = 10;\n  " + "rcpt = [" == " {\n  priority = 10;\n  rcpt = [";
  }

  lemma ThreeSettings(n1: string, r: string, gap: string, n2: string, a: string, n3: string, g: string, last: string)
    ensures (n1 + r + gap) + (n2 + a + gap) + (n3 + g + last) == n1 + r + (gap + n2) + a + (gap + n3) + g + last
  {}

  lemma SettingIs(name: string, value: string, gap: string, name': string, gap': string)
    requires name' == name + " = " && gap' == ";" + gap
    ensures Setting(name, value, gap) == name' + value + gap'
  {}

  lemma LiteralsMeet()
    ensures ";\n      " == ";" + "\n      " && ";\n    " == ";" + "\n    "
    ensures "reject = " == "reject" + " = " && "add_header = " == "add_header" + " = " && "greylist = " == "greylist" + " = "
  {}

  lemma JoinedLiterals()
    ensures ";\n      " + "add_header = " == ";\n      add_header = "
    ensures ";\n      " + "greylist = " == ";\n      greylist = "
  {}

  lemma ActionsJoined(r: string, a: string, g: string, n1: string, n2: string, n3: string, w1: string, w2: string)
    requires ActionsText(r, a, g) == (n1 + r + w1) + (n2 + a + w1) + (n3 + g + w2)
    ensures ActionsText(r, a, g) == n1 + r + (w1 + n2) + a + (w1 + n3) + g + w2
  {
    ThreeSettings(n1, r, w1, n2, a, n3, g, w2);
  }

  lemma ActionsLayout(r: string, a: string, g: string)
    ensures ActionsText(r, a, g) ==
            "reject = " + r + (";\n      " + "add_header = ") + a + (";\n      " + "greylist = ") + g + ";\n    "
  {
    LiteralsMeet();
    SettingIs("reject", r, "\n      ", "reject = ", ";\n      ");
    SettingIs("add_header", a, "\n      ", "add_header = ", ";\n      ");
    SettingIs("greylist", g, "\n    ", "greylist = ", ";\n    ");
    ActionsJoined(r, a, g, "reject = ", "add_header = ", "greylist = ", ";\n      ", ";\n    ");
  }

  lemma TailLayout(r: string, a: string, g: string)
    ensures TailText(r, a, g) == "];\n  apply {\n    actions {\n      " + ActionsText(r, a, g) + "}\n  }\n}\n"
  {
    var open := "];\n  " + Open("apply", "\n    ") + Open("actions", "\n      ");
    assert open == "];\n  apply {\n    actions {\n      ";
  }

  lemma BlockJoined(id: string, h: string, rcpt: string, t: string, n: string, r: string, m1: string, a: string, m2: string,
                    g: string, w: string, z: string)
    ensures (id + h) + rcpt + (t + (n + r + m1 + a + m2 + g + w) + z) ==
            id + h + rcpt + (t + n) + r + m1 + a + m2 + g + (w + z)
  {}

  lemma BlockLiterals()
    ensures "];\n  apply {\n    actions {\n      " + "reject = " == "];\n  apply {\n    actions {\n      reject = "
    ensures ";\n    " + "}\n  }\n}\n" == ";\n    }\n  }\n}\n"
  {}

  /** The block of a policy is the source's format string with id, expressions and thresholds in their
      places. */
  lemma BlockLayout(p: TenantPolicy)
    ensures BlockText(p) ==
            p.settingsId + " {\n  priority = 10;\n  rcpt = [" + Join(RegexElements(p.domains), ", ") +
            "];\n  apply {\n    actions {\n      reject = " + T.Show(p.policy.reject) +
            ";\n      add_header = " + T.Show(p.policy.addHeader) +
            ";\n      greylist = " + T.Show(p.policy.greylist) +
            ";\n    }\n  }\n}\n"
  {
    var (r, a, g) := (T.Show(p.policy.reject), T.Show(p.policy.addHeader), T.Show(p.policy.greylist));
    BlockParts(p.settingsId, Join(RegexElements(p.domains), ", "), r, a, g);
  }

  lemma BlockParts(id: string, rcpt: string, r: string, a: string, g: string)
    ensures HeadText(id) + rcpt + TailText(r, a, g) ==
            id + " {\n  priority = 10;\n  rcpt = [" + rcpt + "];\n  apply {\n    actions {\n      reject = " + r +
            ";\n      add_header = " + a + ";\n      greylist = " + g + ";\n    }\n  }\n}\n"
  {
    HeadLayout(id);
    TailLayout(r, a, g);
    ActionsLayout(r, a, g);
    JoinedLiterals();
    BlockLiterals();
    BlockJoined(id, " {\n  priority = 10;\n  rcpt = [", rcpt, "];\n  apply {\n    actions {\n      ", "reject = ", r,
                ";\n      add_header = ", a, ";\n      greylist = ", g, ";\n    ", "}\n  }\n}\n");
  }

  /** One element, quoted: `/@`, the domain with every dot escaped, `$/`. */
  lemma ElementLayout(domain: string)
    ensures RegexElement(domain) == "\"/@" + Replace(domain, '.', "\\.") + "$/\""
  {
    assert "\"" + "/@" == "\"/@" && "$/" + "\"" == "$/\"";
  }

  function BlockTexts(ps: seq<TenantPolicy>): string {
    if ps == [] then "" else BlockText(ps[0]) + BlockTexts(ps[1..])
  }

  function RenderUcl(ps: seq<TenantPolicy>): string { HeaderText() + BlockTexts(ps) }

  lemma Assoc(a: string, b: string, c: string)
    ensures (a + b) + c == a + (b + c)
  {}

  lemma OneMoreBlock(s: string, ps: seq<TenantPolicy>, i: nat)
    requires i < |ps|
    ensures (s + BlockText(ps[i])) + BlockTexts(ps[i + 1..]) == s + BlockTexts(ps[i..])
  {
    assert ps[i..][1..] == ps[i + 1..];
    Assoc(s, BlockText(ps[i]), BlockTexts(ps[i + 1..]));
  }

  /** `render_ucl`: pushes the header, then one block a policy. */
  method RenderUclText(ps: seq<TenantPolicy>) returns (s: string)
    ensures s == RenderUcl(ps)
  {
    var head := HeaderText();
    s := PushBlocks(head, ps);
  }

  method PushBlocks(head: string, ps: seq<TenantPolicy>) returns (s: string)
    ensures s == head + BlockTexts(ps)
  {
    s := head;
    assert ps[0..] == ps;
    for i := 0 to |ps|
      invariant s + BlockTexts(ps[i..]) == head + BlockTexts(ps)
    {
      OneMoreBlock(s, ps, i);
      s := s + BlockText(ps[i]);
    }
    assert s + "" == s;
  }

  // ------------------------------------------------------------------------
  // Text in pieces
  // ------------------------------------------------------------------------

  datatype Piece = Gap(ws: string) | W(w: string) | Q(q: string) | P(c: char)

  function Text(p: Piece): string {
    match p case Gap(ws) => ws case W(w) => w case Q(q) => "\"" + q + "\"" case P(c) => [c]
  }

  function TokensOf(p: Piece): seq<Token> {
    match p case Gap(_) => [] case W(w) => [Word(w)] case Q(q) => [Quoted(q)] case P(c) => [Punct(c)]
  }

  function Flatten<T>(ps: seq<Piece>, f: Piece -> seq<T>): seq<T> {
    if ps == [] then [] else f(ps[0]) + Flatten(ps[1..], f)
  }

  function Texts(ps: seq<Piece>): string { Flatten(ps, Text) }
  function Tokens(ps: seq<Piece>): seq<Token> { Flatten(ps, TokensOf) }

  predicate GoodPiece(p: Piece) {
    match p
    case Gap(ws) => ws != [] && All(ws, IsSpace)
    case W(w) => w != [] && All(w, IsWordChar)
    case Q(q) => '"' !in q
    case P(c) => IsPunct(c)
  }

  /** Good pieces, no two words next to each other and none at the end. */
  predicate Spaced(ps: seq<Piece>) {
    && (forall i :: 0 <= i < |ps| ==> GoodPiece(ps[i]))
    && (forall i :: 0 <= i < |ps| && ps[i].W? ==> i + 1 < |ps| && !ps[i + 1].W?)
  }

  lemma {:induction false} FlattenConcat<T>(a: seq<Piece>, b: seq<Piece>, f: Piece -> seq<T>)
    ensures Flatten(a + b, f) == Flatten(a, f) + Flatten(b, f)
  {
    if a == [] {
      assert a + b == b;
    } else {
      FlattenConcat(a[1..], b, f);
      assert (a + b)[1..] == a[1..] + b;
      assert f(a[0]) + (Flatten(a[1..], f) + Flatten(b, f)) == f(a[0]) + Flatten(a[1..], f) + Flatten(b, f);
    }
  }

  lemma PiecesConcat(a: seq<Piece>, b: seq<Piece>)
    ensures Texts(a + b) == Texts(a) + Texts(b) && Tokens(a + b) == Tokens(a) + Tokens(b)
  {
    FlattenConcat(a, b, Text);
    FlattenConcat(a, b, TokensOf);
  }

  lemma {:induction false} LexSpaces(ws: string, rest: string)
    requires All(ws, IsSpace)
    ensures Lex(ws + rest) == Lex(rest)
  {
    if ws == [] {
      assert ws + rest == rest;
    } else {
      LexSpaces(ws[1..], rest);
      assert (ws + rest)[1..] == ws[1..] + rest;
    }
  }

  lemma {:induction false} WordLenOf(w: string, rest: string)
    requires All(w, IsWordChar) && (rest == [] || !IsWordChar(rest[0]))
    ensures WordLen(w + rest) == |w|
  {
    if w == [] {
      assert w + rest == rest;
    } else {
      WordLenOf(w[1..], rest);
      assert (w + rest)[1..] == w[1..] + rest;
    }
  }

  lemma LexWord(w: string, rest: string)
    requires w != [] && All(w, IsWordChar) && (rest == [] || !IsWordChar(rest[0]))
    ensures Lex(w + rest) == PrependTokens([Word(w)], Lex(rest))
  {
    WordLenOf(w, rest);
    var s := w + rest;
    assert s[..|w|] == w && s[|w|..] == rest;
  }

  lemma {:induction false} IndexOfIn(a: string, c: char, rest: string)
    requires c !in a
    ensures IndexOf(a + [c] + rest, c) == |a|
  {
    var s := a + [c] + rest;
    if a != [] {
      IndexOfIn(a[1..], c, rest);
      assert s[1..] == a[1..] + [c] + rest;
    }
  }

  lemma LexQuoted(q: string, rest: string)
    requires '"' !in q
    ensures Lex("\"" + q + "\"" + rest) == PrependTokens([Quoted(q)], Lex(rest))
  {
    var s := "\"" + q + "\"" + rest;
    var t := q + ['"'] + rest;
    assert s[1..] == t && s[0] == '"';
    IndexOfIn(q, '"', rest);
    assert t[..|q|] == q && t[|q| + 1..] == rest;
  }

  lemma LexPunct(c: char, rest: string)
    requires IsPunct(c)
    ensures Lex([c] + rest) == PrependTokens([Punct(c)], Lex(rest))
  {
    assert ([c] + rest)[1..] == rest;
  }

  lemma LexComment(line: string, rest: string)
    requires '\n' !in line
    ensures Lex(Comment(line) + rest) == Lex(rest)
  {
    var s := Comment(line) + rest;
    assert s == ("#" + line) + ['\n'] + rest;
    IndexOfIn("#" + line, '\n', rest);
    assert s[|line| + 2..] == rest;
  }

  lemma PieceStart(p: Piece, rest: string)
    requires GoodPiece(p) && !p.W?
    ensures Text(p) + rest != [] && !IsWordChar((Text(p) + rest)[0])
  {}

  lemma PrependTwice(a: seq<Token>, b: seq<Token>, rest: Option<seq<Token>>)
    ensures PrependTokens(a, PrependTokens(b, rest)) == PrependTokens(a + b, rest)
  {
    if rest.Some? { assert a + (b + rest.value) == a + b + rest.value; }
  }

  lemma LexPiece(p: Piece, rest: string)
    requires GoodPiece(p) && (p.W? ==> rest == [] || !IsWordChar(rest[0]))
    ensures Lex(Text(p) + rest) == PrependTokens(TokensOf(p), Lex(rest))
  {
    match p
    case Gap(ws) =>
      LexSpaces(ws, rest);
      if Lex(rest).Some? { assert [] + Lex(rest).value == Lex(rest).value; }
    case W(w) => LexWord(w, rest);
    case Q(q) => LexQuoted(q, rest);
    case P(c) => LexPunct(c, rest);
  }

  /** The tokens of well spaced pieces are the pieces' tokens. */
  lemma {:induction false} LexPieces(ps: seq<Piece>, rest: string)
    requires Spaced(ps)
    ensures Lex(Texts(ps) + rest) == PrependTokens(Tokens(ps), Lex(rest))
  {
    if ps == [] {
      assert Texts(ps) + rest == rest;
      if Lex(rest).Some? { assert [] + Lex(rest).value == Lex(rest).value; }
    } else {
      LexPieces(ps[1..], rest);
      var more := Texts(ps[1..]) + rest;
      if ps[0].W? { NoWordNext(ps[1..], rest); }
      LexPiece(ps[0], more);
      Assoc(Text(ps[0]), Texts(ps[1..]), rest);
      PrependTwice(TokensOf(ps[0]), Tokens(ps[1..]), Lex(rest));
    }
  }

  lemma NoWordNext(ps: seq<Piece>, rest: string)
    requires ps != [] && GoodPiece(ps[0]) && !ps[0].W?
    ensures Texts(ps) + rest != [] && !IsWordChar((Texts(ps) + rest)[0])
  {
    PieceStart(ps[0], Texts(ps[1..]) + rest);
    Assoc(Text(ps[0]), Texts(ps[1..]), rest);
  }
}
