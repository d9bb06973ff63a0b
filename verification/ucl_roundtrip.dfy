/** What the renderer writes, the reader recovers. */
module UclRoundTrip {
  import opened Strings
  import opened Validators
  import opened Rcpt
  import opened Grouping
  import opened Ucl
  import T = Thresholds

  // ------------------------------------------------------------------------
  // A block as pieces
  // ------------------------------------------------------------------------

  function Opening(gap: string): seq<Piece> { [Gap(" "), P('{'), Gap(gap)] }
  function Named(name: string): seq<Piece> { [W(name), Gap(" "), P('='), Gap(" ")] }
  function Valued(value: string, gap: string): seq<Piece> { [W(value), P(';'), Gap(gap)] }
  function SettingPieces(name: string, value: string, gap: string): seq<Piece> { Named(name) + Valued(value, gap) }

  function ListPieces(es: seq<string>): seq<Piece> {
    if es == [] then []
    else if |es| == 1 then [Q(es[0])]
    else [Q(es[0]), P(','), Gap(" ")] + ListPieces(es[1..])
  }

  function ListClose(): seq<Piece> { [P(']'), P(';'), Gap("\n  ")] }
  function BlockClose(): seq<Piece> { [P('}'), Gap("\n  "), P('}')] + [Gap("\n"), P('}'), Gap("\n")] }

  function HeadPieces(id: string): seq<Piece> {
    ([W(id)] + Opening("\n  ")) + SettingPieces("priority", "10", "\n  ") + (Named("rcpt") + [P('[')])
  }

  function ActionsPieces(r: string, a: string, g: string): seq<Piece> {
    SettingPieces("reject", r, "\n      ") + SettingPieces("add_header", a, "\n      ") + SettingPieces("greylist", g, "\n    ")
  }

  function TailPieces(r: string, a: string, g: string): seq<Piece> {
    ListClose() + ([W("apply")] + Opening("\n    ")) + ([W("actions")] + Opening("\n      ")) + ActionsPieces(r, a, g) + BlockClose()
  }

  function BlockPieces(id: string, es: seq<string>, r: string, a: string, g: string): seq<Piece> {
    HeadPieces(id) + ListPieces(es) + TailPieces(r, a, g)
  }

  lemma Texts1(a: Piece)
    ensures Texts([a]) == Text(a) && Tokens([a]) == TokensOf(a)
  {
    assert [a][1..] == [];
    assert Texts([]) == [] && Tokens([]) == [];
    assert Text(a) + [] == Text(a) && TokensOf(a) + [] == TokensOf(a);
  }

  lemma Texts3(a: Piece, b: Piece, c: Piece)
    ensures Texts([a, b, c]) == Text(a) + Text(b) + Text(c) && Tokens([a, b, c]) == TokensOf(a) + TokensOf(b) + TokensOf(c)
  {
    Texts1(a); Texts1(b); Texts1(c);
    assert [a, b, c] == [a] + [b] + [c];
    PiecesConcat([a] + [b], [c]); PiecesConcat([a], [b]);
  }

  lemma Texts4(a: Piece, b: Piece, c: Piece, d: Piece)
    ensures Texts([a, b, c, d]) == Text(a) + Text(b) + Text(c) + Text(d)
    ensures Tokens([a, b, c, d]) == TokensOf(a) + TokensOf(b) + TokensOf(c) + TokensOf(d)
  {
    Texts3(a, b, c); Texts1(d);
    assert [a, b, c, d] == [a, b, c] + [d];
    PiecesConcat([a, b, c], [d]);
  }

  lemma OpeningTexts(w: string, gap: string)
    ensures Texts([W(w)] + Opening(gap)) == Open(w, gap) && Tokens([W(w)] + Opening(gap)) == [Word(w), Punct('{')]
  {
    Texts3(Gap(" "), P('{'), Gap(gap));
    Texts1(W(w));
    PiecesConcat([W(w)], Opening(gap));
    assert Text(Gap(" ")) + Text(P('{')) == " {";
    assert w + (" {" + gap) == Open(w, gap);
  }

  lemma NamedTexts(name: string)
    ensures Texts(Named(name)) == name + " = " && Tokens(Named(name)) == [Word(name), Punct('=')]
  {
    Texts4(W(name), Gap(" "), P('='), Gap(" "));
    assert name + " " + "=" + " " == name + " = ";
  }

  lemma SettingTexts(name: string, value: string, gap: string)
    ensures Texts(SettingPieces(name, value, gap)) == Setting(name, value, gap)
    ensures Tokens(SettingPieces(name, value, gap)) == [Word(name), Punct('='), Word(value), Punct(';')]
  {
    NamedTexts(name);
    Texts3(W(value), P(';'), Gap(gap));
    PiecesConcat(Named(name), Valued(value, gap));
    assert (name + " = ") + (value + ";" + gap) == Setting(name, value, gap);
  }

  lemma RcptTexts()
    ensures Texts(Named("rcpt") + [P('[')]) == "rcpt = ["
    ensures Tokens(Named("rcpt") + [P('[')]) == [Word("rcpt"), Punct('='), Punct('[')]
  {
    NamedTexts("rcpt");
    Texts1(P('['));
    PiecesConcat(Named("rcpt"), [P('[')]);
  }

  lemma ListCloseTexts()
    ensures Texts(ListClose()) == "];\n  " && Tokens(ListClose()) == [Punct(']'), Punct(';')]
  {
    Texts3(P(']'), P(';'), Gap("\n  "));
  }

  lemma BlockCloseTexts()
    ensures Texts(BlockClose()) == "}\n  }\n}\n" && Tokens(BlockClose()) == [Punct('}'), Punct('}'), Punct('}')]
  {
    var a, b := [P('}'), Gap("\n  "), P('}')], [Gap("\n"), P('}'), Gap("\n")];
    Texts3(P('}'), Gap("\n  "), P('}'));
    Texts3(Gap("\n"), P('}'), Gap("\n"));
    PiecesConcat(a, b);
    assert Texts(a) == "}\n  }" && Texts(b) == "\n}\n";
  }

  function ListTokens(es: seq<string>): seq<Token> {
    if es == [] then []
    else if |es| == 1 then [Quoted(es[0])]
    else [Quoted(es[0]), Punct(',')] + ListTokens(es[1..])
  }

  function QuoteEach(es: seq<string>): (qs: seq<string>)
    ensures |qs| == |es| && forall i :: 0 <= i < |es| ==> qs[i] == "\"" + es[i] + "\""
  {
    seq(|es|, i requires 0 <= i < |es| => "\"" + es[i] + "\"")
  }

  lemma {:induction false} ListTexts(es: seq<string>)
    ensures Texts(ListPieces(es)) == Join(QuoteEach(es), ", ") && Tokens(ListPieces(es)) == ListTokens(es)
  {
    if |es| == 1 {
      Texts1(Q(es[0]));
    } else if es != [] {
      ListTexts(es[1..]);
      var first := [Q(es[0]), P(','), Gap(" ")];
      Texts3(Q(es[0]), P(','), Gap(" "));
      PiecesConcat(first, ListPieces(es[1..]));
      var q := Text(Q(es[0]));
      assert QuoteEach(es)[1..] == QuoteEach(es[1..]);
      assert Texts(first) == q + ", ";
    }
  }

  lemma HeadTexts(id: string)
    ensures Texts(HeadPieces(id)) == HeadText(id)
  {
    var c1, c2, c3 := [W(id)] + Opening("\n  "), SettingPieces("priority", "10", "\n  "), Named("rcpt") + [P('[')];
    OpeningTexts(id, "\n  ");
    SettingTexts("priority", "10", "\n  ");
    RcptTexts();
    PiecesConcat(c1, c2);
    PiecesConcat(c1 + c2, c3);
  }

  function HeadTokenParts(id: string): seq<Token> {
    [Word(id), Punct('{')] + [Word("priority"), Punct('='), Word("10"), Punct(';')] + [Word("rcpt"), Punct('='), Punct('[')]
  }

  lemma HeadTokenPartsFit(id: string)
    ensures HeadTokenParts(id) == [Word(id)] + HeadTokens()
  {}

  lemma HeadTokensFit(id: string)
    ensures Tokens(HeadPieces(id)) == HeadTokenParts(id)
  {
    var c1, c2, c3 := [W(id)] + Opening("\n  "), SettingPieces("priority", "10", "\n  "), Named("rcpt") + [P('[')];
    OpeningTexts(id, "\n  ");
    SettingTexts("priority", "10", "\n  ");
    RcptTexts();
    PiecesConcat(c1, c2);
    PiecesConcat(c1 + c2, c3);
  }

  function ActionsTokens(r: string, a: string, g: string): seq<Token> {
    [Word("reject"), Punct('='), Word(r), Punct(';')] + [Word("add_header"), Punct('='), Word(a), Punct(';')] +
    [Word("greylist"), Punct('='), Word(g), Punct(';')]
  }

  lemma ActionsTexts(r: string, a: string, g: string)
    ensures Texts(ActionsPieces(r, a, g)) == ActionsText(r, a, g) && Tokens(ActionsPieces(r, a, g)) == ActionsTokens(r, a, g)
  {
    var c1, c2, c3 := SettingPieces("reject", r, "\n      "), SettingPieces("add_header", a, "\n      "), SettingPieces("greylist", g, "\n    ");
    SettingTexts("reject", r, "\n      ");
    SettingTexts("add_header", a, "\n      ");
    SettingTexts("greylist", g, "\n    ");
    PiecesConcat(c1, c2); PiecesConcat(c1 + c2, c3);
  }

  lemma TailTexts(r: string, a: string, g: string)
    ensures Texts(TailPieces(r, a, g)) == TailText(r, a, g)
  {
    var c0, c1, c2 := ListClose(), [W("apply")] + Opening("\n    "), [W("actions")] + Opening("\n      ");
    var c3, c4 := ActionsPieces(r, a, g), BlockClose();
    ListCloseTexts(); OpeningTexts("apply", "\n    "); OpeningTexts("actions", "\n      "); ActionsTexts(r, a, g); BlockCloseTexts();
    PiecesConcat(c0, c1); PiecesConcat(c0 + c1, c2); PiecesConcat(c0 + c1 + c2, c3); PiecesConcat(c0 + c1 + c2 + c3, c4);
  }

  function TailTokenParts(actions: seq<Token>): seq<Token> {
    [Punct(']'), Punct(';')] + [Word("apply"), Punct('{')] + [Word("actions"), Punct('{')] + actions + [Punct('}'), Punct('}'), Punct('}')]
  }

  lemma TailTokenPartsFit(r: string, a: string, g: string)
    ensures TailTokenParts(ActionsTokens(r, a, g)) == TailTokens(r, a, g)
  {}

  lemma TailTokensFit(r: string, a: string, g: string)
    ensures Tokens(TailPieces(r, a, g)) == TailTokenParts(Tokens(ActionsPieces(r, a, g)))
  {
    var c0, c1, c2 := ListClose(), [W("apply")] + Opening("\n    "), [W("actions")] + Opening("\n      ");
    var c3, c4 := ActionsPieces(r, a, g), BlockClose();
    ListCloseTexts(); OpeningTexts("apply", "\n    "); OpeningTexts("actions", "\n      "); BlockCloseTexts();
    PiecesConcat(c0, c1); PiecesConcat(c0 + c1, c2); PiecesConcat(c0 + c1 + c2, c3); PiecesConcat(c0 + c1 + c2 + c3, c4);
  }

  function BlockTokens(id: string, es: seq<string>, r: string, a: string, g: string): seq<Token> {
    [Word(id)] + HeadTokens() + ListTokens(es) + TailTokens(r, a, g)
  }

  lemma BlockPiecesFit(id: string, es: seq<string>, r: string, a: string, g: string)
    ensures Texts(BlockPieces(id, es, r, a, g)) == HeadText(id) + Join(QuoteEach(es), ", ") + TailText(r, a, g)
    ensures Tokens(BlockPieces(id, es, r, a, g)) == BlockTokens(id, es, r, a, g)
  {
    var c0, c1, c2 := HeadPieces(id), ListPieces(es), TailPieces(r, a, g);
    HeadTexts(id); HeadTokensFit(id); HeadTokenPartsFit(id); ListTexts(es); TailTexts(r, a, g);
    ActionsTexts(r, a, g); TailTokensFit(r, a, g); TailTokenPartsFit(r, a, g);
    PiecesConcat(c0, c1); PiecesConcat(c0 + c1, c2);
  }

  // ------------------------------------------------------------------------
  // Spacing
  // ------------------------------------------------------------------------

  lemma SpacedConcat(a: seq<Piece>, b: seq<Piece>)
    requires Spaced(a) && Spaced(b)
    ensures Spaced(a + b)
  {}

  lemma SpacedSetting(name: string, value: string, gap: string)
    requires GoodPiece(W(name)) && GoodPiece(W(value)) && GoodPiece(Gap(gap))
    ensures Spaced(SettingPieces(name, value, gap))
  {
    assert GoodPiece(Gap(" ")) && GoodPiece(P('=')) && GoodPiece(P(';'));
    SpacedConcat(Named(name), Valued(value, gap));
  }

  lemma SpacedOpening(w: string, gap: string)
    requires GoodPiece(W(w)) && GoodPiece(Gap(gap))
    ensures Spaced([W(w)] + Opening(gap))
  {
    assert GoodPiece(Gap(" ")) && GoodPiece(P('{'));
  }

  lemma SpacedHead(id: string)
    requires GoodPiece(W(id))
    ensures Spaced(HeadPieces(id))
  {
    SpacedOpening(id, "\n  ");
    SpacedSetting("priority", "10", "\n  ");
    WordOf("rcpt");
    SpacedConcat(Named("rcpt"), [P('[')]);
    SpacedConcat([W(id)] + Opening("\n  "), SettingPieces("priority", "10", "\n  "));
    SpacedConcat(([W(id)] + Opening("\n  ")) + SettingPieces("priority", "10", "\n  "), Named("rcpt") + [P('[')]);
  }

  lemma WordOf(w: string)
    requires w != [] && forall i :: 0 <= i < |w| ==> 'a' <= w[i] <= 'z' || w[i] == '_'
    ensures GoodPiece(W(w))
  {}

  lemma NamesAreWords()
    ensures GoodPiece(W("reject")) && GoodPiece(W("add_header")) && GoodPiece(W("greylist"))
  {
    WordOf("reject"); WordOf("add_header"); WordOf("greylist");
  }

  lemma GapsAreSpaces()
    ensures GoodPiece(Gap("\n  ")) && GoodPiece(Gap("\n    ")) && GoodPiece(Gap("\n      ")) && GoodPiece(Gap("\n"))
  {}

  lemma SpacedActions(r: string, a: string, g: string)
    requires GoodPiece(W(r)) && GoodPiece(W(a)) && GoodPiece(W(g))
    ensures Spaced(ActionsPieces(r, a, g))
  {
    var c1, c2, c3 := SettingPieces("reject", r, "\n      "), SettingPieces("add_header", a, "\n      "), SettingPieces("greylist", g, "\n    ");
    NamesAreWords();
    GapsAreSpaces();
    SpacedSetting("reject", r, "\n      ");
    SpacedSetting("add_header", a, "\n      ");
    SpacedSetting("greylist", g, "\n    ");
    SpacedConcat(c1, c2);
    SpacedConcat(c1 + c2, c3);
  }

  lemma SpacedClosings()
    ensures Spaced(ListClose()) && Spaced(BlockClose())
  {
    GapsAreSpaces();
  }

  lemma SpacedTail(r: string, a: string, g: string)
    requires GoodPiece(W(r)) && GoodPiece(W(a)) && GoodPiece(W(g))
    ensures Spaced(TailPieces(r, a, g))
  {
    var c0, c1, c2 := ListClose(), [W("apply")] + Opening("\n    "), [W("actions")] + Opening("\n      ");
    var c3, c4 := ActionsPieces(r, a, g), BlockClose();
    GapsAreSpaces();
    SpacedClosings();
    WordOf("apply");
    WordOf("actions");
    SpacedOpening("apply", "\n    ");
    SpacedOpening("actions", "\n      ");
    SpacedActions(r, a, g);
    SpacedConcat(c0, c1); SpacedConcat(c0 + c1, c2); SpacedConcat(c0 + c1 + c2, c3); SpacedConcat(c0 + c1 + c2 + c3, c4);
  }

  lemma {:induction false} SpacedList(es: seq<string>)
    requires forall i :: 0 <= i < |es| ==> '"' !in es[i]
    ensures Spaced(ListPieces(es))
  {
    if |es| > 1 {
      SpacedList(es[1..]);
      assert GoodPiece(Gap(" "));
      assert Spaced([Q(es[0]), P(','), Gap(" ")]);
      SpacedConcat([Q(es[0]), P(','), Gap(" ")], ListPieces(es[1..]));
    }
  }

  /** Words and quotes that the lexer takes whole. */
  predicate Writable(id: string, es: seq<string>, r: string, a: string, g: string) {
    && GoodPiece(W(id)) && GoodPiece(W(r)) && GoodPiece(W(a)) && GoodPiece(W(g))
    && forall i :: 0 <= i < |es| ==> '"' !in es[i]
  }

  lemma BlockLexes(id: string, es: seq<string>, r: string, a: string, g: string, rest: string)
    requires Writable(id, es, r, a, g)
    ensures Lex(HeadText(id) + Join(QuoteEach(es), ", ") + TailText(r, a, g) + rest) ==
            PrependTokens(BlockTokens(id, es, r, a, g), Lex(rest))
  {
    SpacedHead(id); SpacedList(es); SpacedTail(r, a, g);
    SpacedConcat(HeadPieces(id), ListPieces(es));
    SpacedConcat(HeadPieces(id) + ListPieces(es), TailPieces(r, a, g));
    BlockPiecesFit(id, es, r, a, g);
    LexPieces(BlockPieces(id, es, r, a, g), rest);
  }

  // ------------------------------------------------------------------------
  // Parsing a block's tokens
  // ------------------------------------------------------------------------

  lemma {:induction false} ListParses(es: seq<string>, rest: seq<Token>)
    requires rest != [] && rest[0] == Punct(']')
    ensures ParseList(ListTokens(es) + rest) == Some((es, rest))
  {
    var ts := ListTokens(es) + rest;
    if es == [] {
      assert ts == rest;
    } else if |es| == 1 {
      assert ts[1..] == rest && es == [es[0]];
    } else {
      ListParses(es[1..], rest);
      assert ts[2..] == ListTokens(es[1..]) + rest;
      assert es == [es[0]] + es[1..];
    }
  }

  lemma TailParses(r: string, a: string, g: string, more: seq<Token>)
    ensures var rest := TailTokens(r, a, g) + more;
            && |TailTokens(r, a, g)| == TAIL && rest[0] == Punct(']')
            && rest[8] == Word(r) && rest[12] == Word(a) && rest[16] == Word(g)
            && rest[..TAIL] == TailTokens(r, a, g) && rest[TAIL..] == more
  {}

  lemma HeadParses(id: string, rest: seq<Token>)
    ensures var ts := [Word(id)] + HeadTokens() + rest;
            |ts| >= 9 && ts[0] == Word(id) && ts[1..9] == HeadTokens() && ts[9..] == rest
  {
    assert |HeadTokens()| == 8;
  }

  lemma BlockTokensFit(id: string, es: seq<string>, r: string, a: string, g: string, more: seq<Token>)
    ensures BlockTokens(id, es, r, a, g) + more == [Word(id)] + HeadTokens() + (ListTokens(es) + (TailTokens(r, a, g) + more))
  {}

  lemma PartsParse(ts: seq<Token>, id: string, es: seq<string>, rest: seq<Token>, r: T.Decimal, a: T.Decimal, g: T.Decimal)
    requires |ts| >= 9 && ts[0] == Word(id) && ts[1..9] == HeadTokens() && ParseList(ts[9..]) == Some((es, rest))
    requires |rest| >= TAIL && rest[8].Word? && rest[12].Word? && rest[16].Word?
    requires rest[..TAIL] == TailTokens(rest[8].w, rest[12].w, rest[16].w)
    requires T.ReadDecimal(rest[8].w) == Some(r) && T.ReadDecimal(rest[12].w) == Some(a) && T.ReadDecimal(rest[16].w) == Some(g)
    ensures ParseBlock(ts) == Some((Block(id, es, r, a, g), rest[TAIL..]))
  {}

  lemma BlockParses(id: string, es: seq<string>, r: T.Decimal, a: T.Decimal, g: T.Decimal, more: seq<Token>)
    ensures ParseBlock(BlockTokens(id, es, T.ShowDecimal(r), T.ShowDecimal(a), T.ShowDecimal(g)) + more) ==
            Some((Block(id, es, r, a, g), more))
  {
    var (rs, as_, gs) := (T.ShowDecimal(r), T.ShowDecimal(a), T.ShowDecimal(g));
    T.ShownDecimalReadsBack(r); T.ShownDecimalReadsBack(a); T.ShownDecimalReadsBack(g);
    var rest := TailTokens(rs, as_, gs) + more;
    TailParses(rs, as_, gs, more);
    ListParses(es, rest);
    HeadParses(id, ListTokens(es) + rest);
    BlockTokensFit(id, es, rs, as_, gs, more);
    PartsParse(BlockTokens(id, es, rs, as_, gs) + more, id, es, rest, r, a, g);
  }

  // ------------------------------------------------------------------------
  // The whole text
  // ------------------------------------------------------------------------

  predicate Printable(p: TenantPolicy) {
    && p.settingsId != [] && All(p.settingsId, IsWordChar)
    && (forall i :: 0 <= i < |p.domains| ==> All(p.domains[i], IsFqdnChar))
    && T.Unsigned(p.policy.reject) && T.Unsigned(p.policy.addHeader) && T.Unsigned(p.policy.greylist)
  }

  function RegexesOf(domains: seq<string>): (es: seq<string>)
    ensures |es| == |domains| && forall i :: 0 <= i < |domains| ==> es[i] == DomainRegex(domains[i])
  {
    seq(|domains|, i requires 0 <= i < |domains| => DomainRegex(domains[i]))
  }

  function BlockOf(p: TenantPolicy): Block
    requires Printable(p)
  {
    Block(p.settingsId, RegexesOf(p.domains), p.policy.reject.magnitude, p.policy.addHeader.magnitude, p.policy.greylist.magnitude)
  }

  function BlocksOf(ps: seq<TenantPolicy>): (bs: seq<Block>)
    requires forall i :: 0 <= i < |ps| ==> Printable(ps[i])
    ensures |bs| == |ps| && forall i :: 0 <= i < |ps| ==> bs[i] == BlockOf(ps[i])
  {
    seq(|ps|, i requires 0 <= i < |ps| => BlockOf(ps[i]))
  }

  lemma {:induction false} EscapedHasNoQuote(d: string)
    requires All(d, IsFqdnChar)
    ensures '"' !in EscapeDots(d)
  {
    if d != [] { EscapedHasNoQuote(d[1..]); }
  }

  lemma NumberCharsAreWordChars(s: string)
    requires All(s, T.IsNumberChar)
    ensures All(s, IsWordChar)
  {
    forall i | 0 <= i < |s| ensures IsWordChar(s[i]) { assert T.IsNumberChar(s[i]); }
  }

  lemma NumberIsWord(f: T.F64)
    requires T.Unsigned(f)
    ensures T.Show(f) == T.ShowDecimal(f.magnitude) && GoodPiece(W(T.Show(f)))
  {
    T.ShownDecimalReadsBack(f.magnitude);
    NumberCharsAreWordChars(T.ShowDecimal(f.magnitude));
    assert "" + T.ShowDecimal(f.magnitude) == T.ShowDecimal(f.magnitude);
  }

  lemma PrintableIsWritable(p: TenantPolicy)
    requires Printable(p)
    ensures Writable(p.settingsId, RegexesOf(p.domains), T.Show(p.policy.reject), T.Show(p.policy.addHeader), T.Show(p.policy.greylist))
  {
    NumberIsWord(p.policy.reject); NumberIsWord(p.policy.addHeader); NumberIsWord(p.policy.greylist);
    forall i | 0 <= i < |p.domains| ensures '"' !in RegexesOf(p.domains)[i] { EscapedHasNoQuote(p.domains[i]); }
  }

  function TokensOfPolicy(p: TenantPolicy): seq<Token>
    requires Printable(p)
  {
    var b := BlockOf(p);
    BlockTokens(b.id, b.rcpts, T.ShowDecimal(b.reject), T.ShowDecimal(b.addHeader), T.ShowDecimal(b.greylist))
  }

  lemma PolicyLexes(p: TenantPolicy, rest: string)
    requires Printable(p)
    ensures Lex(BlockText(p) + rest) == PrependTokens(TokensOfPolicy(p), Lex(rest))
  {
    PrintableIsWritable(p);
    NumberIsWord(p.policy.reject); NumberIsWord(p.policy.addHeader); NumberIsWord(p.policy.greylist);
    assert QuoteEach(RegexesOf(p.domains)) == RegexElements(p.domains);
    BlockLexes(p.settingsId, RegexesOf(p.domains), T.Show(p.policy.reject), T.Show(p.policy.addHeader), T.Show(p.policy.greylist), rest);
  }

  lemma BlocksCons(ts: seq<Token>, b: Block, more: seq<Token>, bs: seq<Block>)
    requires ParseBlock(ts) == Some((b, more)) && ParseBlocks(more) == Some(bs)
    ensures ParseBlocks(ts) == Some([b] + bs)
  {}

  lemma PolicyParses(p: TenantPolicy, more: seq<Token>, bs: seq<Block>)
    requires Printable(p) && ParseBlocks(more) == Some(bs)
    ensures ParseBlocks(TokensOfPolicy(p) + more) == Some([BlockOf(p)] + bs)
  {
    var b := BlockOf(p);
    BlockParses(b.id, b.rcpts, b.reject, b.addHeader, b.greylist, more);
    BlocksCons(TokensOfPolicy(p) + more, b, more, bs);
  }

  lemma {:induction false} BlocksRead(ps: seq<TenantPolicy>)
    requires forall i :: 0 <= i < |ps| ==> Printable(ps[i])
    ensures Read(BlockTexts(ps)) == Some(BlocksOf(ps))
  {
    if ps != [] {
      var p, rest := ps[0], BlockTexts(ps[1..]);
      BlocksRead(ps[1..]);
      BlockReads(p, rest, BlocksOf(ps[1..]));
      BlocksOfCons(ps);
    }
  }

  lemma BlocksOfCons(ps: seq<TenantPolicy>)
    requires ps != [] && forall i :: 0 <= i < |ps| ==> Printable(ps[i])
    ensures BlocksOf(ps) == [BlockOf(ps[0])] + BlocksOf(ps[1..])
  {}

  lemma BlockReads(p: TenantPolicy, rest: string, bs: seq<Block>)
    requires Printable(p) && Read(rest) == Some(bs)
    ensures Read(BlockText(p) + rest) == Some([BlockOf(p)] + bs)
  {
    PolicyLexes(p, rest);
    PolicyParses(p, Lex(rest).value, bs);
  }

  lemma HeaderLexesAway(rest: string)
    ensures Lex(HeaderText() + rest) == Lex(rest)
  {
    LinesAreLines();
    LexComment(LINE3, rest);
    LexComment(LINE2, Comment(LINE3) + rest);
    LexComment(LINE1, Comment(LINE2) + (Comment(LINE3) + rest));
    Assoc(Comment(LINE1) + Comment(LINE2), Comment(LINE3), rest);
    Assoc(Comment(LINE1), Comment(LINE2), Comment(LINE3) + rest);
  }

  lemma LinesAreLines()
    ensures '\n' !in LINE1 && '\n' !in LINE2 && '\n' !in LINE3
  {
    Line1IsLine(); Line2IsLine(); Line3IsLine();
  }

  lemma Line1IsLine()
    ensures '\n' !in LINE1
  {}

  lemma Line2IsLine()
    ensures '\n' !in LINE2
  {}

  lemma Line3IsLine()
    ensures '\n' !in LINE3
  {}

  /** The reader recovers from the emitted text exactly the blocks that were rendered: ids, domain
      expressions in order, thresholds. */
  lemma UclReadsBack(ps: seq<TenantPolicy>)
    requires forall i :: 0 <= i < |ps| ==> Printable(ps[i])
    ensures Read(RenderUcl(ps)) == Some(BlocksOf(ps))
  {
    HeaderLexesAway(BlockTexts(ps));
    BlocksRead(ps);
  }
}
