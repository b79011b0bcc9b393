/**
 Text rendered from syntax trees: objects, unions, functions, conditional types, generics with bounds and defaults.

 Every such declaration is well formed, so its canonical form is its own canonical form.
 */
module TypeSyntax {
  import opened Wrappers
  import opened TypeScan
  import opened TypeText
  import opened TypeCanon
  import opened TypeStable
  import opened TypeFixpoint
  import opened TypeWhole

  // ---------- syntax trees ----------

  /** Names and modifiers, a quoted text, or a bracket group. */
  datatype Piece = Words(text: string) | Quoted(quote: char, text: string) | Bracket(open: char, members: seq<Member>)

  /** What stands between operators, such as `readonly Box<A>[]`, `v is A` or, between angle brackets, `T = A`. */
  datatype Operand = Operand(pieces: seq<Piece>)

  /** `Choice` is a conditional type, `Bounded` a type parameter, or an inferred type, with its bound. */
  datatype Type =
    | Named(operand: Operand)
    | Intersection(left: Type, right: Type)
    | Union(left: Type, right: Type)
    | Function(parameters: Operand, result: Type)
    | Choice(check: Type, extended: Type, yes: Type, no: Type)
    | Bounded(name: Operand, bound: Type)

  /** A type argument, tuple element or call signature; or a property, parameter or method and its type. */
  datatype Member = Only(value: Type) | Keyed(key: Operand, value: Type)

  datatype Statement = Alias(head: Operand, aliased: Type) | Stated(member: Member)

  // ---------- rendering ----------

  function Listing(open: char, texts: seq<string>): string {
    if open == '{' && texts != [] then " " + Join(texts, "; ") + "; " else Join(texts, ", ")
  }

  function PieceTokens(p: Piece): seq<Token> {
    match p
    case Words(text) => Plains(text)
    case Quoted(quote, text) => [Solid([quote] + text + [quote])]
    case Bracket(open, members) =>
      var texts := seq(|members|, i requires 0 <= i < |members| => RenderMember(members[i]));
      [Solid([open] + Listing(open, texts) + [if Opener(open) then CloserOf(open) else open])]
  }

  function OperandTokens(pieces: seq<Piece>): seq<Token> {
    if pieces == [] then [] else PieceTokens(pieces[0]) + OperandTokens(pieces[1..])
  }

  function RenderOperand(o: Operand): string {
    Flat(OperandTokens(o.pieces))
  }

  function RenderType(t: Type): string {
    match t
    case Named(o) => RenderOperand(o)
    case Intersection(l, r) => RenderType(l) + " & " + RenderType(r)
    case Union(l, r) => RenderType(l) + " | " + RenderType(r)
    case Function(p, r) => RenderOperand(p) + " => " + RenderType(r)
    case Choice(c, e, y, n) => RenderType(c) + CLAUSE + RenderType(e) + " ? " + RenderType(y) + " : " + RenderType(n)
    case Bounded(name, t) => RenderOperand(name) + CLAUSE + RenderType(t)
  }

  function RenderMember(m: Member): string {
    match m
    case Only(t) => RenderType(t)
    case Keyed(key, t) => RenderOperand(key) + ": " + RenderType(t)
  }

  function RenderStatement(s: Statement): string {
    match s
    case Alias(head, t) => RenderOperand(head) + " = " + RenderType(t)
    case Stated(m) => RenderMember(m)
  }

  function RenderDeclaration(ss: seq<Statement>): string {
    if ss == [] then "" else Join(Mapped(ss, (s: Statement) => RenderStatement(s)), "; ") + ";"
  }

  // ---------- legal trees ----------

  /** No quote, bracket, operator or separator. */
  predicate CodeChar(c: char) {
    !Quote(c) && !Opener(c) && !Closer(c) && c != '|' && c != '&' && c != ':' && c != ';' && c != ','
  }

  /** Trimmed, and with ` = ` only where an argument may have a default. */
  predicate Clean(xs: seq<Token>, defaults: bool) {
    && xs != [] && !Edge(xs[0]) && !Edge(xs[|xs| - 1])
    && forall i :: 0 <= i < |xs| && xs[i] == Plain('=') ==> defaults && Assigns(xs, i)
  }

  ghost predicate LegalPiece(p: Piece)
    decreases p
  {
    match p
    case Words(text) => forall c <- text :: CodeChar(c)
    case Quoted(quote, text) => Quote(quote) && ClosesAt([quote] + text + [quote], |text| + 1)
    case Bracket(open, members) => Opener(open) && forall m <- members :: LegalMember(open, m)
  }

  ghost predicate LegalKey(o: Operand, defaults: bool)
    decreases o, 0
  {
    (forall p <- o.pieces :: LegalPiece(p)) && Clean(OperandTokens(o.pieces), defaults)
  }

  /** `extends` is no name. */
  ghost predicate LegalOperand(o: Operand, defaults: bool)
    decreases o, 1
  {
    LegalKey(o, defaults) && NoExtends(OperandTokens(o.pieces))
  }

  /** Without `extends`, but for brackets. */
  predicate Simple(t: Type) {
    match t
    case Function(_, r) => Simple(r)
    case Choice(_, _, _, _) => false
    case Bounded(_, _) => false
    case _ => true
  }

  /** What may be an operand of a bar without brackets around it. */
  predicate UnionPart(t: Type) {
    t.Named? || t.Intersection? || t.Union?
  }

  /** Operands of an operator that binds tighter are in brackets. */
  ghost predicate LegalType(t: Type, defaults: bool)
    decreases t
  {
    match t
    case Named(o) => LegalOperand(o, defaults)
    case Intersection(l, r) =>
      (l.Named? || l.Intersection?) && (r.Named? || r.Intersection?) && LegalType(l, defaults) && LegalType(r, defaults)
    case Union(l, r) => UnionPart(l) && UnionPart(r) && LegalType(l, defaults) && LegalType(r, defaults)
    case Function(p, r) => LegalOperand(p, defaults) && LegalType(r, defaults)
    case Choice(c, e, y, n) =>
      && !c.Function? && Simple(c) && Simple(e)
      && LegalType(c, defaults) && LegalType(e, defaults) && LegalType(y, defaults) && LegalType(n, defaults)
    case Bounded(name, t) => LegalOperand(name, defaults) && LegalType(t, defaults)
  }

  ghost predicate LegalMember(open: char, m: Member)
    decreases m
  {
    match m
    case Only(t) => LegalType(t, open == '<')
    case Keyed(key, t) => open != '<' && LegalKey(key, false) && LegalType(t, false)
  }

  ghost predicate LegalStatement(s: Statement) {
    match s
    case Alias(head, t) => LegalKey(head, false) && LegalType(t, false)
    case Stated(m) => LegalMember('{', m)
  }

  /** A word of a name. */
  predicate NameText(name: string) {
    name != "" && forall c <- name :: CodeChar(c) && !Edge(Plain(c))
  }

  lemma NameHasNoEdge(name: string)
    requires NameText(name)
    ensures forall i :: 0 <= i < |name| ==> CodeChar(name[i]) && !Edge(Plain(name[i]))
  {
    forall i | 0 <= i < |name|
      ensures CodeChar(name[i]) && !Edge(Plain(name[i]))
    {
      assert name[i] in name;
    }
  }

  lemma NameExtends(name: string)
    requires NameText(name)
    ensures NoExtends(Plains(name)) <==> name != EXTENDS
  {
    var xs := Plains(name);
    NameHasNoEdge(name);
    forall k | 0 <= k < |xs|
      ensures StandsAt(xs, k) <==> k == 0 && name == EXTENDS
    {
      assert forall i :: 0 <= i < |xs| - k ==> xs[k..][i] == Plain(name[k + i]);
      if StandsAt(xs, k) { assert name == EXTENDS; }
    }
    assert xs != [];
    assert StandsAt(xs, 0) <==> name == EXTENDS;
  }

  lemma NameIsClean(name: string, defaults: bool)
    requires NameText(name)
    ensures Clean(Plains(name), defaults)
  {
    NameHasNoEdge(name);
    assert forall i :: 0 <= i < |name| ==> Plains(name)[i] == Plain(name[i]);
  }

  /** Every name but `extends` itself is an operand, whatever letters are in it. */
  lemma NameIsLegal(name: string, defaults: bool)
    requires NameText(name)
    ensures LegalOperand(Operand([Words(name)]), defaults) <==> name != EXTENDS
    ensures RenderOperand(Operand([Words(name)])) == name
  {
    assert [Words(name)][1..] == [] && Plains(name) + [] == Plains(name);
    assert OperandTokens([Words(name)]) == Plains(name);
    NameIsClean(name, defaults);
    NameExtends(name);
    FlatPlains(name);
    assert LegalKey(Operand([Words(name)]), defaults);
  }

  lemma DefaultTokens(name: string, o: Operand)
    ensures OperandTokens([Words(name + " = ")] + o.pieces) == Plains(name) + Plains(" = ") + OperandTokens(o.pieces)
  {
    var all := [Words(name + " = ")] + o.pieces;
    assert all[1..] == o.pieces;
    assert Plains(name + " = ") == Plains(name) + Plains(" = ");
  }

  lemma AssignsClean(name: string, ys: seq<Token>)
    requires NameText(name) && Clean(ys, true)
    ensures Clean(Plains(name) + Plains(" = ") + ys, true)
  {
    var n, all := |name|, Plains(name) + Plains(" = ") + ys;
    NameHasNoEdge(name);
    assert all[n] == Plain(' ') && all[n + 1] == Plain('=') && all[n + 2] == Plain(' ') && all[n + 3] == ys[0];
    forall i | 0 <= i < |all| && all[i] == Plain('=')
      ensures Assigns(all, i)
    {
      if i > n + 2 {
        assert ys[i - n - 3] == Plain('=');
        assert Assigns(ys, i - n - 3);
      }
    }
  }

  lemma DefaultPieces(name: string, o: Operand)
    requires NameText(name) && forall p <- o.pieces :: LegalPiece(p)
    ensures forall p <- [Words(name + " = ")] + o.pieces :: LegalPiece(p)
  {
    assert forall c <- " = " :: CodeChar(c);
  }

  lemma DefaultExtends(name: string, ys: seq<Token>)
    requires NameText(name) && name != EXTENDS && NoExtends(ys)
    ensures NoExtends(Plains(name) + Plains(" = ") + ys)
  {
    NameExtends(name);
    assert forall c <- " = " :: c !in EXTENDS && Edge(Plain(c));
    NoExtendsAcrossGlue(Plains(name), " = ", ys);
  }

  /** A default argument is an operand. */
  lemma DefaultIsLegal(name: string, o: Operand)
    requires NameText(name) && name != EXTENDS && LegalOperand(o, true)
    ensures var d := Operand([Words(name + " = ")] + o.pieces);
            LegalOperand(d, true) && RenderOperand(d) == name + " = " + RenderOperand(o)
  {
    var ys := OperandTokens(o.pieces);
    DefaultTokens(name, o);
    DefaultPieces(name, o);
    AssignsClean(name, ys);
    DefaultExtends(name, ys);
    FlatThree(Plains(name), Plains(" = "), ys);
    FlatPlains(name);
    FlatPlains(" = ");
  }

  // ---------- sound texts ----------

  ghost predicate TidyToken(tok: Token) {
    IsGroup(tok) ==> GroupOk(tok.s[0], InnerOf(tok)) && TidyGroups(InnerOf(tok))
  }

  ghost predicate AllTidy(xs: seq<Token>) {
    forall x <- xs :: TidyToken(x)
  }

  /** What is rendered between separators. */
  ghost predicate Sound(c: string, defaults: bool) {
    && Fit(c) && Whole(TokensOf(c)) && AllTidy(TokensOf(c)) && (!defaults ==> Pure(TokensOf(c)))
    && Plain(';') !in TokensOf(c) && Plain(',') !in TokensOf(c)
  }

  predicate SoundGlue(g: string) {
    g != "" && Link(g) && Pure(Plains(g)) && Between(g) && ';' !in g && ',' !in g
  }

  lemma SoundGlued(a: string, g: string, b: string, defaults: bool)
    requires Sound(a, defaults) && Sound(b, defaults) && SoundGlue(g)
    ensures Sound(a + g + b, defaults)
    ensures TokensOf(a + g + b) == TokensOf(a) + Plains(g) + TokensOf(b)
  {
    var xs, ys := TokensOf(a), TokensOf(b);
    GluedTokens(a, g, b);
    CompleteGlued(xs, g, ys);
    if !defaults {
      PureConcat(xs, Plains(g));
      PureConcat(xs + Plains(g), ys);
    }
  }

  lemma TidyText(t: string)
    requires Tokens(t).Some? && AllTidy(TokensOf(t))
    ensures TidyGroups(t)
  {
    forall tok | tok in TokensOf(t) && IsGroup(tok)
      ensures GroupOk(tok.s[0], InnerOf(tok)) && TidyGroups(InnerOf(tok)) && NonSpace(InnerOf(tok)) < NonSpace(t)
    {
      InnerWeight(t, tok);
      assert TidyToken(tok);
    }
  }

  // ---------- lists of texts ----------

  ghost predicate Listed(texts: seq<string>, c: char) {
    forall m <- texts :: Part(m, c) && Neat(TokensOf(m)) && AllTidy(TokensOf(m))
  }

  lemma OneBlank()
    ensures AllBlank(" ") && AllBlank("")
  {
  }

  lemma PlainsOfBlank(pad: string)
    requires AllBlank(pad)
    ensures Neat(Plains(pad)) && AllTidy(Plains(pad))
  {
    BlankTokens(pad, '=');
    forall i | 0 <= i < |pad|
      ensures !Closer(pad[i]) && pad[i] != '='
    {
      assert pad[i] in pad;
    }
  }

  lemma {:induction false} JoinedNeat(texts: seq<string>, c: char, first: string)
    requires texts != [] && Listed(texts, c) && AllBlank(first) && (c == ';' || c == ',')
    ensures Neat(JoinedTokens(texts, " ", c, "", first)) && AllTidy(JoinedTokens(texts, " ", c, "", first))
    decreases |texts|
  {
    var xs := TokensOf(texts[0]);
    assert Part(texts[0], c) && Neat(xs) && AllTidy(xs);
    PlainsOfBlank(first);
    NeatConcat(Plains(first), xs);
    if |texts| > 1 {
      OneBlank();
      JoinedNeat(texts[1..], c, " ");
      var head := Plains(first) + xs + Plains("");
      assert head == Plains(first) + xs;
      NeatConcat(head, [Plain(c)]);
      NeatConcat(head + [Plain(c)], JoinedTokens(texts[1..], " ", c, "", " "));
    }
  }

  lemma PiecesStep(x: Token, xs: seq<Token>, c: char)
    ensures var ps := Pieces(xs, [c]);
      Pieces([x] + xs, [c]) == if x == Plain(c) then [[]] + ps else [[x] + ps[0]] + ps[1..]
  {
    var all := [x] + xs;
    assert all[0] == x && all[1..] == xs && [c][0] == c;
    assert Occurs(all, [c]) <==> all[0] == Plain([c][0]);
  }

  lemma OntoFirst(x: Token, ps: seq<seq<Token>>, qs: seq<seq<Token>>)
    requires ps != []
    ensures [[x] + (ps + qs)[0]] + (ps + qs)[1..] == ([[x] + ps[0]] + ps[1..]) + qs
  {
  }

  lemma {:induction false} PiecesConcat(xs: seq<Token>, c: char, ys: seq<Token>)
    ensures Pieces(xs + [Plain(c)] + ys, [c]) == Pieces(xs, [c]) + Pieces(ys, [c])
    decreases |xs|
  {
    if xs == [] {
      PiecesStep(Plain(c), ys, c);
      assert xs + [Plain(c)] + ys == [Plain(c)] + ys;
    } else {
      var rest := xs[1..];
      PiecesConcat(rest, c, ys);
      PiecesStep(xs[0], rest, c);
      PiecesStep(xs[0], rest + [Plain(c)] + ys, c);
      assert [xs[0]] + rest == xs && [xs[0]] + (rest + [Plain(c)] + ys) == xs + [Plain(c)] + ys;
      OntoFirst(xs[0], Pieces(rest, [c]), Pieces(ys, [c]));
      Associative([[]], Pieces(rest, [c]), Pieces(ys, [c]));
    }
  }

  lemma KeptOne(p: string, ps: seq<string>)
    ensures TrimmedNonEmpty([p] + ps) == (if Trim(p) == "" then [] else [Trim(p)]) + TrimmedNonEmpty(ps)
  {
    assert ([p] + ps)[1..] == ps;
  }

  lemma {:induction false} KeptConcat(ps: seq<string>, qs: seq<string>)
    ensures TrimmedNonEmpty(ps + qs) == TrimmedNonEmpty(ps) + TrimmedNonEmpty(qs)
    decreases |ps|
  {
    if ps == [] {
      assert ps + qs == qs;
    } else {
      KeptConcat(ps[1..], qs);
      KeptOne(ps[0], ps[1..]);
      KeptOne(ps[0], ps[1..] + qs);
      assert [ps[0]] + ps[1..] == ps && [ps[0]] + (ps[1..] + qs) == ps + qs;
      Associative(if Trim(ps[0]) == "" then [] else [Trim(ps[0])], TrimmedNonEmpty(ps[1..]), TrimmedNonEmpty(qs));
    }
  }

  lemma {:induction false} TrimBlank(pad: string)
    requires AllBlank(pad)
    ensures Trim(pad) == ""
  {
    TrimLeftPad(pad, "");
    assert pad + "" == pad;
  }

  /** A separator and blanks at the end add no part. */
  lemma TrailAddsNothing(xs: seq<Token>, c: char, pad: string)
    requires AllBlank(pad) && !Space(c)
    ensures TrimmedNonEmpty(Texts(Pieces(xs + [Plain(c)] + Plains(pad), [c]))) == TrimmedNonEmpty(Texts(Pieces(xs, [c])))
  {
    var ps := Pieces(xs, [c]);
    BlankTokens(pad, c);
    PiecesConcat(xs, c, Plains(pad));
    PiecesBefore(Plains(pad), c, []);
    assert Texts(ps + [Plains(pad)]) == Texts(ps) + [pad];
    KeptConcat(Texts(ps), [pad]);
    TrimBlank(pad);
    assert [pad][1..] == [] && TrimmedNonEmpty([pad][1..]) == [];
  }

  /** What a list of texts is, read again. */
  ghost predicate ReadsAs(inner: string, texts: seq<string>, c: char) {
    && Tokens(inner).Some? && AllClosed(TokensOf(inner)) && Neat(TokensOf(inner)) && AllTidy(TokensOf(inner))
    && Split(inner, [c]) == Some(texts)
  }

  lemma ListReads(texts: seq<string>, c: char, first: string)
    requires texts != [] && Listed(texts, c) && AllBlank(first) && (c == ';' || c == ',')
    ensures ReadsAs(first + Join(texts, [c] + " "), texts, c)
    ensures TokensOf(first + Join(texts, [c] + " ")) == JoinedTokens(texts, " ", c, "", first)
  {
    var xs := JoinedTokens(texts, " ", c, "", first);
    OneBlank();
    JoinedTokensText(texts, " ", c, "", first);
    JoinedTokensSplit(texts, " ", c, "", first);
    JoinedNeat(texts, c, first);
    TokensOfFlat(xs);
    assert "" + [c] + " " == [c] + " ";
  }

  lemma TrailTokens(inner: string, c: char, pad: string)
    requires Tokens(inner).Some? && AllClosed(TokensOf(inner)) && AllBlank(pad) && (c == ';' || c == ',')
    ensures Tokens(inner + ([c] + pad)) == Some(TokensOf(inner) + [Plain(c)] + Plains(pad))
    ensures AllClosed(TokensOf(inner) + [Plain(c)] + Plains(pad))
  {
    var xs := TokensOf(inner);
    TokensAreText(inner);
    BlankTokens(pad, c);
    FlatThree(xs, [Plain(c)], Plains(pad));
    assert Flat([Plain(c)]) == [c];
    Associative(inner, [c], pad);
    TokensOfFlat(xs + [Plain(c)] + Plains(pad));
  }

  lemma TrailNeat(xs: seq<Token>, c: char, pad: string)
    requires Neat(xs) && AllTidy(xs) && AllBlank(pad) && (c == ';' || c == ',')
    ensures Neat(xs + [Plain(c)] + Plains(pad)) && AllTidy(xs + [Plain(c)] + Plains(pad))
  {
    PlainsOfBlank(pad);
    NeatConcat(xs, [Plain(c)]);
    NeatConcat(xs + [Plain(c)], Plains(pad));
  }

  lemma TrailReads(inner: string, texts: seq<string>, c: char, pad: string)
    requires ReadsAs(inner, texts, c) && AllBlank(pad) && (c == ';' || c == ',')
    ensures ReadsAs(inner + ([c] + pad), texts, c)
  {
    TrailTokens(inner, c, pad);
    TrailNeat(TokensOf(inner), c, pad);
    TrailAddsNothing(TokensOf(inner), c, pad);
  }

  lemma NothingReads(c: char)
    ensures ReadsAs("", [], c)
  {
    SplitNothing([c]);
  }

  lemma ListingText(open: char, texts: seq<string>)
    requires Opener(open) && texts != []
    ensures var c := SeparatorChar(open);
            Listing(open, texts) == if open == '{' then " " + Join(texts, [c] + " ") + ([c] + " ") else "" + Join(texts, [c] + " ")
  {
    var c := SeparatorChar(open);
    assert [c] + " " == if open == '{' then "; " else ", ";
  }

  lemma ListingReads(open: char, texts: seq<string>)
    requires Opener(open) && Listed(texts, SeparatorChar(open))
    ensures ReadsAs(Listing(open, texts), texts, SeparatorChar(open))
  {
    var c := SeparatorChar(open);
    if texts == [] {
      NothingReads(c);
    } else {
      OneBlank();
      ListingText(open, texts);
      ListReads(texts, c, if open == '{' then " " else "");
      if open == '{' { TrailReads(" " + Join(texts, [c] + " "), texts, c, " "); }
    }
  }

  // ---------- pieces and operands ----------

  lemma {:induction false} ReadsQuoted(quote: char, text: string, n: nat)
    requires Quote(quote) && quote !in text && '\\' !in text && 0 < n <= |text| + 1
    ensures After([quote] + text + [quote], n) == Text(quote, 0)
    decreases n
  {
    var s := [quote] + text + [quote];
    if n == 1 {
      assert After(s, 0) == Code(0);
    } else {
      ReadsQuoted(quote, text, n - 1);
      assert s[n - 1] == text[n - 2] && text[n - 2] in text;
    }
  }

  /** A text without its quote and without backslashes is closed by the quote after it. */
  lemma QuotedIsLegal(quote: char, text: string)
    requires Quote(quote) && quote !in text && '\\' !in text
    ensures LegalPiece(Quoted(quote, text))
  {
    var s := [quote] + text + [quote];
    forall n | 0 < n <= |s| - 1
      ensures After(s, n) == Text(quote, 0)
    {
      ReadsQuoted(quote, text, n);
    }
    assert After(s, |s|) == Step(s, |s| - 1, Text(quote, 0));
  }

  lemma QuotedSound(quote: char, text: string)
    requires LegalPiece(Quoted(quote, text))
    ensures SoundTokens([Solid([quote] + text + [quote])])
  {
  }

  /** What is rendered between the separators of a bracket group. */
  ghost predicate SoundMember(open: char, text: string) {
    Fit(text) && AllTidy(TokensOf(text)) && PartOk(open, text) && Plain(';') !in TokensOf(text) && Plain(',') !in TokensOf(text)
  }

  ghost predicate SoundTokens(xs: seq<Token>) {
    forall x <- xs :: Closed(x) && TidyToken(x) && (x.Plain? ==> CodeChar(x.c))
  }

  lemma BracketSound(open: char, texts: seq<string>)
    requires Opener(open) && forall text <- texts :: SoundMember(open, text)
    ensures SoundTokens([Solid([open] + Listing(open, texts) + [CloserOf(open)])])
  {
    var inner := Listing(open, texts);
    var tok := Solid([open] + inner + [CloserOf(open)]);
    ListingReads(open, texts);
    TokensAreText(inner);
    NeatIsWellFormed(TokensOf(inner));
    BracketCloses(open, TokensOf(inner));
    assert InnerOf(tok) == inner;
    TidyText(inner);
    assert SeparatorIn(open) == [SeparatorChar(open)];
  }

  lemma CleanHasNoOperator(xs: seq<Token>, defaults: bool)
    requires SoundTokens(xs) && Clean(xs, defaults)
    ensures forall i :: 0 <= i < |xs| ==> !Operator(xs, i) && (xs[i].Plain? ==> CodeChar(xs[i].c))
  {
    forall i | 0 <= i < |xs|
      ensures !Operator(xs, i) && (xs[i].Plain? ==> CodeChar(xs[i].c))
    {
      assert xs[i] in xs;
      if xs[i] == Plain('=') { assert Assigns(xs, i); }
    }
  }

  lemma CleanLacks(xs: seq<Token>)
    requires SoundTokens(xs)
    ensures Plain(':') !in xs && Plain(';') !in xs && Plain(',') !in xs
  {
  }

  /** Code without operators is whole. */
  lemma CleanIsSound(xs: seq<Token>, defaults: bool)
    requires SoundTokens(xs) && Clean(xs, defaults)
    ensures Sound(Flat(xs), defaults) && TokensOf(Flat(xs)) == xs && Plain(':') !in xs
  {
    CleanLacks(xs);
    assert Tokens(Flat(xs)) == Some(xs) by { TokensOfFlat(xs); }
    assert Flat(xs) != "" && Trim(Flat(xs)) == Flat(xs) by { SolidEndsStay(xs); }
    assert Neat(xs) && Whole(xs) by { CleanHasNoOperator(xs, defaults); }
  }

  // ---------- clauses ----------

  /** The text of a type, cut at the colons of its conditional types. */
  function Clauses(t: Type): (cs: seq<string>)
    ensures cs != []
  {
    match t
    case Function(p, r) => var cs := Clauses(r); [RenderOperand(p) + " => " + cs[0]] + cs[1..]
    case Choice(c, e, y, n) =>
      var cs := Clauses(y);
      [RenderType(c) + CLAUSE + RenderType(e) + " ? " + cs[0]] + cs[1..] + Clauses(n)
    case Bounded(name, b) => var cs := Clauses(b); [RenderOperand(name) + CLAUSE + cs[0]] + cs[1..]
    case _ => [RenderType(t)]
  }

  lemma {:induction false} JoinConcat(a: seq<string>, b: seq<string>, g: string)
    requires a != [] && b != []
    ensures Join(a + b, g) == Join(a, g) + g + Join(b, g)
    decreases |a|
  {
    if |a| == 1 {
      assert (a + b)[1..] == b;
    } else {
      JoinConcat(a[1..], b, g);
      assert (a + b)[1..] == a[1..] + b;
      Associative(a[0] + g, Join(a[1..], g), g);
      Associative(a[0] + g, Join(a[1..], g) + g, Join(b, g));
    }
  }

  lemma JoinFirst(x: string, cs: seq<string>, g: string)
    requires cs != []
    ensures Join([x + cs[0]] + cs[1..], g) == x + Join(cs, g)
  {
    assert ([x + cs[0]] + cs[1..])[1..] == cs[1..];
    if |cs| > 1 {
      Associative(x, cs[0], g);
      Associative(x, cs[0] + g, Join(cs[1..], g));
    }
  }

  lemma {:induction false} ClausesAreText(t: Type)
    ensures RenderType(t) == Join(Clauses(t), " : ")
    decreases t
  {
    match t
    case Function(p, r) =>
      ClausesAreText(r);
      JoinFirst(RenderOperand(p) + " => ", Clauses(r), " : ");
    case Choice(c, e, y, n) =>
      ClausesAreText(y);
      ClausesAreText(n);
      var x := RenderType(c) + CLAUSE + RenderType(e) + " ? ";
      var cs := Clauses(y);
      JoinFirst(x, cs, " : ");
      JoinConcat([x + cs[0]] + cs[1..], Clauses(n), " : ");
    case Bounded(name, b) =>
      ClausesAreText(b);
      JoinFirst(RenderOperand(name) + CLAUSE, Clauses(b), " : ");
    case _ =>
  }

  ghost predicate Clause(c: string, defaults: bool) {
    Sound(c, defaults) && Decided(TokensOf(c)) && Plain(':') !in TokensOf(c)
  }

  lemma DecidedGlued(a: string, g: string, b: string)
    requires Fit(a) && Fit(b) && Glue(g) && Decided(TokensOf(a)) && Decided(TokensOf(b))
    ensures Decided(TokensOf(a + g + b))
    ensures NoExtends(TokensOf(a)) && NoExtends(TokensOf(b)) ==> NoExtends(TokensOf(a + g + b))
  {
    if HasExtends(TokensOf(a)) || HasExtends(TokensOf(b)) { GluedExtends(a, g, b); }
    if NoExtends(TokensOf(a)) && NoExtends(TokensOf(b)) {
      NoExtendsAcrossGlue(TokensOf(a), g, TokensOf(b));
      GluedTokens(a, g, b);
    }
  }

  /** Glue of one operator, or of none. */
  lemma ThreeCharacters(g: string)
    requires |g| == 3 && g[0] == ' '
    requires ((g[1] == '&' || g[1] == '|' || g[1] == ':' || g[1] == '?') && g[2] == ' ')
    ensures SoundGlue(g) && (g[1] != '?' ==> Glue(g)) && (g[1] != ':' ==> ':' !in g)
  {
    var xs := Plains(g);
    assert forall i :: 0 <= i < |g| ==> xs[i] == Plain(g[i]);
    assert g == [g[0], g[1], g[2]];
    assert forall c <- EXTENDS :: c != ' ' && c != '&' && c != '|' && c != ':';
  }

  lemma OperatorGlue(g: string)
    requires g == " & " || g == " | " || g == " => "
    ensures SoundGlue(g) && Glue(g) && ':' !in g
  {
    if g == " => " {
      ArrowGlue();
      ArrowIsBetween();
    } else {
      ThreeCharacters(g);
    }
  }

  lemma ArrowIsBetween()
    ensures Between(" => ") && ';' !in " => " && ',' !in " => " && ':' !in " => "
  {
    var g := " => ";
    var xs := Plains(g);
    assert forall i :: 0 <= i < |g| ==> xs[i] == Plain(g[i]);
  }

  lemma ClauseGlue()
    ensures SoundGlue(CLAUSE) && ':' !in CLAUSE
  {
    var xs := Plains(CLAUSE);
    assert forall c <- CLAUSE :: c != '=' && c != '|' && c != '&' && c != ':' && c != ';' && c != ',' && !Closer(c);
    forall i | 0 <= i < |CLAUSE|
      ensures xs[i] == Plain(CLAUSE[i]) && !Operator(xs, i) && xs[i] != Plain('=') && !Closer(CLAUSE[i])
    {
      assert CLAUSE[i] in CLAUSE;
    }
  }

  lemma ColonGlues(g: string)
    requires g == ":" || g == " : "
    ensures SoundGlue(g) && Glue(g)
  {
    if g == " : " {
      ThreeCharacters(g);
    } else {
      ColonGlue();
      assert Plains(g) == [Plain(':')];
    }
  }

  lemma ClauseGlued(a: string, g: string, b: string, defaults: bool)
    requires Clause(a, defaults) && Clause(b, defaults) && (g == " & " || g == " | " || g == " => ")
    ensures Clause(a + g + b, defaults)
    ensures NoExtends(TokensOf(a)) && NoExtends(TokensOf(b)) ==> NoExtends(TokensOf(a + g + b))
  {
    OperatorGlue(g);
    SoundGlued(a, g, b, defaults);
    DecidedGlued(a, g, b);
  }

  lemma ColonFree(a: string, g: string, b: string, defaults: bool)
    requires Sound(a, defaults) && Sound(b, defaults) && SoundGlue(g) && ':' !in g
    requires Plain(':') !in TokensOf(a) && Plain(':') !in TokensOf(b)
    ensures Sound(a + g + b, defaults) && Plain(':') !in TokensOf(a + g + b)
  {
    SoundGlued(a, g, b, defaults);
  }

  lemma ClauseMade(c: string, rest: string, defaults: bool)
    requires Sound(c, defaults) && Sound(rest, defaults) && Plain(':') !in TokensOf(c) && Plain(':') !in TokensOf(rest)
    ensures Clause(c + CLAUSE + rest, defaults)
  {
    ClauseGlue();
    ColonFree(c, CLAUSE, rest, defaults);
    ExtendsMade(TokensOf(c), TokensOf(rest));
    GluedTokens(c, CLAUSE, rest);
  }

  lemma FiveTexts(c: string, g: string, e: string, h: string, y: string)
    ensures c + g + (e + h + y) == c + g + e + h + y
  {
  }

  lemma ChoiceClause(c: string, e: string, y: string, defaults: bool)
    requires Clause(c, defaults) && Clause(e, defaults) && Clause(y, defaults)
    ensures Clause(c + CLAUSE + e + " ? " + y, defaults)
  {
    ThreeCharacters(" ? ");
    ColonFree(e, " ? ", y, defaults);
    ClauseMade(c, e + " ? " + y, defaults);
    FiveTexts(c, CLAUSE, e, " ? ", y);
  }

  lemma TightGlued(xs: seq<Token>, ys: seq<Token>)
    requires Whole(xs) && Whole(ys) && Plain(':') !in xs && Tight(ys)
    ensures Tight(xs + Plains(":") + ys)
  {
    var all := xs + Plains(":") + ys;
    NoColonIsTight(xs);
    forall i | 0 <= i < |all| && all[i] == Plain(':')
      ensures 0 < i < |all| - 1 && !Edge(all[i - 1]) && !Edge(all[i + 1])
    {
      if i > |xs| { assert ys[i - |xs| - 1] == Plain(':'); }
    }
  }

  /** Clauses, joined by colons, are sound, and read as a type. */
  lemma {:induction false} JoinClauses(cs: seq<string>, g: string, defaults: bool)
    requires cs != [] && (forall c <- cs :: Clause(c, defaults)) && (g == ":" || g == " : ")
    ensures Sound(Join(cs, g), defaults) && Decided(TokensOf(Join(cs, g)))
    ensures g == ":" ==> Tight(TokensOf(Join(cs, g)))
    decreases |cs|
  {
    assert Clause(cs[0], defaults);
    if |cs| > 1 {
      var rest := Join(cs[1..], g);
      JoinClauses(cs[1..], g, defaults);
      ColonGlues(g);
      SoundGlued(cs[0], g, rest, defaults);
      DecidedGlued(cs[0], g, rest);
      if g == ":" { TightGlued(TokensOf(cs[0]), TokensOf(rest)); }
    } else {
      NoColonIsTight(TokensOf(cs[0]));
    }
  }

  lemma NoColonIsTight(xs: seq<Token>)
    requires Plain(':') !in xs
    ensures Tight(xs) && forall i :: 0 <= i < |xs| ==> xs[i] != Plain(':')
  {
    forall i | 0 <= i < |xs|
      ensures xs[i] != Plain(':')
    {
      assert xs[i] in xs;
    }
  }

  lemma SplitClauses(cs: seq<string>, defaults: bool)
    requires forall c <- cs :: Clause(c, defaults)
    ensures Split(Join(cs, " : "), ":") == Some(cs)
  {
    OneBlank();
    assert " " + [':'] + " " == " : ";
    SplitJoined(cs, " ", ':', " ");
  }

  // ---------- members ----------

  lemma ValueShape(key: string, cs: seq<string>, defaults: bool)
    requires cs != [] && forall c <- cs :: Clause(c, defaults)
    ensures var w := WithoutImpliedUndefined(key, Join(cs, ":")); w.Some? && TypeShape(w.value) && Tight(TokensOf(w.value))
  {
    JoinClauses(cs, ":", defaults);
    LeftOverWhole(key, Join(cs, ":"));
  }

  lemma OnlyShape(open: char, cs: seq<string>)
    requires Opener(open) && cs != [] && forall c <- cs :: Clause(c, open == '<')
    ensures SoundMember(open, Join(cs, " : "))
  {
    var text := Join(cs, " : ");
    JoinClauses(cs, " : ", open == '<');
    if open == '<' {
      WholeShape(text);
    } else {
      SplitClauses(cs, false);
      if |cs| == 1 { WholeShape(text); } else { ValueShape(cs[0], cs[1..], false); }
    }
  }

  lemma KeyedTokens(k: string, v: string)
    requires Sound(k, false) && Sound(v, false)
    ensures var m := k + ": " + v;
      Fit(m) && AllTidy(TokensOf(m)) && Pure(TokensOf(m)) && Plain(';') !in TokensOf(m) && Plain(',') !in TokensOf(m)
  {
    ColonGlue();
    GluedTokens(k, ": ", v);
    PureConcat(TokensOf(k), Plains(": "));
    PureConcat(TokensOf(k) + Plains(": "), TokensOf(v));
  }

  lemma KeyedShape(open: char, k: string, cs: seq<string>)
    requires Opener(open) && open != '<' && Sound(k, false) && Plain(':') !in TokensOf(k)
    requires cs != [] && forall c <- cs :: Clause(c, false)
    ensures SoundMember(open, k + ": " + Join(cs, " : "))
  {
    var v := Join(cs, " : ");
    JoinClauses(cs, " : ", false);
    KeyedTokens(k, v);
    SplitColon(k, v);
    SplitClauses(cs, false);
    assert ([k] + cs)[1..] == cs;
    ValueShape(k, cs, false);
  }

  // ---------- every tree ----------

  lemma {:induction false} PiecesSound(pieces: seq<Piece>)
    requires forall p <- pieces :: SoundTokens(PieceTokens(p))
    ensures SoundTokens(OperandTokens(pieces))
    decreases |pieces|
  {
    if pieces != [] { PiecesSound(pieces[1..]); }
  }

  lemma CodeSound(text: string)
    requires forall c <- text :: CodeChar(c)
    ensures SoundTokens(Plains(text))
  {
    forall i | 0 <= i < |text|
      ensures CodeChar(text[i])
    {
      assert text[i] in text;
    }
  }

  lemma {:induction false} PieceSound(p: Piece)
    requires LegalPiece(p)
    ensures SoundTokens(PieceTokens(p))
    decreases p
  {
    match p
    case Words(text) => CodeSound(text);
    case Quoted(quote, text) => QuotedSound(quote, text);
    case Bracket(open, members) =>
      var texts := seq(|members|, i requires 0 <= i < |members| => RenderMember(members[i]));
      forall i | 0 <= i < |members|
        ensures SoundMember(open, texts[i])
      {
        MemberSound(open, members[i]);
      }
      BracketSound(open, texts);
  }

  lemma {:induction false} OperandSound(o: Operand, defaults: bool)
    requires LegalKey(o, defaults)
    ensures Sound(RenderOperand(o), defaults) && Plain(':') !in TokensOf(RenderOperand(o))
    ensures TokensOf(RenderOperand(o)) == OperandTokens(o.pieces)
    decreases o
  {
    forall p | p in o.pieces
      ensures SoundTokens(PieceTokens(p))
    {
      PieceSound(p);
    }
    PiecesSound(o.pieces);
    CleanIsSound(OperandTokens(o.pieces), defaults);
  }

  lemma FunctionClauses(p: string, cs: seq<string>, defaults: bool)
    requires Clause(p, defaults) && cs != [] && (forall c <- cs :: Clause(c, defaults)) && NoExtends(TokensOf(p))
    ensures forall c <- [p + " => " + cs[0]] + cs[1..] :: Clause(c, defaults)
    ensures NoExtends(TokensOf(cs[0])) ==> NoExtends(TokensOf(p + " => " + cs[0]))
  {
    ClauseGlued(p, " => ", cs[0], defaults);
  }

  lemma ChoiceClauses(c: string, e: string, ys: seq<string>, ns: seq<string>, defaults: bool)
    requires Clause(c, defaults) && Clause(e, defaults) && ys != []
    requires (forall y <- ys :: Clause(y, defaults)) && (forall n <- ns :: Clause(n, defaults))
    ensures forall x <- [c + CLAUSE + e + " ? " + ys[0]] + ys[1..] + ns :: Clause(x, defaults)
  {
    ChoiceClause(c, e, ys[0], defaults);
  }

  lemma BoundedClauses(name: string, cs: seq<string>, defaults: bool)
    requires Sound(name, defaults) && Plain(':') !in TokensOf(name) && cs != [] && forall c <- cs :: Clause(c, defaults)
    ensures forall c <- [name + CLAUSE + cs[0]] + cs[1..] :: Clause(c, defaults)
  {
    assert Clause(cs[0], defaults);
    ClauseMade(name, cs[0], defaults);
  }

  lemma {:induction false} TypeSound(t: Type, defaults: bool)
    requires LegalType(t, defaults)
    ensures forall c <- Clauses(t) :: Clause(c, defaults)
    ensures Simple(t) ==> |Clauses(t)| == 1 && NoExtends(TokensOf(Clauses(t)[0]))
    decreases t
  {
    match t
    case Named(o) =>
      OperandSound(o, defaults);
    case Intersection(l, r) =>
      TypeSound(l, defaults);
      TypeSound(r, defaults);
      ClauseGlued(Clauses(l)[0], " & ", Clauses(r)[0], defaults);
    case Union(l, r) =>
      TypeSound(l, defaults);
      TypeSound(r, defaults);
      ClauseGlued(Clauses(l)[0], " | ", Clauses(r)[0], defaults);
    case Function(p, r) =>
      OperandSound(p, defaults);
      TypeSound(r, defaults);
      FunctionClauses(RenderOperand(p), Clauses(r), defaults);
    case Choice(c, e, y, n) =>
      TypeSound(c, defaults);
      TypeSound(e, defaults);
      TypeSound(y, defaults);
      TypeSound(n, defaults);
      ClausesAreText(c);
      ClausesAreText(e);
      ChoiceClauses(RenderType(c), RenderType(e), Clauses(y), Clauses(n), defaults);
    case Bounded(name, b) =>
      OperandSound(name, defaults);
      TypeSound(b, defaults);
      BoundedClauses(RenderOperand(name), Clauses(b), defaults);
  }

  lemma {:induction false} MemberSound(open: char, m: Member)
    requires Opener(open) && LegalMember(open, m)
    ensures SoundMember(open, RenderMember(m))
    decreases m
  {
    match m
    case Only(t) =>
      TypeSound(t, open == '<');
      ClausesAreText(t);
      OnlyShape(open, Clauses(t));
    case Keyed(key, t) =>
      OperandSound(key, false);
      TypeSound(t, false);
      ClausesAreText(t);
      KeyedShape(open, RenderOperand(key), Clauses(t));
  }

  // ---------- declarations ----------

  lemma MemberStatement(m: Member)
    requires LegalMember('{', m)
    ensures var s := RenderMember(m); StatementShape(s) && Listed([s], ';')
  {
    var s := RenderMember(m);
    MemberSound('{', m);
    MemberPure(m);
    NoAssignment(s);
  }

  lemma MemberPure(m: Member)
    requires LegalMember('{', m)
    ensures Pure(TokensOf(RenderMember(m)))
  {
    match m
    case Only(t) => TypeTextSound(t);
    case Keyed(key, t) =>
      OperandSound(key, false);
      TypeTextSound(t);
      KeyedTokens(RenderOperand(key), RenderType(t));
  }

  lemma TypeTextSound(t: Type)
    requires LegalType(t, false)
    ensures Sound(RenderType(t), false) && TypeShape(RenderType(t))
  {
    TypeSound(t, false);
    ClausesAreText(t);
    JoinClauses(Clauses(t), " : ", false);
    WholeShape(RenderType(t));
  }

  lemma AliasStatement(head: Operand, t: Type)
    requires LegalKey(head, false) && LegalType(t, false)
    ensures var s := RenderOperand(head) + " = " + RenderType(t); StatementShape(s) && Listed([s], ';')
  {
    var a, b := RenderOperand(head), RenderType(t);
    OperandSound(head, false);
    TypeTextSound(t);
    AliasShape(a, b);
  }

  lemma AliasShape(a: string, t: string)
    requires Sound(a, false) && Sound(t, false) && TypeShape(t)
    ensures StatementShape(a + " = " + t) && Listed([a + " = " + t], ';')
  {
    SplitAssignment(a, t);
    AliasTokens(a, t);
    AliasNeat(TokensOf(a), TokensOf(t));
  }

  lemma AliasNeat(xs: seq<Token>, ys: seq<Token>)
    requires Neat(xs) && Neat(ys) && AllTidy(xs) && AllTidy(ys) && Whole(ys) && Plain(';') !in xs && Plain(';') !in ys
    ensures var all := xs + Plains(" = ") + ys; Neat(all) && AllTidy(all) && Plain(';') !in all
  {
    var all := xs + Plains(" = ") + ys;
    var n := |xs|;
    assert all[n] == Plain(' ') && all[n + 1] == Plain('=') && all[n + 2] == Plain(' ') && all[n + 3] == ys[0];
    forall i | 0 <= i < |all| && all[i] == Plain('=')
      ensures Arrow(all, i) || Assigns(all, i)
    {
      if i < n {
        assert Arrow(xs, i) || Assigns(xs, i);
      } else if i >= n + 3 {
        assert ys[i - n - 3] == Plain('=');
        assert Arrow(ys, i - n - 3) || Assigns(ys, i - n - 3);
      }
    }
  }

  lemma StatementSound(s: Statement)
    requires LegalStatement(s)
    ensures StatementShape(RenderStatement(s)) && Listed([RenderStatement(s)], ';')
  {
    match s
    case Alias(head, t) => AliasStatement(head, t);
    case Stated(m) => MemberStatement(m);
  }

  lemma StatementsSound(ss: seq<Statement>) returns (texts: seq<string>)
    requires forall s <- ss :: LegalStatement(s)
    ensures texts == Mapped(ss, (s: Statement) => RenderStatement(s))
    ensures Listed(texts, ';') && forall text <- texts :: StatementShape(text)
  {
    texts := Mapped(ss, (s: Statement) => RenderStatement(s));
    forall i | 0 <= i < |ss|
      ensures StatementShape(texts[i]) && Part(texts[i], ';') && Neat(TokensOf(texts[i])) && AllTidy(TokensOf(texts[i]))
    {
      StatementSound(ss[i]);
      assert texts[i] in [texts[i]];
    }
  }

  lemma StatementsRead(texts: seq<string>)
    requires texts != [] && Listed(texts, ';')
    ensures ReadsAs(Join(texts, "; ") + ";", texts, ';')
  {
    OneBlank();
    assert [';'] + " " == "; " && "" + Join(texts, "; ") == Join(texts, "; ") && [';'] + "" == ";";
    ListReads(texts, ';', "");
    TrailReads(Join(texts, "; "), texts, ';', "");
  }

  /** Every rendered declaration is well formed. */
  lemma RenderedIsWellFormed(ss: seq<Statement>)
    requires forall s <- ss :: LegalStatement(s)
    ensures WellFormedDeclaration(RenderDeclaration(ss))
  {
    var texts := StatementsSound(ss);
    if ss == [] { NothingReads(';'); } else { StatementsRead(texts); }
    TidyText(RenderDeclaration(ss));
  }

  /** The canonical form of a rendered declaration is its own canonical form. */
  lemma RenderedIsIdempotent(ss: seq<Statement>)
    requires forall s <- ss :: LegalStatement(s)
    ensures var r := CanonicalDeclaration(RenderDeclaration(ss)); r.Some? && CanonicalDeclaration(r.value) == r
  {
    RenderedIsWellFormed(ss);
    CanonicalIsIdempotent(RenderDeclaration(ss));
  }
}
