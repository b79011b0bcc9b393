/**
 Where the order of a union does show: behind a head.

 The printer takes the operands of a union to be what stands between its bars.  In `v is A | B`, `K in A | B` and
 `T = A | B` the words before the union belong to its first operand, so another operand in first place is another type.
 */
module TypeHead {
  import opened Wrappers
  import opened TypeScan
  import opened TypeText
  import opened TypeCanon
  import opened TypeStable
  import opened TypeFixpoint
  import opened TypeWhole
  import opened TypeSyntax
  import opened TypeShown

  // ---------- a head before a text ----------

  /** Words before an operand, such as `v is `. */
  predicate Head(p: string) {
    p != "" && !Space(p[0]) && forall c <- p :: !Quote(c) && !Opener(c) && c != '&'
  }

  lemma {:induction false} TrimRightBehind(p: string, s: string)
    requires s != "" && !Space(s[0])
    ensures TrimRight(p + s) == p + TrimRight(s)
    decreases |s|
  {
    var n := |s| - 1;
    assert (p + s)[|p + s| - 1] == s[n];
    if Space(s[n]) {
      assert (p + s)[..|p + s| - 1] == p + s[..n];
      TrimRightBehind(p, s[..n]);
    }
  }

  lemma TrimBehind(p: string, s: string)
    requires p != "" && !Space(p[0]) && s != "" && !Space(s[0])
    ensures Trim(p + s) == p + Trim(s)
  {
    TrimRightBehind(p, s);
  }

  lemma OntoFirstPiece(x: char, p: string, ps: seq<seq<Token>>)
    requires ps != []
    ensures Plains([x] + p) + ps[0] == [Plain(x)] + (Plains(p) + ps[0])
  {
  }

  lemma {:induction false} PiecesBehind(p: string, xs: seq<Token>, c: char)
    requires c !in p
    ensures Pieces(Plains(p) + xs, [c]) == [Plains(p) + Pieces(xs, [c])[0]] + Pieces(xs, [c])[1..]
    decreases |p|
  {
    var ps := Pieces(xs, [c]);
    if p == "" {
      assert Plains(p) + xs == xs && Plains(p) + ps[0] == ps[0] && ps == [ps[0]] + ps[1..];
    } else {
      var x, rest := p[0], p[1..];
      assert p == [x] + rest;
      PiecesBehind(rest, xs, c);
      PiecesStep(Plain(x), Plains(rest) + xs, c);
      OntoFirstPiece(x, rest, [xs]);
      OntoFirstPiece(x, rest, ps);
      assert ([Plains(rest) + ps[0]] + ps[1..])[1..] == ps[1..];
    }
  }

  lemma FirstPieceKept(xs: seq<Token>)
    requires Whole(xs) && AllClosed(xs)
    ensures var p := Pieces(xs, "&")[0]; p != [] && Flat(p) != "" && !Space(Flat(p)[0]) && AllClosed(p)
  {
    var ps := Pieces(xs, "&");
    PiecesDivide(xs, "&");
    PiecesTokens(xs, "&");
    assert Among(ps[0], xs);
    FirstPieceStarts(ps, xs, "&");
    FirstCharacter(ps[0]);
  }

  /** An operand of a union: settled, without bars, nothing missing. */
  ghost predicate UnionOperand(m: string) {
    SettledText(m) && Whole(TokensOf(m)) && Plain('|') !in TokensOf(m)
  }

  lemma HeadTokensOf(p: string, m: string)
    requires Head(p) && Fit(m)
    ensures Tokens(p + m) == Some(Plains(p) + TokensOf(m))
  {
    CodeTokens(p);
    ConcatTokens(p, m);
  }

  /** A head stays before the first operand of an intersection. */
  lemma SplitBehind(p: string, m: string)
    requires Head(p) && UnionOperand(m)
    ensures Split(m, "&").Some? && Split(m, "&").value != [] && Split(p + m, "&").Some?
    ensures var parts := Split(m, "&").value; Split(p + m, "&").value == [p + parts[0]] + parts[1..]
  {
    var xs := TokensOf(m);
    var ps := Pieces(xs, "&");
    HeadTokensOf(p, m);
    PiecesBehind(p, xs, '&');
    FirstPieceKept(xs);
    var first := Flat(ps[0]);
    FlatAppend(Plains(p), ps[0]);
    FlatPlains(p);
    TrimBehind(p, first);
    TrimmedStart(first);
    KeptFirst(ps[0], ps[1..]);
    KeptFirst(Plains(p) + ps[0], ps[1..]);
    assert ps == [ps[0]] + ps[1..];
    assert ([Trim(first)] + TrimmedNonEmpty(Texts(ps[1..])))[1..] == TrimmedNonEmpty(Texts(ps[1..]));
  }

  lemma {:induction false} PrintBehind(p: string, xs: seq<Token>)
    requires forall c <- p :: !Quote(c) && !Opener(c)
    ensures PrintAll(Plains(p) + xs) == Onto(p, PrintAll(xs))
    decreases |p|
  {
    if p == "" {
      assert Plains(p) + xs == xs;
      assert PrintAll(xs).Some? ==> "" + PrintAll(xs).value == PrintAll(xs).value;
    } else {
      PrintBehind(p[1..], xs);
      var all := Plains(p) + xs;
      assert all[0] == Plain(p[0]) && all[1..] == Plains(p[1..]) + xs;
      if PrintAll(xs).Some? {
        assert [p[0]] + (p[1..] + PrintAll(xs).value) == p + PrintAll(xs).value;
      }
    }
  }

  lemma AtomBehind(p: string, a: string)
    requires Head(p) && SettledText(a)
    ensures CanonicalAtom(a).Some? && CanonicalAtom(p + a) == Some(p + CanonicalAtom(a).value)
  {
    var xs := TokensOf(a);
    HeadTokensOf(p, a);
    PrintBehind(p, xs);
    SettledAtom(a);
    ReprintedTokens(xs);
    var q := CanonicalAtom(a).value;
    assert PrintAll(xs) == Some(q) && q != "" && Trim(q) == q;
    TrimmedEnds(q);
    FirstIsNotSpace(q);
    TrimBehind(p, q);
  }

  /** And it is printed as it is. */
  lemma HeadPrints(p: string, m: string)
    requires Head(p) && UnionOperand(m)
    ensures CanonicalIntersection(m).Some? && CanonicalIntersection(p + m) == Some(p + CanonicalIntersection(m).value)
  {
    var parts := Split(m, "&").value;
    var atoms := IntersectionPrints(m);
    SplitBehind(p, m);
    PartsSettled(m, '&');
    AtomBehind(p, parts[0]);
    var headed := [p + atoms[0]] + atoms[1..];
    IntersectionIsAtoms(p + m);
    EachPrinted([p + parts[0]] + parts[1..], Atoms(), headed);
    JoinFirst(p, atoms, " & ");
  }

  // ---------- behind a head, the first operand shows ----------

  /** The union of these operands, behind a head. */
  function Headed(p: string, ms: seq<string>): string
    requires ms != []
  {
    Join([p + ms[0]] + ms[1..], " | ")
  }

  ghost predicate HeadedUnion(p: string, ms: seq<string>) {
    ms != [] && Head(p) && (forall m <- ms :: UnionOperand(m)) && UnionOperand(p + ms[0])
  }

  lemma OperandsJoin(ms: seq<string>)
    requires ms != [] && forall m <- ms :: UnionOperand(m)
    ensures var t := Join(ms, " | "); SettledText(t) && Whole(TokensOf(t)) && UnionShape(t) && Split(t, "|") == Some(ms)
  {
    BarBetween();
    JoinWhole(ms, " | ");
    JoinSettled(ms, " | ");
    WholeUnion(Join(ms, " | "));
    assert " | " == " " + ['|'] + " ";
    SplitJoined(ms, " ", '|', " ");
  }

  lemma OperandsPrint(ms: seq<string>) returns (printed: seq<string>)
    requires forall m <- ms :: UnionOperand(m)
    ensures Prints(ms, Intersections(), printed)
  {
    printed := seq(|ms|, i requires 0 <= i < |ms| => CanonicalIntersection(ms[i]).GetOr(""));
    forall i | 0 <= i < |ms|
      ensures CanonicalIntersection(ms[i]) == Some(printed[i])
    {
      assert UnionOperand(ms[i]);
      var atoms := IntersectionPrints(ms[i]);
    }
  }

  lemma HeadedPrint(p: string, ms: seq<string>) returns (printed: seq<string>)
    requires HeadedUnion(p, ms)
    ensures Prints(ms, Intersections(), printed)
    ensures Prints([p + ms[0]] + ms[1..], Intersections(), [p + printed[0]] + printed[1..])
  {
    printed := OperandsPrint(ms);
    HeadPrints(p, ms[0]);
  }

  lemma PrintsForgetOrder(ms: seq<string>, ns: seq<string>, printer: string -> Option<string>, a: seq<string>, b: seq<string>)
    requires multiset(ms) == multiset(ns) && Prints(ms, printer, a) && Prints(ns, printer, b)
    ensures multiset(a) == multiset(b)
  {
    EachPrinted(ms, printer, a);
    EachPrinted(ns, printer, b);
    MappedForgetsOrder(ms, ns, printer);
    AllSomeForgetsOrder(Mapped(ms, printer), Mapped(ns, printer));
  }

  lemma OnceMore(x: string, y: string, headedX: string, headedY: string, s: multiset<string>, t: multiset<string>)
    requires multiset{x} + s == multiset{y} + t && x != y && headedY != y
    ensures multiset{headedX} + s != multiset{headedY} + t
  {
    assert (multiset{x} + s)[y] == s[y] && (multiset{y} + t)[y] == t[y] + 1;
    assert (multiset{headedX} + s)[y] >= s[y] && (multiset{headedY} + t)[y] == t[y];
  }

  lemma SameRest(x: string, s: multiset<string>, t: multiset<string>)
    requires multiset{x} + s == multiset{x} + t
    ensures s == t
  {
    assert s == multiset{x} + s - multiset{x} && t == multiset{x} + t - multiset{x};
  }

  lemma HeadedCounts(p: string, a: seq<string>)
    requires a != []
    ensures multiset(a) == multiset{a[0]} + multiset(a[1..])
    ensures multiset([p + a[0]] + a[1..]) == multiset{p + a[0]} + multiset(a[1..])
  {
    assert a == [a[0]] + a[1..];
  }

  lemma FirstShows(p: string, a: seq<string>, b: seq<string>)
    requires p != "" && a != [] && b != [] && multiset(a) == multiset(b)
    ensures multiset([p + a[0]] + a[1..]) == multiset([p + b[0]] + b[1..]) <==> a[0] == b[0]
  {
    HeadedCounts(p, a);
    HeadedCounts(p, b);
    if a[0] == b[0] {
      SameRest(a[0], multiset(a[1..]), multiset(b[1..]));
    } else {
      assert |p + b[0]| > |b[0]|;
      OnceMore(a[0], b[0], p + a[0], p + b[0], multiset(a[1..]), multiset(b[1..]));
    }
  }

  /** Behind a head, a union in another order is the same type exactly when the same operand comes first. */
  lemma HeadShows(p: string, ms: seq<string>, ns: seq<string>)
    requires HeadedUnion(p, ms) && HeadedUnion(p, ns) && multiset(ms) == multiset(ns)
    ensures CanonicalUnion(Headed(p, ms)) == CanonicalUnion(Headed(p, ns))
      <==> CanonicalIntersection(ms[0]) == CanonicalIntersection(ns[0])
  {
    var a := HeadedPrint(p, ms);
    var b := HeadedPrint(p, ns);
    OperandsJoin([p + ms[0]] + ms[1..]);
    OperandsJoin([p + ns[0]] + ns[1..]);
    UnionsAgree(Headed(p, ms), Headed(p, ns), [p + a[0]] + a[1..], [p + b[0]] + b[1..]);
    PrintsForgetOrder(ms, ns, Intersections(), a, b);
    FirstShows(p, a, b);
  }

  // ---------- in a declaration ----------

  /** Headed unions that are read as unions. */
  ghost predicate HeadedTypes(p: string, ms: seq<string>, ns: seq<string>) {
    && HeadedUnion(p, ms) && HeadedUnion(p, ns) && multiset(ms) == multiset(ns)
    && PlainUnion(Headed(p, ms)) && PlainUnion(Headed(p, ns))
  }

  lemma HeadShowsInType(p: string, ms: seq<string>, ns: seq<string>)
    requires HeadedTypes(p, ms, ns)
    ensures CanonicalType(Headed(p, ms)).Some? && CanonicalType(Headed(p, ns)).Some?
    ensures CanonicalType(Headed(p, ms)) == CanonicalType(Headed(p, ns))
      <==> CanonicalIntersection(ms[0]) == CanonicalIntersection(ns[0])
  {
    TypeIsUnion(Headed(p, ms));
    TypeIsUnion(Headed(p, ns));
    HeadShows(p, ms, ns);
    HeadedUnionPrints(p, ms);
    HeadedUnionPrints(p, ns);
  }

  lemma HeadedUnionPrints(p: string, ms: seq<string>)
    requires HeadedUnion(p, ms)
    ensures CanonicalUnion(Headed(p, ms)).Some?
  {
    OperandsJoin([p + ms[0]] + ms[1..]);
    var printed := UnionPrints(Headed(p, ms));
  }

  /** A declaration of one statement, a required key and its type. */
  ghost predicate Declares(d: string, key: string, t: string) {
    && Split(d, ";") == Some([d]) && Split(d, " = ") == Some([d]) && Split(d, ":") == Some([key, t])
    && !Optional(key) && CanonicalAtom(key).Some?
  }

  lemma DeclaredType(d: string, key: string, t: string)
    requires Declares(d, key, t) && CanonicalType(t).Some?
    ensures CanonicalDeclaration(d) == Some(CanonicalAtom(key).value + ": " + CanonicalType(t).value)
  {
    assert [key, t][1..] == [t] && Join([t], ":") == t;
    KeyedMember(d, [key, t], CanonicalAtom(key).value, t, CanonicalType(t).value);
    NotAliased(d, CanonicalMember(d).value);
    PrintedDeclaration(d, [d], [CanonicalStatement(d).value]);
  }

  /** A headed union, such as a type predicate, as the type of a declared name or the result of a declared function. */
  lemma HeadShowsAtTop(d: string, e: string, key: string, p: string, ms: seq<string>, ns: seq<string>)
    requires HeadedTypes(p, ms, ns) && Declares(d, key, Headed(p, ms)) && Declares(e, key, Headed(p, ns))
    ensures CanonicalDeclaration(d) == CanonicalDeclaration(e) <==> CanonicalIntersection(ms[0]) == CanonicalIntersection(ns[0])
  {
    HeadShowsInType(p, ms, ns);
    DeclaredType(d, key, Headed(p, ms));
    DeclaredType(e, key, Headed(p, ns));
    var k, v, w := CanonicalAtom(key).value, CanonicalType(Headed(p, ms)).value, CanonicalType(Headed(p, ns)).value;
    if k + ": " + v == k + ": " + w { CancelLeft(k + ": ", v, w); }
  }

  /** Groups whose parts are the same but for the `k`-th print alike exactly when that part does. */
  lemma PartDecides(open: char, t: string, u: string, k: nat, q: string)
    requires GroupOk(open, t) && GroupOk(open, u) && AllSettled(TokensOf(t)) && AllSettled(TokensOf(u))
    requires k < |Split(t, SeparatorIn(open)).value|
    requires Split(u, SeparatorIn(open)).value == Split(t, SeparatorIn(open)).value[k := q]
    ensures CanonicalGroup(open, t) == CanonicalGroup(open, u) <==> PrintPart(open, Split(t, SeparatorIn(open)).value[k]) == PrintPart(open, q)
  {
    var ps, qs := Split(t, SeparatorIn(open)).value, Split(u, SeparatorIn(open)).value;
    var a := GroupPrintsParts(open, t);
    var b := GroupPrintsParts(open, u);
    forall j | 0 <= j < |ps| && j != k
      ensures a[j] == b[j]
    {
      assert PartPrinter(open)(ps[j]) == PartPrinter(open)(qs[j]);
    }
    assert PrintPart(open, ps[k]) == Some(a[k]) && PrintPart(open, qs[k]) == Some(b[k]);
    if a[k] == b[k] { assert a == b; } else { GroupShowsPart(open, a, b, k); }
  }

  /** A type argument, or a part of another group without a key. */
  ghost predicate Keyless(open: char, t: string) {
    open != '<' ==> Split(t, ":") == Some([t])
  }

  lemma KeylessPrints(open: char, t: string)
    requires Keyless(open, t)
    ensures PrintPart(open, t) == CanonicalType(t)
  {
    if open != '<' { OnlyType(t, t); }
  }

  /**
   A headed union inside a bracket group, such as the names of a mapped type or a default type argument, at any depth:
   written in another order it gives the same canonical declaration exactly when its first operand prints the same.
   */
  lemma HeadShowsAtAnyDepth(c: Context, open: char, xs: seq<Token>, ys: seq<Token>, d: string, e: string,
                            k: nat, p: string, ms: seq<string>, ns: seq<string>)
    requires Opener(open) && WellFormed(xs) && WellFormed(ys)
    requires Fits(c, [Group(open, xs)]) && d == Flat(Fill(c, [Group(open, xs)])) && WellFormedDeclaration(d)
    requires Fits(c, [Group(open, ys)]) && e == Flat(Fill(c, [Group(open, ys)])) && WellFormedDeclaration(e)
    requires HeadedTypes(p, ms, ns) && Keyless(open, Headed(p, ms)) && Keyless(open, Headed(p, ns))
    requires Split(Flat(xs), SeparatorIn(open)).Some? && k < |Split(Flat(xs), SeparatorIn(open)).value|
    requires Split(Flat(xs), SeparatorIn(open)).value[k] == Headed(p, ms)
    requires Split(Flat(ys), SeparatorIn(open)) == Some(Split(Flat(xs), SeparatorIn(open)).value[k := Headed(p, ns)])
    ensures CanonicalDeclaration(d) == CanonicalDeclaration(e) <==> CanonicalIntersection(ms[0]) == CanonicalIntersection(ns[0])
  {
    GroupAtDepth(c, open, xs);
    GroupAtDepth(c, open, ys);
    ShownAtAnyDepth(c, open, xs, ys, d, e);
    PartDecides(open, Flat(xs), Flat(ys), k, Headed(p, ns));
    KeylessPrints(open, Headed(p, ms));
    KeylessPrints(open, Headed(p, ns));
    HeadShowsInType(p, ms, ns);
  }

  // ---------- the order of a type predicate ----------

  /** Words without operators. */
  predicate Plainly(text: string) {
    && text != "" && !Edge(Plain(text[0])) && !Edge(Plain(text[|text| - 1]))
    && forall c <- text :: CodeChar(c) && c != '='
  }

  lemma OneWords(text: string)
    ensures OperandTokens([Words(text)]) == Plains(text) && RenderOperand(Operand([Words(text)])) == text
  {
    assert [Words(text)][1..] == [] && Plains(text) + [] == Plains(text);
    FlatPlains(text);
  }

  lemma PlainlyClean(text: string)
    requires Plainly(text)
    ensures SoundTokens(Plains(text)) && Clean(Plains(text), false) && Plain('|') !in Plains(text)
  {
    CodeSound(text);
    forall i | 0 <= i < |text|
      ensures text[i] != '=' && text[i] != '|'
    {
      assert text[i] in text;
    }
  }

  lemma PlainlyOperand(text: string)
    requires Plainly(text)
    ensures UnionOperand(text) && LegalKey(Operand([Words(text)]), false)
  {
    PlainlyClean(text);
    OneWords(text);
    CleanIsSound(Plains(text), false);
    FlatPlains(text);
    assert forall x <- Plains(text) :: x.Plain?;
  }

  lemma OneStatement(m: Member)
    requires LegalMember('{', m)
    ensures var d := RenderMember(m); Split(d, ";") == Some([d]) && Split(d, " = ") == Some([d])
  {
    var d := RenderMember(m);
    MemberSound('{', m);
    MemberPure(m);
    NoAssignment(d);
    FreeOfChar(TokensOf(d), ';');
    OnePart(d, ";");
  }

  lemma SimpleType(t: Type)
    requires LegalType(t, false) && Simple(t)
    ensures Split(RenderType(t), ":") == Some([RenderType(t)])
  {
    TypeSound(t, false);
    ClausesAreText(t);
    SplitClauses(Clauses(t), false);
    assert Clauses(t) == [Clauses(t)[0]] && Join(Clauses(t), " : ") == Clauses(t)[0];
  }

  lemma KeyedParts(key: Operand, t: Type)
    requires LegalKey(key, false) && LegalType(t, false) && Simple(t)
    ensures Split(RenderMember(Keyed(key, t)), ":") == Some([RenderOperand(key), RenderType(t)])
  {
    SimpleType(t);
    assert Fit(RenderType(t)) by { TypeTextSound(t); }
    OperandSound(key, false);
    SplitColon(RenderOperand(key), RenderType(t));
    assert [RenderOperand(key)] + [RenderType(t)] == [RenderOperand(key), RenderType(t)];
  }

  lemma KeyPrintsSome(key: Operand)
    requires LegalKey(key, false)
    ensures CanonicalAtom(RenderOperand(key)).Some?
  {
    OperandSound(key, false);
    TidyText(RenderOperand(key));
    TidyGroupsSettle(RenderOperand(key));
    SettledAtom(RenderOperand(key));
  }

  /** A rendered declaration of a name or a function. */
  lemma KeyedDeclares(key: Operand, t: Type)
    requires LegalKey(key, false) && !Optional(RenderOperand(key)) && LegalType(t, false) && Simple(t)
    ensures Declares(RenderMember(Keyed(key, t)), RenderOperand(key), RenderType(t))
  {
    OneStatement(Keyed(key, t));
    KeyedParts(key, t);
    KeyPrintsSome(key);
  }

  /** A function head: its words and one parameter. */
  function Call(words: string, parameter: Member): Operand {
    Operand([Words(words), Bracket('(', [parameter])])
  }

  lemma CallTokens(words: string, m: Member)
    ensures OperandTokens(Call(words, m).pieces) == Plains(words) + [Solid("(" + RenderMember(m) + ")")]
  {
    var b := Bracket('(', [m]);
    assert PieceTokens(b) == [Solid("(" + RenderMember(m) + ")")] by {
      assert seq(|[m]|, i requires 0 <= i < |[m]| => RenderMember([m][i])) == [RenderMember(m)];
      assert Listing('(', [RenderMember(m)]) == RenderMember(m);
      assert ['('] + RenderMember(m) + [')'] == "(" + RenderMember(m) + ")";
    }
    assert [Words(words), b][1..] == [b] && [b][1..] == [];
    assert OperandTokens([b]) == PieceTokens(b) + [];
  }

  lemma CallText(words: string, m: Member)
    ensures RenderOperand(Call(words, m)) == words + "(" + RenderMember(m) + ")"
  {
    var group := Solid("(" + RenderMember(m) + ")");
    CallTokens(words, m);
    FlatAppend(Plains(words), [group]);
    FlatPlains(words);
    assert [group][1..] == [] && Flat([group]) == "(" + RenderMember(m) + ")";
  }

  lemma CallIsLegal(words: string, m: Member)
    requires words != "" && !Edge(Plain(words[0])) && (forall c <- words :: CodeChar(c) && c != '=') && LegalMember('(', m)
    ensures LegalKey(Call(words, m), false)
  {
    CallTokens(words, m);
    var xs := OperandTokens(Call(words, m).pieces);
    forall i | 0 <= i < |xs|
      ensures xs[i] != Plain('=')
    {
      assert i < |words| ==> words[i] in words;
    }
  }

  lemma PlainlyAtom(text: string)
    requires Plainly(text)
    ensures CanonicalAtom(text) == Some(text)
  {
    PlainlyOperand(text);
    CodeTokens(text);
    PrintBehind(text, []);
    assert Plains(text) + [] == Plains(text) && text + "" == text;
  }

  lemma PlainlyAlone(text: string)
    requires Plainly(text)
    ensures Split(text, "&") == Some([text])
  {
    PlainlyOperand(text);
    CodeTokens(text);
    assert forall x <- Plains(text) :: x.Plain? && CodeChar(x.c) by { PlainlyClean(text); }
    FreeOfChar(TokensOf(text), '&');
    OnePart(text, "&");
  }

  lemma PlainlyPrints(text: string)
    requires Plainly(text)
    ensures CanonicalIntersection(text) == Some(text)
  {
    PlainlyAtom(text);
    PlainlyAlone(text);
    IntersectionIsAtoms(text);
    EachPrinted([text], Atoms(), [text]);
  }

  function Name(text: string): Type {
    Named(Operand([Words(text)]))
  }

  ghost predicate LegalName(text: string) {
    Plainly(text) && NoExtends(Plains(text))
  }

  lemma NamesUnion(a: string, b: string)
    requires LegalName(a) && LegalName(b)
    ensures var t := Union(Name(a), Name(b)); LegalType(t, false) && Simple(t) && RenderType(t) == a + " | " + b
  {
    OneWords(a);
    OneWords(b);
    PlainlyOperand(a);
    PlainlyOperand(b);
  }

  lemma NamesPlainUnion(a: string, b: string)
    requires LegalName(a) && LegalName(b)
    ensures PlainUnion(a + " | " + b)
  {
    BarBetween();
    PlainlyOperand(a);
    PlainlyOperand(b);
    CodeTokens(a);
    CodeTokens(b);
    GluedTokens(a, " | ", b);
    NoExtendsAcrossGlue(Plains(a), " | ", Plains(b));
    NotConditional(a + " | " + b);
    PlainlyFree(a);
    PlainlyFree(b);
    FreeAcrossGlue(Plains(a), " | ", Plains(b), "=>");
    OneResult(a + " | " + b);
  }

  lemma PlainlyFree(text: string)
    requires Plainly(text)
    ensures Free(Plains(text), "=>")
  {
    forall k | 0 <= k < |text|
      ensures !Occurs(Plains(text)[k..], "=>")
    {
      assert Plains(text)[k..][0] == Plain(text[k]) && text[k] in text;
    }
  }

  lemma HeadedPair(p: string, a: string, b: string)
    requires Head(p) && LegalName(a) && LegalName(b) && LegalName(p + a)
    ensures HeadedUnion(p, [a, b]) && Headed(p, [a, b]) == p + a + " | " + b && PlainUnion(Headed(p, [a, b]))
  {
    PlainlyOperand(a);
    PlainlyOperand(b);
    PlainlyOperand(p + a);
    NamesPlainUnion(p + a, b);
    assert [a, b][1..] == [b];
    var both := [p + a] + [a, b][1..];
    assert both == [p + a, b] && both[1..] == [b];
    assert Join(both, " | ") == both[0] + " | " + Join(both[1..], " | ");
  }

  /** A declared function whose result is the union of `a` and `b` behind a head. */
  function Result(words: string, m: Member, p: string, a: string, b: string): string {
    RenderMember(Keyed(Call(words, m), Union(Name(p + a), Name(b))))
  }

  lemma ResultDeclares(words: string, m: Member, p: string, a: string, b: string)
    requires words != "" && !Edge(Plain(words[0])) && (forall c <- words :: CodeChar(c) && c != '=') && LegalMember('(', m)
    requires Head(p) && LegalName(a) && LegalName(b) && LegalName(p + a)
    ensures Declares(Result(words, m, p, a, b), RenderOperand(Call(words, m)), Headed(p, [a, b]))
  {
    CallIsLegal(words, m);
    NamesUnion(p + a, b);
    HeadedPair(p, a, b);
    CallEnds(words, m);
    KeyedDeclares(Call(words, m), Union(Name(p + a), Name(b)));
  }

  lemma CallEnds(words: string, m: Member)
    requires LegalKey(Call(words, m), false)
    ensures !Optional(RenderOperand(Call(words, m)))
  {
    OperandSound(Call(words, m), false);
    CallText(words, m);
  }

  /** Two names behind a head, such as a type predicate of a function, in the other order: another declaration. */
  lemma ResultOrderShows(words: string, m: Member, p: string, a: string, b: string)
    requires words != "" && !Edge(Plain(words[0])) && (forall c <- words :: CodeChar(c) && c != '=') && LegalMember('(', m)
    requires Head(p) && LegalName(a) && LegalName(b) && LegalName(p + a) && LegalName(p + b) && a != b
    ensures CanonicalDeclaration(Result(words, m, p, a, b)) != CanonicalDeclaration(Result(words, m, p, b, a))
  {
    ResultDeclares(words, m, p, a, b);
    ResultDeclares(words, m, p, b, a);
    HeadedPair(p, a, b);
    HeadedPair(p, b, a);
    assert multiset([a, b]) == multiset([b, a]);
    PlainlyPrints(a);
    PlainlyPrints(b);
    HeadShowsAtTop(Result(words, m, p, a, b), Result(words, m, p, b, a), RenderOperand(Call(words, m)), p, [a, b], [b, a]);
  }

  lemma ShortName(text: string)
    requires Plainly(text) && |text| < |EXTENDS|
    ensures LegalName(text)
  {
  }

  const CALL := "declare function f"
  const PREDICATE := "v is "

  predicate Letter(c: char) {
    'A' <= c <= 'Z' || 'a' <= c <= 'z'
  }

  predicate Lettered(text: string) {
    text != "" && Letter(text[0]) && Letter(text[|text| - 1]) && forall c <- text :: Letter(c) || c == ' '
  }

  lemma LetteredIsPlain(text: string)
    requires Lettered(text)
    ensures Plainly(text) && forall c <- text :: !Quote(c) && !Opener(c) && c != '&'
  {
  }

  lemma CallIsPlain()
    ensures (forall c <- CALL :: CodeChar(c) && c != '=') && !Edge(Plain(CALL[0]))
  {
    assert Lettered(CALL);
    LetteredIsPlain(CALL);
  }

  lemma PredicateIsHead()
    ensures Head(PREDICATE)
  {
    assert Lettered("v is") && PREDICATE == "v is" + " ";
    LetteredIsPlain("v is");
  }

  /** The parameter `v: any`. */
  function Parameter(): Member {
    Keyed(Operand([Words("v")]), Name("any"))
  }

  lemma ParameterOf(name: string, t: string)
    requires Plainly(name) && LegalName(t)
    ensures var m := Keyed(Operand([Words(name)]), Name(t)); RenderMember(m) == name + ": " + t && LegalMember('(', m)
  {
    OneWords(name);
    OneWords(t);
    PlainlyOperand(name);
    PlainlyOperand(t);
  }

  lemma ParameterText()
    ensures RenderMember(Parameter()) == "v: any" && LegalMember('(', Parameter())
  {
    assert Lettered("v") && Lettered("any");
    LetteredIsPlain("v");
    LetteredIsPlain("any");
    ShortName("any");
    ParameterOf("v", "any");
  }

  lemma PredicateNames(c: char)
    requires Letter(c)
    ensures LegalName([c]) && LegalName(PREDICATE + [c])
  {
    LetteredIsPlain([c]);
    LetteredIsPlain(PREDICATE + [c]);
    ShortName([c]);
    ShortName(PREDICATE + [c]);
  }

  lemma ResultText(words: string, m: Member, p: string, a: string, b: string)
    ensures Result(words, m, p, a, b) == words + "(" + RenderMember(m) + ")" + ": " + (p + a + " | " + b)
  {
    CallText(words, m);
    OneWords(p + a);
    OneWords(b);
    assert RenderType(Union(Name(p + a), Name(b))) == p + a + " | " + b;
  }

  const GUARD := "declare function f(v: any): v is "

  lemma GuardText()
    ensures CALL + "(" + "v: any" + ")" + ": " + PREDICATE == GUARD
  {
  }

  lemma SevenTexts(a: string, b: string, c: string, d: string, e: string, p: string, rest: string, g: string, last: string)
    ensures a + b + c + d + e + (p + rest + g + last) == (a + b + c + d + e + p) + rest + g + last
  {
  }

  lemma WitnessText(a: string, b: string)
    ensures Result(CALL, Parameter(), PREDICATE, a, b) == GUARD + a + " | " + b
  {
    ParameterText();
    ResultText(CALL, Parameter(), PREDICATE, a, b);
    SevenTexts(CALL, "(", "v: any", ")", ": ", PREDICATE, a, " | ", b);
    GuardText();
  }

  lemma PredicateOrderShows(a: char, b: char)
    requires Letter(a) && Letter(b) && a != b
    ensures CanonicalDeclaration(Result(CALL, Parameter(), PREDICATE, [a], [b]))
         != CanonicalDeclaration(Result(CALL, Parameter(), PREDICATE, [b], [a]))
  {
    CallIsPlain();
    PredicateIsHead();
    ParameterText();
    PredicateNames(a);
    PredicateNames(b);
    ResultOrderShows(CALL, Parameter(), PREDICATE, [a], [b]);
  }

  /** Two types in a type predicate, in either order: `v is A | B` and `v is B | A` are two canonical forms. */
  lemma TypePredicateOrderShows(a: char, b: char)
    requires Letter(a) && Letter(b) && a != b
    ensures CanonicalDeclaration(GUARD + [a] + " | " + [b]) != CanonicalDeclaration(GUARD + [b] + " | " + [a])
  {
    PredicateOrderShows(a, b);
    WitnessText([a], [b]);
    WitnessText([b], [a]);
  }
}
