/**
 What the canonical form ignores.

 Two texts are alike when they differ only inside bracket groups that print the same.  Every function
 of the printer takes alike texts to the same result, so a difference that some group ignores is
 ignored at any depth.
 */
module TypeCanon {
  import opened Wrappers
  import opened TypeScan
  import opened TypeText

  // ---------- alike texts ----------

  ghost predicate Like(a: Token, b: Token) {
    a == b || (IsGroup(a) && IsGroup(b) && Print(a) == Print(b))
  }

  ghost predicate Alike(xs: seq<Token>, ys: seq<Token>) {
    |xs| == |ys| && AllClosed(xs) && AllClosed(ys) && forall i :: 0 <= i < |xs| ==> Like(xs[i], ys[i])
  }

  ghost predicate Similar(t: string, u: string) {
    Tokens(t).Some? && Tokens(u).Some? && Alike(Tokens(t).value, Tokens(u).value)
  }

  ghost predicate AllSimilar(ts: seq<string>, us: seq<string>) {
    |ts| == |us| && forall i :: 0 <= i < |ts| ==> Similar(ts[i], us[i])
  }

  lemma TokensOfFlat(xs: seq<Token>)
    requires AllClosed(xs)
    ensures Tokens(Flat(xs)) == Some(xs)
  {
    TokensOfClosed(xs, "");
    assert Flat(xs) + "" == Flat(xs) && xs + [] == xs;
  }

  lemma AlikeTexts(xs: seq<Token>, ys: seq<Token>)
    requires Alike(xs, ys)
    ensures Similar(Flat(xs), Flat(ys))
  {
    TokensOfFlat(xs);
    TokensOfFlat(ys);
  }

  lemma {:induction false} AlikePrint(xs: seq<Token>, ys: seq<Token>)
    requires Alike(xs, ys)
    ensures PrintAll(xs) == PrintAll(ys)
    decreases |xs|
  {
    if xs != [] {
      assert Like(xs[0], ys[0]);
      AlikePrint(xs[1..], ys[1..]);
    }
  }

  lemma AlikePart(xs: seq<Token>, ys: seq<Token>, i: nat, j: nat)
    requires Alike(xs, ys) && i <= j <= |xs|
    ensures Alike(xs[i..j], ys[i..j])
  {
  }

  lemma AlikeConcat(xs: seq<Token>, ys: seq<Token>, us: seq<Token>, vs: seq<Token>)
    requires Alike(xs, ys) && Alike(us, vs)
    ensures Alike(xs + us, ys + vs)
  {
  }

  lemma AlikeOccurs(xs: seq<Token>, ys: seq<Token>, sep: string)
    requires Alike(xs, ys)
    ensures Occurs(xs, sep) == Occurs(ys, sep)
  {
    forall i | 0 <= i < |xs|
      ensures xs[i].Plain? || ys[i].Plain? ==> xs[i] == ys[i]
    {
      assert Like(xs[i], ys[i]);
    }
  }

  ghost predicate AllAlike(ps: seq<seq<Token>>, qs: seq<seq<Token>>) {
    |ps| == |qs| && forall i :: 0 <= i < |ps| ==> Alike(ps[i], qs[i])
  }

  lemma {:induction false} AlikePieces(xs: seq<Token>, ys: seq<Token>, sep: string)
    requires Alike(xs, ys) && sep != ""
    ensures AllAlike(Pieces(xs, sep), Pieces(ys, sep))
    decreases |xs|
  {
    AlikeOccurs(xs, ys, sep);
    if xs != [] && Occurs(xs, sep) {
      AlikePart(xs, ys, |sep|, |xs|);
      AlikePieces(xs[|sep|..], ys[|sep|..], sep);
    } else if xs != [] {
      AlikePart(xs, ys, 0, 1);
      AlikePart(xs, ys, 1, |xs|);
      AlikePieces(xs[1..], ys[1..], sep);
      var ps, qs := Pieces(xs[1..], sep), Pieces(ys[1..], sep);
      AlikeConcat([xs[0]], [ys[0]], ps[0], qs[0]);
    }
  }

  // ---------- trimming ----------

  predicate Blank(x: Token) {
    x.Plain? && Space(x.c)
  }

  function DropLeft(xs: seq<Token>): seq<Token> {
    if xs != [] && Blank(xs[0]) then DropLeft(xs[1..]) else xs
  }

  function DropRight(xs: seq<Token>): seq<Token> {
    if xs != [] && Blank(xs[|xs| - 1]) then DropRight(xs[..|xs| - 1]) else xs
  }

  function Stripped(xs: seq<Token>): seq<Token> {
    DropRight(DropLeft(xs))
  }

  lemma FirstCharacter(xs: seq<Token>)
    requires AllClosed(xs) && xs != []
    ensures Flat(xs) != "" && (Space(Flat(xs)[0]) <==> Blank(xs[0]))
  {
    assert Closed(xs[0]);
  }

  lemma LastBlank(xs: seq<Token>)
    requires AllClosed(xs) && xs != []
    ensures Flat(xs) != "" && (Space(Flat(xs)[|Flat(xs)| - 1]) <==> Blank(xs[|xs| - 1]))
  {
    LastCharacter(xs);
    var last := xs[|xs| - 1];
    assert Closed(last);
    if last.Solid? { SolidEnds(last.s); }
  }

  lemma {:induction false} TrimLeftTokens(xs: seq<Token>)
    requires AllClosed(xs)
    ensures TrimLeft(Flat(xs)) == Flat(DropLeft(xs)) && AllClosed(DropLeft(xs))
    decreases |xs|
  {
    if xs != [] {
      FirstCharacter(xs);
      if Blank(xs[0]) {
        TrimLeftTokens(xs[1..]);
        assert Flat(xs)[1..] == Flat(xs[1..]);
      }
    }
  }

  lemma {:induction false} TrimRightTokens(xs: seq<Token>)
    requires AllClosed(xs)
    ensures TrimRight(Flat(xs)) == Flat(DropRight(xs)) && AllClosed(DropRight(xs))
    decreases |xs|
  {
    if xs != [] {
      var n := |xs| - 1;
      LastBlank(xs);
      if Blank(xs[n]) {
        TrimRightTokens(xs[..n]);
        assert xs == xs[..n] + [xs[n]];
        FlatAppend(xs[..n], [xs[n]]);
        assert Flat([xs[n]]) == [xs[n].c];
        assert Flat(xs)[..|Flat(xs)| - 1] == Flat(xs[..n]);
      }
    }
  }

  lemma TrimTokens(xs: seq<Token>)
    requires AllClosed(xs)
    ensures Trim(Flat(xs)) == Flat(Stripped(xs)) && AllClosed(Stripped(xs))
    ensures Trim(Flat(xs)) == "" <==> Stripped(xs) == []
  {
    TrimLeftTokens(xs);
    TrimRightTokens(DropLeft(xs));
    if Stripped(xs) != [] { LastCharacter(Stripped(xs)); }
  }

  lemma {:induction false} AlikeDropLeft(xs: seq<Token>, ys: seq<Token>)
    requires Alike(xs, ys)
    ensures Alike(DropLeft(xs), DropLeft(ys))
    decreases |xs|
  {
    if xs != [] {
      assert Like(xs[0], ys[0]);
      AlikePart(xs, ys, 1, |xs|);
      if Blank(xs[0]) { AlikeDropLeft(xs[1..], ys[1..]); }
    }
  }

  lemma {:induction false} AlikeDropRight(xs: seq<Token>, ys: seq<Token>)
    requires Alike(xs, ys)
    ensures Alike(DropRight(xs), DropRight(ys))
    decreases |xs|
  {
    if xs != [] {
      var n := |xs| - 1;
      assert Like(xs[n], ys[n]);
      AlikePart(xs, ys, 0, n);
      if Blank(xs[n]) { AlikeDropRight(xs[..n], ys[..n]); }
    }
  }

  lemma AlikeStripped(xs: seq<Token>, ys: seq<Token>)
    requires Alike(xs, ys)
    ensures Alike(Stripped(xs), Stripped(ys)) && Similar(Trim(Flat(xs)), Trim(Flat(ys)))
    ensures Trim(Flat(xs)) == "" <==> Trim(Flat(ys)) == ""
  {
    AlikeDropLeft(xs, ys);
    AlikeDropRight(DropLeft(xs), DropLeft(ys));
    TrimTokens(xs);
    TrimTokens(ys);
    AlikeTexts(Stripped(xs), Stripped(ys));
  }

  // ---------- splitting and joining ----------

  lemma {:induction false} AlikeKept(ps: seq<seq<Token>>, qs: seq<seq<Token>>)
    requires AllAlike(ps, qs)
    ensures AllSimilar(TrimmedNonEmpty(Texts(ps)), TrimmedNonEmpty(Texts(qs)))
    decreases |ps|
  {
    if ps != [] {
      assert Texts(ps)[1..] == Texts(ps[1..]) && Texts(qs)[1..] == Texts(qs[1..]);
      AlikeKept(ps[1..], qs[1..]);
      AlikeStripped(ps[0], qs[0]);
    }
  }

  lemma SimilarSplit(t: string, u: string, sep: string)
    requires Similar(t, u) && sep != ""
    ensures Split(t, sep).Some? && Split(u, sep).Some? && AllSimilar(Split(t, sep).value, Split(u, sep).value)
  {
    AlikePieces(Tokens(t).value, Tokens(u).value, sep);
    AlikeKept(Pieces(Tokens(t).value, sep), Pieces(Tokens(u).value, sep));
  }

  lemma SimilarConcat(a: string, b: string, t: string, u: string)
    requires Similar(a, b) && Similar(t, u)
    ensures Similar(a + t, b + u)
  {
    var xs, ys, us, vs := Tokens(a).value, Tokens(b).value, Tokens(t).value, Tokens(u).value;
    TokensAreText(a);
    TokensAreText(b);
    TokensOfClosed(xs, t);
    TokensOfClosed(ys, u);
    AlikeConcat(xs, ys, us, vs);
  }

  lemma {:induction false} SimilarToItself(glue: string)
    requires forall c <- glue :: !Quote(c) && !Opener(c)
    ensures Similar(glue, glue)
  {
    FlatPlains(glue);
    TokensOfFlat(Plains(glue));
  }

  lemma {:induction false} SimilarJoin(ts: seq<string>, us: seq<string>, glue: string)
    requires AllSimilar(ts, us) && forall c <- glue :: !Quote(c) && !Opener(c)
    ensures Similar(Join(ts, glue), Join(us, glue))
    decreases |ts|
  {
    if |ts| == 0 {
      SimilarToItself("");
    } else if |ts| > 1 {
      SimilarJoin(ts[1..], us[1..], glue);
      SimilarToItself(glue);
      SimilarConcat(ts[0], us[0], glue, glue);
      SimilarConcat(ts[0] + glue, us[0] + glue, Join(ts[1..], glue), Join(us[1..], glue));
    }
  }

  // ---------- optional members ----------

  lemma SimilarWord(t: string, u: string, word: string)
    requires Similar(t, u) && forall c <- word :: !Quote(c) && !Opener(c)
    ensures t == word <==> u == word
  {
    var xs, ys := Tokens(t).value, Tokens(u).value;
    FlatPlains(word);
    TokensOfFlat(Plains(word));
    TokensAreText(t);
    TokensAreText(u);
    if t == word || u == word {
      forall i | 0 <= i < |xs|
        ensures xs[i] == ys[i]
      {
        assert Like(xs[i], ys[i]);
      }
      assert xs == ys;
    }
  }

  lemma {:induction false} SimilarDefined(ms: seq<string>, ns: seq<string>)
    requires AllSimilar(ms, ns)
    ensures AllSimilar(Defined(ms), Defined(ns))
    decreases |ms|
  {
    if ms != [] {
      SimilarWord(ms[0], ns[0], "undefined");
      SimilarDefined(ms[1..], ns[1..]);
    }
  }

  lemma TokenEnds(x: Token)
    requires Closed(x)
    ensures TextOf(x) != "" && (TextOf(x)[|TextOf(x)| - 1] == '?' <==> x == Plain('?'))
  {
    if x.Solid? { SolidEnds(x.s); }
  }

  lemma EndsWithMark(xs: seq<Token>)
    requires AllClosed(xs)
    ensures EndsWith(Flat(xs), '?') <==> xs != [] && xs[|xs| - 1] == Plain('?')
  {
    if xs != [] {
      LastCharacter(xs);
      assert Closed(xs[|xs| - 1]);
      TokenEnds(xs[|xs| - 1]);
    }
  }

  lemma SimilarEnd(t: string, u: string)
    requires Similar(t, u)
    ensures EndsWith(Trim(t), '?') == EndsWith(Trim(u), '?')
  {
    var xs, ys := Tokens(t).value, Tokens(u).value;
    TokensAreText(t);
    TokensAreText(u);
    AlikeStripped(xs, ys);
    TrimTokens(xs);
    TrimTokens(ys);
    var a, b := Stripped(xs), Stripped(ys);
    EndsWithMark(a);
    EndsWithMark(b);
    if a != [] { assert Like(a[|a| - 1], b[|b| - 1]); }
  }

  lemma SimilarWithout(key: string, other: string, v: string, w: string)
    requires Similar(key, other) && Similar(v, w)
    ensures var r, q := WithoutImpliedUndefined(key, v), WithoutImpliedUndefined(other, w);
            r.Some? && q.Some? && Similar(r.value, q.value)
  {
    SimilarEnd(key, other);
    if EndsWith(Trim(key), '?') {
      SimilarSplit(v, w, "=>");
      SimilarSplit(v, w, "|");
      var ms, ns := Split(v, "|").value, Split(w, "|").value;
      SimilarDefined(ms, ns);
      SimilarJoin(Defined(ms), Defined(ns), " | ");
    }
  }

  // ---------- the printer on alike texts ----------

  lemma SimilarAtom(t: string, u: string)
    requires Similar(t, u)
    ensures CanonicalAtom(t) == CanonicalAtom(u)
  {
    AlikePrint(Tokens(t).value, Tokens(u).value);
  }

  lemma SimilarIntersection(t: string, u: string)
    requires Similar(t, u)
    ensures CanonicalIntersection(t) == CanonicalIntersection(u)
  {
    SimilarSplit(t, u, "&");
    var ps, qs := Split(t, "&").value, Split(u, "&").value;
    forall i | 0 <= i < |ps|
      ensures CanonicalAtom(ps[i]) == CanonicalAtom(qs[i])
    {
      SimilarAtom(ps[i], qs[i]);
    }
    assert seq(|ps|, i requires 0 <= i < |ps| => CanonicalAtom(ps[i])) == seq(|qs|, i requires 0 <= i < |qs| => CanonicalAtom(qs[i]));
  }

  lemma SimilarUnion(t: string, u: string)
    requires Similar(t, u)
    ensures CanonicalUnion(t) == CanonicalUnion(u)
  {
    SimilarSplit(t, u, "|");
    var ps, qs := Split(t, "|").value, Split(u, "|").value;
    forall i | 0 <= i < |ps|
      ensures CanonicalIntersection(ps[i]) == CanonicalIntersection(qs[i])
    {
      SimilarIntersection(ps[i], qs[i]);
    }
    assert seq(|ps|, i requires 0 <= i < |ps| => CanonicalIntersection(ps[i]))
        == seq(|qs|, i requires 0 <= i < |qs| => CanonicalIntersection(qs[i]));
  }

  lemma {:induction false} SimilarType(t: string, u: string)
    requires Similar(t, u)
    ensures CanonicalType(t) == CanonicalType(u)
    decreases NonSpace(t)
  {
    SimilarSplit(t, u, " extends ");
    SimilarSplit(t, u, "=>");
    var ps, qs := Split(t, "=>").value, Split(u, "=>").value;
    if |Split(t, " extends ").value| > 1 {
      SimilarAtom(t, u);
    } else if |ps| > 1 {
      TailWeight(t, "=>");
      SimilarAtom(ps[0], qs[0]);
      SimilarJoin(ps[1..], qs[1..], "=>");
      SimilarType(Join(ps[1..], "=>"), Join(qs[1..], "=>"));
    } else {
      SimilarUnion(t, u);
    }
  }

  lemma SimilarMember(t: string, u: string)
    requires Similar(t, u)
    ensures CanonicalMember(t) == CanonicalMember(u)
  {
    SimilarSplit(t, u, ":");
    var ps, qs := Split(t, ":").value, Split(u, ":").value;
    if |ps| == 1 {
      SimilarType(ps[0], qs[0]);
    } else if |ps| > 1 {
      SimilarAtom(ps[0], qs[0]);
      var v, w := Join(ps[1..], ":"), Join(qs[1..], ":");
      SimilarJoin(ps[1..], qs[1..], ":");
      SimilarWithout(ps[0], qs[0], v, w);
      SimilarType(WithoutImpliedUndefined(ps[0], v).value, WithoutImpliedUndefined(qs[0], w).value);
    }
  }

  function PrintPart(open: char, part: string): Option<string> {
    if open == '<' then CanonicalType(part) else CanonicalMember(part)
  }

  function SeparatorIn(open: char): string {
    if open == '{' then ";" else ","
  }

  lemma GroupIsParts(open: char, inner: string)
    requires Split(inner, SeparatorIn(open)).Some?
    ensures var parts := Split(inner, SeparatorIn(open)).value;
      CanonicalGroup(open, inner) ==
      match AllSome(Mapped(parts, (part: string) => PrintPart(open, part)))
      case None => None
      case Some(printed) => Some(if open == '{' then Join(Sort(printed), "; ") else Join(printed, ", "))
  {
    var parts := Split(inner, SeparatorIn(open)).value;
    assert Mapped(parts, (part: string) => PrintPart(open, part)) ==
      seq(|parts|, i requires 0 <= i < |parts| => if open == '<' then CanonicalType(parts[i]) else CanonicalMember(parts[i]));
  }

  function Mapped<T, U>(s: seq<T>, f: T -> U): (r: seq<U>)
    ensures |r| == |s|
  {
    seq(|s|, i requires 0 <= i < |s| => f(s[i]))
  }

  lemma SimilarGroup(open: char, t: string, u: string)
    requires Similar(t, u)
    ensures CanonicalGroup(open, t) == CanonicalGroup(open, u)
  {
    SimilarSplit(t, u, SeparatorIn(open));
    GroupIsParts(open, t);
    GroupIsParts(open, u);
    var ps, qs := Split(t, SeparatorIn(open)).value, Split(u, SeparatorIn(open)).value;
    var printer := (part: string) => PrintPart(open, part);
    forall i | 0 <= i < |ps|
      ensures PrintPart(open, ps[i]) == PrintPart(open, qs[i])
    {
      SimilarType(ps[i], qs[i]);
      SimilarMember(ps[i], qs[i]);
    }
    assert Mapped(ps, printer) == Mapped(qs, printer);
  }

  lemma SimilarStatement(t: string, u: string)
    requires Similar(t, u)
    ensures CanonicalStatement(t) == CanonicalStatement(u)
  {
    SimilarSplit(t, u, " = ");
    var ps, qs := Split(t, " = ").value, Split(u, " = ").value;
    if |ps| <= 1 {
      SimilarMember(t, u);
    } else {
      SimilarAtom(ps[0], qs[0]);
      SimilarJoin(ps[1..], qs[1..], " = ");
      SimilarType(Join(ps[1..], " = "), Join(qs[1..], " = "));
    }
  }

  /** Texts that differ only inside groups that print the same have the same canonical form. */
  lemma SimilarDeclaration(t: string, u: string)
    requires Similar(t, u)
    ensures CanonicalDeclaration(t) == CanonicalDeclaration(u)
  {
    SimilarSplit(t, u, ";");
    var ps, qs := Split(t, ";").value, Split(u, ";").value;
    forall i | 0 <= i < |ps|
      ensures CanonicalStatement(ps[i]) == CanonicalStatement(qs[i])
    {
      SimilarStatement(ps[i], qs[i]);
    }
    assert seq(|ps|, i requires 0 <= i < |ps| => CanonicalStatement(ps[i]))
        == seq(|qs|, i requires 0 <= i < |qs| => CanonicalStatement(qs[i]));
  }

  // ---------- any depth ----------

  /** A place in a declaration: nested bracket groups around a hole. */
  datatype Context = Hole | Inside(before: seq<Token>, open: char, body: Context, after: seq<Token>)

  ghost predicate WellFormed(xs: seq<Token>) {
    AllClosed(xs) && Balanced(xs) && (xs != [] ==> xs[|xs| - 1] != Plain('='))
  }

  function Group(open: char, xs: seq<Token>): Token {
    Solid([open] + Flat(xs) + [if Opener(open) then CloserOf(open) else open])
  }

  function Fill(c: Context, xs: seq<Token>): seq<Token> {
    match c
    case Hole => xs
    case Inside(before, open, body, after) => before + [Group(open, Fill(body, xs))] + after
  }

  /** Every level around the hole is balanced text of a bracket group. */
  ghost predicate Fits(c: Context, xs: seq<Token>) {
    WellFormed(Fill(c, xs)) && (c.Inside? ==> Opener(c.open) && Fits(c.body, xs))
  }

  /** Content that is alike in the hole is alike around every level of brackets. */
  lemma {:induction false} AlikeAtAnyDepth(c: Context, xs: seq<Token>, ys: seq<Token>)
    requires Fits(c, xs) && Fits(c, ys) && Alike(xs, ys)
    ensures Alike(Fill(c, xs), Fill(c, ys))
    decreases c
  {
    if c.Inside? {
      AlikeAtAnyDepth(c.body, xs, ys);
      var t, u := Fill(c.body, xs), Fill(c.body, ys);
      BracketCloses(c.open, t);
      BracketCloses(c.open, u);
      AlikeTexts(t, u);
      SimilarGroup(c.open, Flat(t), Flat(u));
      GroupPrints(c.open, t);
      GroupPrints(c.open, u);
    }
  }

  lemma GroupPrints(open: char, xs: seq<Token>)
    requires Opener(open)
    ensures IsGroup(Group(open, xs))
    ensures Print(Group(open, xs)) ==
      match CanonicalGroup(open, Flat(xs)) case None => None case Some(inner) => Some([open] + inner + [CloserOf(open)])
  {
    var s := Group(open, xs).s;
    assert s[1..|s| - 1] == Flat(xs);
  }

  /** A difference that a group ignores is ignored at any depth of any declaration. */
  lemma IgnoredAtAnyDepth(c: Context, open: char, xs: seq<Token>, ys: seq<Token>, x: Token, y: Token)
    requires Opener(open) && CanonicalGroup(open, Flat(xs)) == CanonicalGroup(open, Flat(ys))
    requires WellFormed(xs) && WellFormed(ys) && x == Group(open, xs) && y == Group(open, ys)
    requires Fits(c, [x]) && Fits(c, [y])
    ensures CanonicalDeclaration(Flat(Fill(c, [x]))) == CanonicalDeclaration(Flat(Fill(c, [y])))
  {
    BracketCloses(open, xs);
    BracketCloses(open, ys);
    GroupPrints(open, xs);
    GroupPrints(open, ys);
    AlikeAtAnyDepth(c, [x], [y]);
    AlikeTexts(Fill(c, [x]), Fill(c, [y]));
    SimilarDeclaration(Flat(Fill(c, [x])), Flat(Fill(c, [y])));
  }

  // ---------- order of members ----------

  lemma {:induction false} AtMostTotal(a: string, b: string)
    ensures AtMost(a, b) || AtMost(b, a)
    ensures AtMost(a, b) && AtMost(b, a) ==> a == b
    decreases |a|
  {
    if a != "" && b != "" && a[0] == b[0] {
      AtMostTotal(a[1..], b[1..]);
      assert a == [a[0]] + a[1..] && b == [b[0]] + b[1..];
    }
  }

  lemma {:induction false} AtMostTransitive(a: string, b: string, c: string)
    requires AtMost(a, b) && AtMost(b, c)
    ensures AtMost(a, c)
    decreases |a|
  {
    if a != "" && a[0] == b[0] == c[0] { AtMostTransitive(a[1..], b[1..], c[1..]); }
  }

  lemma {:induction false} InsertCommutes(x: string, y: string, s: seq<string>)
    ensures Insert(x, Insert(y, s)) == Insert(y, Insert(x, s))
    decreases |s|
  {
    AtMostTotal(x, y);
    if s != [] {
      AtMostTotal(x, s[0]);
      AtMostTotal(y, s[0]);
      if AtMost(x, s[0]) && AtMost(s[0], y) { AtMostTransitive(x, s[0], y); }
      if AtMost(y, s[0]) && AtMost(s[0], x) { AtMostTransitive(y, s[0], x); }
      if !AtMost(x, s[0]) && !AtMost(y, s[0]) { InsertCommutes(x, y, s[1..]); }
    }
  }

  lemma SortHead(x: string, s: seq<string>, all: seq<string>)
    requires all == [x] + s
    ensures Sort(all) == Insert(x, Sort(s))
  {
    assert all[1..] == s;
  }

  lemma {:induction false} SortMiddle(a: seq<string>, x: string, b: seq<string>)
    ensures Sort(a + [x] + b) == Insert(x, Sort(a + b))
    decreases |a|
  {
    if a == [] {
      assert a + b == b;
      SortHead(x, b, a + [x] + b);
    } else {
      var first, rest := a[0], a[1..];
      SortMiddle(rest, x, b);
      SortHead(first, rest + [x] + b, a + [x] + b);
      SortHead(first, rest + b, a + b);
      InsertCommutes(first, x, Sort(rest + b));
    }
  }

  /** An element of a list, with what is before and after it. */
  lemma Find<T>(s: seq<T>, x: T) returns (before: seq<T>, after: seq<T>)
    requires x in multiset(s)
    ensures s == before + [x] + after && multiset(before + after) == multiset(s) - multiset{x}
  {
    var i :| 0 <= i < |s| && s[i] == x;
    before, after := s[..i], s[i + 1..];
    assert s == before + [x] + after;
  }

  lemma Tail<T>(s: seq<T>)
    requires s != []
    ensures s[0] in multiset(s) && multiset(s[1..]) == multiset(s) - multiset{s[0]}
  {
    assert s == [s[0]] + s[1..];
  }

  lemma NoElements<T>(s: seq<T>)
    requires multiset(s) == multiset{}
    ensures s == []
  {
    if s != [] {
      Tail(s);
      assert false;
    }
  }

  /** Sorting forgets the order. */
  lemma {:induction false} SortForgetsOrder(a: seq<string>, b: seq<string>)
    requires multiset(a) == multiset(b)
    ensures Sort(a) == Sort(b)
    decreases |a|
  {
    if a == [] {
      NoElements(b);
    } else {
      Tail(a);
      var before, after := Find(b, a[0]);
      SortForgetsOrder(a[1..], before + after);
      SortMiddle(before, a[0], after);
    }
  }

  lemma MappedMiddle<T, U>(a: seq<T>, x: T, b: seq<T>, f: T -> U)
    ensures multiset(Mapped(a + [x] + b, f)) == multiset{f(x)} + multiset(Mapped(a + b, f))
  {
    assert Mapped(a + [x] + b, f) == Mapped(a, f) + [f(x)] + Mapped(b, f);
    assert Mapped(a + b, f) == Mapped(a, f) + Mapped(b, f);
  }

  lemma {:induction false} MappedForgetsOrder<T, U>(a: seq<T>, b: seq<T>, f: T -> U)
    requires multiset(a) == multiset(b)
    ensures multiset(Mapped(a, f)) == multiset(Mapped(b, f))
    decreases |a|
  {
    if a == [] {
      NoElements(b);
    } else {
      Tail(a);
      var before, after := Find(b, a[0]);
      assert multiset(Mapped(a[1..], f)) == multiset(Mapped(before + after, f)) by {
        MappedForgetsOrder(a[1..], before + after, f);
      }
      assert multiset(Mapped(b, f)) == multiset{f(a[0])} + multiset(Mapped(before + after, f)) by {
        MappedMiddle(before, a[0], after, f);
      }
      MappedHead(a, f);
    }
  }

  lemma MappedHead<T, U>(s: seq<T>, f: T -> U)
    requires s != []
    ensures multiset(Mapped(s, f)) == multiset{f(s[0])} + multiset(Mapped(s[1..], f))
  {
    assert Mapped(s, f) == [f(s[0])] + Mapped(s[1..], f);
  }

  lemma {:induction false} AllSomeUnlessNone<T>(rs: seq<Option<T>>)
    ensures AllSome(rs).None? <==> None in rs
    decreases |rs|
  {
    if rs != [] {
      AllSomeUnlessNone(rs[1..]);
      assert rs == [rs[0]] + rs[1..];
    }
  }

  lemma {:induction false} AllSomeCounts<T>(rs: seq<Option<T>>, x: T)
    requires AllSome(rs).Some?
    ensures multiset(AllSome(rs).value)[x] == multiset(rs)[Some(x)]
    decreases |rs|
  {
    if rs != [] {
      AllSomeCounts(rs[1..], x);
      assert rs == [rs[0]] + rs[1..];
    }
  }

  lemma AllSomeForgetsOrder<T(!new)>(a: seq<Option<T>>, b: seq<Option<T>>)
    requires multiset(a) == multiset(b)
    ensures AllSome(a).None? == AllSome(b).None?
    ensures AllSome(a).Some? ==> multiset(AllSome(a).value) == multiset(AllSome(b).value)
  {
    AllSomeUnlessNone(a);
    AllSomeUnlessNone(b);
    assert None in a <==> None in multiset(a);
    assert None in b <==> None in multiset(b);
    if AllSome(a).Some? {
      forall x
        ensures multiset(AllSome(a).value)[x] == multiset(AllSome(b).value)[x]
      {
        AllSomeCounts(a, x);
        AllSomeCounts(b, x);
      }
    }
  }

  /** What a sorted list of printed parts depends on. */
  lemma SortedForgetsOrder(ps: seq<string>, qs: seq<string>, printer: string -> Option<string>)
    requires multiset(ps) == multiset(qs)
    ensures var a, b := AllSome(Mapped(ps, printer)), AllSome(Mapped(qs, printer));
            a.None? == b.None? && (a.Some? ==> Sort(a.value) == Sort(b.value))
  {
    MappedForgetsOrder(ps, qs, printer);
    AllSomeForgetsOrder(Mapped(ps, printer), Mapped(qs, printer));
    var a, b := AllSome(Mapped(ps, printer)), AllSome(Mapped(qs, printer));
    if a.Some? { SortForgetsOrder(a.value, b.value); }
  }

  /** The members of an object may come in any order. */
  lemma ObjectForgetsOrder(t: string, u: string)
    requires Split(t, ";").Some? && Split(u, ";").Some? && multiset(Split(t, ";").value) == multiset(Split(u, ";").value)
    ensures CanonicalGroup('{', t) == CanonicalGroup('{', u)
  {
    GroupIsParts('{', t);
    GroupIsParts('{', u);
    SortedForgetsOrder(Split(t, ";").value, Split(u, ";").value, (part: string) => PrintPart('{', part));
  }

  lemma UnionIsMembers(t: string)
    requires Split(t, "|").Some?
    ensures CanonicalUnion(t) ==
      match AllSome(Mapped(Split(t, "|").value, (member: string) => CanonicalIntersection(member)))
      case None => None
      case Some(printed) => Some(Join(Sort(printed), " | "))
  {
    var members := Split(t, "|").value;
    assert Mapped(members, (member: string) => CanonicalIntersection(member)) ==
      seq(|members|, i requires 0 <= i < |members| => CanonicalIntersection(members[i]));
  }

  /** A type that is neither conditional nor a function. */
  predicate PlainUnion(t: string) {
    && Split(t, " extends ").Some? && |Split(t, " extends ").value| <= 1
    && Split(t, "=>").Some? && |Split(t, "=>").value| <= 1
  }

  /** Outside conditional and function types the members of a union may come in any order. */
  lemma UnionForgetsOrder(t: string, u: string)
    requires PlainUnion(t) && PlainUnion(u)
    requires Split(t, "|").Some? && Split(u, "|").Some? && multiset(Split(t, "|").value) == multiset(Split(u, "|").value)
    ensures CanonicalType(t) == CanonicalType(u)
  {
    UnionIsMembers(t);
    UnionIsMembers(u);
    SortedForgetsOrder(Split(t, "|").value, Split(u, "|").value, (member: string) => CanonicalIntersection(member));
    TypeIsUnion(t);
    TypeIsUnion(u);
  }

  lemma TypeIsUnion(t: string)
    requires PlainUnion(t)
    ensures CanonicalType(t) == CanonicalUnion(t)
  {
  }

  // ---------- joining and splitting again ----------

  /** A trimmed part without the separator `c` outside its quotes and brackets. */
  ghost predicate Part(m: string, c: char) {
    m != "" && Trim(m) == m && Tokens(m).Some? && AllClosed(Tokens(m).value) && Plain(c) !in Tokens(m).value
  }

  predicate AllBlank(s: string) {
    forall c <- s :: Space(c)
  }

  lemma {:induction false} TrimLeftPad(pad: string, s: string)
    requires AllBlank(pad)
    ensures TrimLeft(pad + s) == TrimLeft(s)
    decreases |pad|
  {
    if pad == "" {
      assert pad + s == s;
    } else {
      assert pad[0] in pad && (pad + s)[1..] == pad[1..] + s;
      TrimLeftPad(pad[1..], s);
    }
  }

  lemma {:induction false} TrimRightPad(s: string, pad: string)
    requires AllBlank(pad)
    ensures TrimRight(s + pad) == TrimRight(s)
    decreases |pad|
  {
    if pad == "" {
      assert s + pad == s;
    } else {
      var n := |pad| - 1;
      assert pad[n] in pad && (s + pad)[..|s + pad| - 1] == s + pad[..n];
      TrimRightPad(s, pad[..n]);
    }
  }

  lemma {:induction false} TrimmedEnds(m: string)
    requires m != "" && Trim(m) == m
    ensures TrimLeft(m) == m && TrimRight(m) == m
  {
    TrimShortens(m);
    TrimShortens(TrimLeft(m));
  }

  lemma {:induction false} TrimShortens(m: string)
    ensures |TrimLeft(m)| <= |m| && (|TrimLeft(m)| == |m| ==> TrimLeft(m) == m)
    ensures |TrimRight(m)| <= |m| && (|TrimRight(m)| == |m| ==> TrimRight(m) == m)
    decreases |m|
  {
    if m != "" {
      TrimShortens(m[1..]);
      TrimShortens(m[..|m| - 1]);
    }
  }

  lemma TrimPadded(left: string, m: string, right: string)
    requires AllBlank(left) && AllBlank(right) && m != "" && Trim(m) == m
    ensures Trim(left + m + right) == m
  {
    TrimmedEnds(m);
    TrimLeftPad(left, m + right);
    assert left + m + right == left + (m + right);
    FirstIsNotSpace(m);
    assert (m + right)[0] == m[0];
    assert TrimLeft(m + right) == m + right;
    TrimRightPad(m, right);
  }

  lemma FirstIsNotSpace(m: string)
    requires m != "" && TrimLeft(m) == m
    ensures !Space(m[0])
  {
    if Space(m[0]) {
      TrimShortens(m[1..]);
      assert false;
    }
  }

  lemma {:induction false} PiecesBefore(xs: seq<Token>, c: char, ys: seq<Token>)
    requires Plain(c) !in xs
    ensures Pieces(xs, [c]) == [xs]
    ensures Pieces(xs + [Plain(c)] + ys, [c]) == [xs] + Pieces(ys, [c])
    decreases |xs|
  {
    var all := xs + [Plain(c)] + ys;
    if xs == [] {
      assert all == [Plain(c)] + ys && all[1..] == ys;
    } else {
      PiecesBefore(xs[1..], c, ys);
      assert all[1..] == xs[1..] + [Plain(c)] + ys && all[0] == xs[0];
      assert [xs[0]] + xs[1..] == xs;
    }
  }

  function TokensOf(m: string): seq<Token> {
    Tokens(m).GetOr([])
  }

  function JoinedTokens(ms: seq<string>, left: string, c: char, right: string, first: string): seq<Token> {
    if ms == [] then []
    else if |ms| == 1 then Plains(first) + TokensOf(ms[0])
    else (Plains(first) + TokensOf(ms[0]) + Plains(right)) + [Plain(c)] + JoinedTokens(ms[1..], left, c, right, left)
  }

  lemma BlankTokens(pad: string, c: char)
    requires AllBlank(pad) && !Space(c)
    ensures AllClosed(Plains(pad)) && Plain(c) !in Plains(pad) && Flat(Plains(pad)) == pad
  {
    FlatPlains(pad);
    forall i | 0 <= i < |pad|
      ensures Space(pad[i])
    {
      assert pad[i] in pad;
    }
  }

  lemma FlatThree(xs: seq<Token>, ys: seq<Token>, zs: seq<Token>)
    ensures Flat(xs + ys + zs) == Flat(xs) + Flat(ys) + Flat(zs)
    ensures AllClosed(xs) && AllClosed(ys) && AllClosed(zs) ==> AllClosed(xs + ys + zs)
  {
    FlatAppend(xs + ys, zs);
    FlatAppend(xs, ys);
  }

  lemma Regrouped(a: string, b: string, c: string, d: string, e: string, f: string)
    ensures a + (b + (c + d + e) + f) == (a + b + c) + d + (e + f)
  {
  }

  lemma {:induction false} JoinedTokensText(ms: seq<string>, left: string, c: char, right: string, first: string)
    requires ms != [] && forall m <- ms :: Part(m, c)
    requires AllBlank(left) && AllBlank(right) && AllBlank(first) && !Space(c) && !Quote(c) && !Opener(c)
    ensures AllClosed(JoinedTokens(ms, left, c, right, first))
    ensures Flat(JoinedTokens(ms, left, c, right, first)) == first + Join(ms, right + [c] + left)
    decreases |ms|
  {
    var xs := TokensOf(ms[0]);
    assert Part(ms[0], c);
    TokensAreText(ms[0]);
    BlankTokens(first, c);
    BlankTokens(right, c);
    FlatAppend(Plains(first), xs);
    if |ms| > 1 {
      JoinedTokensText(ms[1..], left, c, right, left);
      var tail := Join(ms[1..], right + [c] + left);
      FlatThree(Plains(first), xs, Plains(right));
      FlatThree(Plains(first) + xs + Plains(right), [Plain(c)], JoinedTokens(ms[1..], left, c, right, left));
      assert Flat([Plain(c)]) == [c];
      Regrouped(first, ms[0], right, [c], left, tail);
    }
  }

  lemma {:induction false} JoinedTokensSplit(ms: seq<string>, left: string, c: char, right: string, first: string)
    requires ms != [] && forall m <- ms :: Part(m, c)
    requires AllBlank(left) && AllBlank(right) && AllBlank(first) && !Space(c)
    ensures TrimmedNonEmpty(Texts(Pieces(JoinedTokens(ms, left, c, right, first), [c]))) == ms
    decreases |ms|
  {
    var xs := TokensOf(ms[0]);
    assert Part(ms[0], c);
    TokensAreText(ms[0]);
    BlankTokens(first, c);
    BlankTokens(right, c);
    if |ms| > 1 {
      var rest := JoinedTokens(ms[1..], left, c, right, left);
      JoinedTokensSplit(ms[1..], left, c, right, left);
      FlatThree(Plains(first), xs, Plains(right));
      TrimPadded(first, ms[0], right);
      var p := Plains(first) + xs + Plains(right);
      PiecesBefore(p, c, rest);
      KeptFirst(p, Pieces(rest, [c]));
      assert ms == [ms[0]] + ms[1..];
    } else {
      var p := Plains(first) + xs;
      FlatAppend(Plains(first), xs);
      TrimPadded(first, ms[0], "");
      assert first + ms[0] + "" == first + ms[0];
      PiecesBefore(p, c, []);
      KeptFirst(p, []);
      assert [p] + [] == [p] && ms == [ms[0]];
    }
  }

  lemma KeptFirst(p: seq<Token>, ps: seq<seq<Token>>)
    requires Trim(Flat(p)) != ""
    ensures TrimmedNonEmpty(Texts([p] + ps)) == [Trim(Flat(p))] + TrimmedNonEmpty(Texts(ps))
  {
    assert Texts([p] + ps)[0] == Flat(p) && Texts([p] + ps)[1..] == Texts(ps);
  }

  /** The splitter undoes joining, with or without spaces around the separator. */
  lemma SplitJoined(ms: seq<string>, left: string, c: char, right: string)
    requires forall m <- ms :: Part(m, c)
    requires AllBlank(left) && AllBlank(right) && !Space(c) && !Quote(c) && !Opener(c)
    ensures Split(Join(ms, right + [c] + left), [c]) == Some(ms)
  {
    if ms == [] {
      SplitNothing([c]);
    } else {
      JoinedTokensText(ms, left, c, right, "");
      JoinedTokensSplit(ms, left, c, right, "");
      TokensOfFlat(JoinedTokens(ms, left, c, right, ""));
      assert "" + Join(ms, right + [c] + left) == Join(ms, right + [c] + left);
    }
  }

  lemma SplitNothing(sep: string)
    requires sep != ""
    ensures Split("", sep) == Some([])
  {
    var parts := RawPieces("", sep).value;
    assert Tokens("") == Some([]) && Pieces([], sep)[0] == [];
    assert parts == [""] && parts[1..] == [];
    assert Trim(parts[0]) == "" && TrimmedNonEmpty(parts[1..]) == [];
    assert TrimmedNonEmpty(parts) == [] + TrimmedNonEmpty(parts[1..]);
  }

  // ---------- plain text ----------

  lemma CodeTokens(s: string)
    requires forall c <- s :: !Quote(c) && !Opener(c)
    ensures Tokens(s) == Some(Plains(s))
  {
    FlatPlains(s);
    TokensOfFlat(Plains(s));
  }

  lemma {:induction false} NoSeparator(xs: seq<Token>, sep: string)
    requires sep != "" && Plain(sep[0]) !in xs
    ensures Pieces(xs, sep) == [xs]
    decreases |xs|
  {
    if xs != [] {
      NoSeparator(xs[1..], sep);
      assert [xs[0]] + xs[1..] == xs;
    }
  }
}
