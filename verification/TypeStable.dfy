/**
 Printing a canonical form again changes nothing.

 This holds for tidy text: brackets balance, no operand is missing, outside brackets `>` comes only in `=>`
 and `=` only there or before an operand, and `extends` stands alone only in a conditional type.
 */
module TypeStable {
  import opened Wrappers
  import opened TypeScan
  import opened TypeText
  import opened TypeCanon

  // ---------- properties of token lists ----------

  /** Blanks, separators and arrows: what stands where a text is cut or joined. */
  predicate Edge(x: Token) {
    x.Plain? && (Space(x.c) || x.c == ':' || x.c == ';' || x.c == ',' || x.c == '|' || x.c == '&' || x.c == '=' || x.c == '>')
  }

  /** The sign at `i` heads `=>`. */
  predicate Arrow(xs: seq<Token>, i: nat) {
    i + 1 < |xs| && xs[i + 1] == Plain('>')
  }

  /** The sign at `i` has an operand, one blank away. */
  predicate Assigns(xs: seq<Token>, i: nat) {
    i + 2 < |xs| && xs[i + 1] == Plain(' ') && !Edge(xs[i + 2])
  }

  /** Only the end of `=>` is a closing bracket, and every `=` heads `=>` or has an operand. */
  predicate Neat(xs: seq<Token>) {
    && (forall i :: 0 <= i < |xs| && xs[i].Plain? && Closer(xs[i].c) ==> i > 0 && xs[i].c == '>' && xs[i - 1] == Plain('='))
    && (forall i :: 0 <= i < |xs| && xs[i] == Plain('=') ==> Arrow(xs, i) || Assigns(xs, i))
  }

  /** Every `=` heads `=>`. */
  predicate Pure(xs: seq<Token>) {
    forall i :: 0 <= i < |xs| && xs[i] == Plain('=') ==> Arrow(xs, i)
  }

  /** Every colon has operands right beside it. */
  predicate Tight(xs: seq<Token>) {
    forall i :: 0 <= i < |xs| && xs[i] == Plain(':') ==> 0 < i < |xs| - 1 && !Edge(xs[i - 1]) && !Edge(xs[i + 1])
  }

  /** The word starts nowhere. */
  predicate Free(xs: seq<Token>, word: string) {
    forall k :: 0 <= k < |xs| ==> !Occurs(xs[k..], word)
  }

  const EXTENDS := "extends"

  /** `extends` at `k`, not as part of a longer name. */
  predicate StandsAt(xs: seq<Token>, k: nat)
    requires k <= |xs|
  {
    && Occurs(xs[k..], EXTENDS)
    && (k == 0 || Edge(xs[k - 1])) && (k + |EXTENDS| == |xs| || Edge(xs[k + |EXTENDS|]))
  }

  predicate NoExtends(xs: seq<Token>) {
    forall k :: 0 <= k < |xs| ==> !StandsAt(xs, k)
  }

  /** `ys` was made from `xs` and `glue`: it has no other characters, and shares these properties. */
  ghost predicate Keeps(ys: seq<Token>, xs: seq<Token>, glue: set<char>) {
    && (forall c :: Plain(c) !in xs && c !in glue ==> Plain(c) !in ys)
    && (NoExtends(xs) ==> NoExtends(ys))
    && (Pure(xs) ==> Pure(ys))
    && ('=' !in glue && '>' !in glue && Free(xs, "=>") ==> Free(ys, "=>"))
    && (':' !in glue && Tight(xs) ==> Tight(ys))
  }

  /** What a part of a token list inherits. */
  ghost predicate Inherits(p: seq<Token>, xs: seq<Token>) {
    (forall x <- p :: x in xs) && (Neat(xs) ==> Neat(p)) && Keeps(p, xs, {})
  }

  lemma NeatIsWellFormed(xs: seq<Token>)
    requires Neat(xs) && AllClosed(xs)
    ensures WellFormed(xs)
  {
  }

  lemma NeatConcat(xs: seq<Token>, ys: seq<Token>)
    requires Neat(xs) && Neat(ys)
    ensures Neat(xs + ys)
  {
    var all := xs + ys;
    forall i | 0 <= i < |all| && all[i] == Plain('=')
      ensures Arrow(all, i) || Assigns(all, i)
    {
      if i < |xs| {
        assert Arrow(xs, i) || Assigns(xs, i);
      } else {
        assert ys[i - |xs|] == Plain('=');
        assert Arrow(ys, i - |xs|) || Assigns(ys, i - |xs|);
      }
    }
  }

  lemma PureConcat(xs: seq<Token>, ys: seq<Token>)
    requires Pure(xs) && Pure(ys)
    ensures Pure(xs + ys)
  {
    var all := xs + ys;
    forall i | 0 <= i < |all| && all[i] == Plain('=')
      ensures Arrow(all, i)
    {
      if i < |xs| { assert Arrow(xs, i); } else { assert Arrow(ys, i - |xs|); }
    }
  }

  lemma FreeSlice(xs: seq<Token>, a: nat, b: nat, word: string)
    requires a <= b <= |xs| && Free(xs, word)
    ensures Free(xs[a..b], word)
  {
    forall k | 0 <= k < |xs[a..b]|
      ensures !Occurs(xs[a..b][k..], word)
    {
      assert xs[a + k..] == xs[a..b][k..] + xs[b..];
      OccursIsLocal(xs[a..b][k..], xs[b..], word);
    }
  }

  // ---------- cutting ----------

  /** Both ends of the slice are at edges, and no `=>` is torn apart. */
  predicate CutAt(xs: seq<Token>, a: nat, b: nat) {
    && a <= b <= |xs|
    && (a > 0 ==> Edge(xs[a - 1]) && xs[a - 1] != Plain('='))
    && (b < |xs| ==> Edge(xs[b]) && xs[b] != Plain('>') && (Blank(xs[b]) ==> b + 1 == |xs|))
  }

  lemma SliceNeat(xs: seq<Token>, a: nat, b: nat)
    requires CutAt(xs, a, b)
    ensures Neat(xs) ==> Neat(xs[a..b])
    ensures Pure(xs) ==> Pure(xs[a..b])
    ensures Tight(xs) ==> Tight(xs[a..b])
  {
    var p := xs[a..b];
    forall i | 0 <= i < |p| && p[i] == Plain('=')
      ensures Neat(xs) ==> Arrow(p, i) || Assigns(p, i)
      ensures Pure(xs) ==> Arrow(p, i)
    {
      assert xs[a + i] == Plain('=');
      if Neat(xs) { assert Arrow(xs, a + i) || Assigns(xs, a + i); }
      if Pure(xs) { assert Arrow(xs, a + i); }
    }
    forall i | 0 <= i < |p| && p[i] == Plain(':') && Tight(xs)
      ensures 0 < i < |p| - 1 && !Edge(p[i - 1]) && !Edge(p[i + 1])
    {
      assert xs[a + i] == Plain(':');
    }
  }

  lemma SliceNoExtends(xs: seq<Token>, a: nat, b: nat)
    requires CutAt(xs, a, b) && NoExtends(xs)
    ensures NoExtends(xs[a..b])
  {
    var p := xs[a..b];
    forall k | 0 <= k < |p|
      ensures !StandsAt(p, k)
    {
      assert xs[a + k..] == p[k..] + xs[b..];
      OccursIsLocal(p[k..], xs[b..], EXTENDS);
      assert !StandsAt(xs, a + k);
    }
  }

  lemma SliceInherits(xs: seq<Token>, a: nat, b: nat)
    requires CutAt(xs, a, b)
    ensures Inherits(xs[a..b], xs)
  {
    SliceNeat(xs, a, b);
    if NoExtends(xs) { SliceNoExtends(xs, a, b); }
    if Free(xs, "=>") { FreeSlice(xs, a, b, "=>"); }
  }

  lemma KeepsTransitive(p: seq<Token>, q: seq<Token>, xs: seq<Token>, glue: set<char>, more: set<char>)
    requires Keeps(p, q, glue) && Keeps(q, xs, more)
    ensures Keeps(p, xs, glue + more)
  {
    forall c | Plain(c) !in xs && c !in glue + more
      ensures Plain(c) !in p
    {
      assert Plain(c) !in q;
    }
  }

  lemma KeepsMore(p: seq<Token>, xs: seq<Token>, glue: set<char>, more: set<char>)
    requires Keeps(p, xs, glue) && glue <= more
    ensures Keeps(p, xs, more)
  {
  }

  lemma InheritsItself(xs: seq<Token>)
    ensures Inherits(xs, xs)
  {
  }

  lemma InheritsTransitive(p: seq<Token>, q: seq<Token>, xs: seq<Token>)
    requires Inherits(p, q) && Inherits(q, xs)
    ensures Inherits(p, xs)
  {
    KeepsTransitive(p, q, xs, {}, {});
  }

  /** A separator that starts and ends at edges and tears no `=>` apart. */
  predicate Safe(sep: string) {
    && Separator(sep)
    && Edge(Plain(sep[0])) && !Space(sep[0]) && sep[0] != '>'
    && Edge(Plain(sep[|sep| - 1])) && sep[|sep| - 1] != '='
  }

  lemma FirstInherits(p: seq<Token>, sep: string, rest: seq<Token>)
    requires Safe(sep)
    ensures Inherits(p, p + Plains(sep) + rest) && Inherits(rest, p + Plains(sep) + rest)
  {
    var xs := p + Plains(sep) + rest;
    var b := |p| + |sep|;
    assert xs[|p|] == Plain(sep[0]) && xs[b - 1] == Plain(sep[|sep| - 1]);
    SliceInherits(xs, 0, |p|);
    SliceInherits(xs, b, |xs|);
    assert xs[0..|p|] == p && xs[b..|xs|] == rest;
  }

  lemma {:induction false} PiecesInherit(ps: seq<seq<Token>>, sep: string)
    requires Safe(sep)
    ensures forall p <- ps :: Inherits(p, Joined(ps, sep))
    decreases |ps|
  {
    if |ps| == 1 {
      InheritsItself(ps[0]);
      assert Joined(ps, sep) == ps[0];
    } else if |ps| > 1 {
      var xs, rest := Joined(ps, sep), Joined(ps[1..], sep);
      FirstInherits(ps[0], sep, rest);
      PiecesInherit(ps[1..], sep);
      forall p | p in ps[1..]
        ensures Inherits(p, xs)
      {
        InheritsTransitive(p, rest, xs);
      }
    }
  }

  lemma {:induction false} DropLeftInherits(xs: seq<Token>)
    ensures Inherits(DropLeft(xs), xs)
    decreases |xs|
  {
    if xs != [] && Blank(xs[0]) {
      SliceInherits(xs, 1, |xs|);
      assert xs[1..|xs|] == xs[1..];
      DropLeftInherits(xs[1..]);
      InheritsTransitive(DropLeft(xs), xs[1..], xs);
    } else {
      InheritsItself(xs);
    }
  }

  lemma BlankCut(xs: seq<Token>)
    requires xs != [] && Blank(xs[|xs| - 1])
    ensures Inherits(xs[..|xs| - 1], xs)
  {
    SliceInherits(xs, 0, |xs| - 1);
    assert xs[0..|xs| - 1] == xs[..|xs| - 1];
  }

  lemma {:induction false} DropRightInherits(xs: seq<Token>)
    ensures Inherits(DropRight(xs), xs)
    decreases |xs|
  {
    if xs != [] && Blank(xs[|xs| - 1]) {
      BlankCut(xs);
      DropRightInherits(xs[..|xs| - 1]);
      InheritsTransitive(DropRight(xs), xs[..|xs| - 1], xs);
    } else {
      InheritsItself(xs);
    }
  }

  lemma StrippedInherits(xs: seq<Token>)
    ensures Inherits(Stripped(xs), xs)
  {
    DropLeftInherits(xs);
    DropRightInherits(DropLeft(xs));
    InheritsTransitive(Stripped(xs), DropLeft(xs), xs);
  }

  // ---------- fit texts ----------

  /** A trimmed, non-empty text whose tokens are closed and neat. */
  ghost predicate Fit(t: string) {
    t != "" && Trim(t) == t && Tokens(t).Some? && AllClosed(TokensOf(t)) && Neat(TokensOf(t))
  }

  /** A part of `t`: fit, and made of tokens of `t` only. */
  ghost predicate PartOf(part: string, t: string) {
    Fit(part) && Inherits(TokensOf(part), TokensOf(t))
  }

  lemma {:induction false} TrimTwice(s: string)
    ensures Trim(Trim(s)) == Trim(s)
  {
    NonSpaceTrimLeft(s);
    var u := TrimLeft(s);
    NonSpaceTrimRight(u);
    TrimRightEnds(u);
    if TrimRight(u) != "" {
      assert TrimLeft(TrimRight(u)) == TrimRight(u);
    }
  }

  lemma {:induction false} TrimRightEnds(s: string)
    ensures TrimRight(TrimRight(s)) == TrimRight(s)
    decreases |s|
  {
    if s != "" && Space(s[|s| - 1]) { TrimRightEnds(s[..|s| - 1]); }
  }

  lemma {:induction false} KeptParts(ps: seq<seq<Token>>, xs: seq<Token>)
    requires forall p <- ps :: Inherits(p, xs)
    requires AllClosed(xs) && Neat(xs)
    ensures forall part <- TrimmedNonEmpty(Texts(ps)) :: Fit(part) && Inherits(TokensOf(part), xs)
    decreases |ps|
  {
    if ps != [] {
      KeptParts(ps[1..], xs);
      assert Texts(ps)[1..] == Texts(ps[1..]);
      var p := ps[0];
      assert p in ps;
      TrimTokens(p);
      TokensOfFlat(Stripped(p));
      StrippedInherits(p);
      InheritsTransitive(Stripped(p), p, xs);
      TrimTwice(Flat(p));
    }
  }

  /** Every part of a split is a part of the text. */
  lemma SplitParts(t: string, sep: string)
    requires Tokens(t).Some? && AllClosed(TokensOf(t)) && Neat(TokensOf(t)) && Safe(sep)
    ensures Split(t, sep).Some? && forall part <- Split(t, sep).value :: PartOf(part, t)
  {
    var xs := TokensOf(t);
    PiecesDivide(xs, sep);
    PiecesInherit(Pieces(xs, sep), sep);
    KeptParts(Pieces(xs, sep), xs);
  }

  /** A single-character separator is in none of the parts. */
  lemma {:induction false} PiecesLack(xs: seq<Token>, c: char)
    ensures forall p <- Pieces(xs, [c]) :: Plain(c) !in p
    decreases |xs|
  {
    if xs != [] && Occurs(xs, [c]) {
      PiecesLack(xs[1..], c);
    } else if xs != [] {
      PiecesLack(xs[1..], c);
      assert xs[0] != Plain(c);
    }
  }

  lemma {:induction false} KeptLack(ps: seq<seq<Token>>, c: char)
    requires forall p <- ps :: AllClosed(p) && Plain(c) !in p
    ensures forall part <- TrimmedNonEmpty(Texts(ps)) :: Plain(c) !in TokensOf(part)
    decreases |ps|
  {
    if ps != [] {
      KeptLack(ps[1..], c);
      assert Texts(ps)[1..] == Texts(ps[1..]);
      var p := ps[0];
      assert p in ps;
      TrimTokens(p);
      TokensOfFlat(Stripped(p));
      StrippedInherits(p);
    }
  }

  lemma SplitLacks(t: string, c: char)
    requires Tokens(t).Some? && AllClosed(TokensOf(t)) && Neat(TokensOf(t)) && Safe([c])
    ensures Split(t, [c]).Some? && forall part <- Split(t, [c]).value :: PartOf(part, t) && Plain(c) !in TokensOf(part)
  {
    var xs := TokensOf(t);
    SplitParts(t, [c]);
    PiecesLack(xs, c);
    PiecesDivide(xs, [c]);
    PiecesInherit(Pieces(xs, [c]), [c]);
    KeptLack(Pieces(xs, [c]), c);
  }

  /** Where the separator starts nowhere there is one piece. */
  lemma {:induction false} OnePiece(xs: seq<Token>, sep: string)
    requires sep != "" && Free(xs, sep)
    ensures Pieces(xs, sep) == [xs]
    decreases |xs|
  {
    if xs != [] {
      assert xs[0..] == xs;
      FreeSlice(xs, 1, |xs|, sep);
      assert xs[1..|xs|] == xs[1..];
      OnePiece(xs[1..], sep);
      assert [xs[0]] + xs[1..] == xs;
    }
  }

  lemma OnePart(t: string, sep: string)
    requires Fit(t) && sep != "" && Free(TokensOf(t), sep)
    ensures Split(t, sep) == Some([t])
  {
    var xs := TokensOf(t);
    OnePiece(xs, sep);
    TokensAreText(t);
    var parts := RawPieces(t, sep).value;
    assert parts == [t] && parts[1..] == [];
    assert TrimmedNonEmpty(parts[1..]) == [];
    assert TrimmedNonEmpty(parts) == [t];
    assert Split(t, sep) == Some(TrimmedNonEmpty(parts));
  }

  lemma FreeOfChar(xs: seq<Token>, c: char)
    requires Plain(c) !in xs
    ensures Free(xs, [c])
  {
    forall k | 0 <= k < |xs|
      ensures !Occurs(xs[k..], [c])
    {
      assert xs[k..][0] == xs[k];
    }
  }

  // ---------- alike texts share these properties ----------

  lemma AlikePlains(xs: seq<Token>, ys: seq<Token>)
    requires Alike(xs, ys)
    ensures forall i :: 0 <= i < |xs| ==> Edge(xs[i]) == Edge(ys[i]) && (xs[i].Plain? || ys[i].Plain? ==> xs[i] == ys[i])
  {
    forall i | 0 <= i < |xs|
      ensures Edge(xs[i]) == Edge(ys[i]) && (xs[i].Plain? || ys[i].Plain? ==> xs[i] == ys[i])
    {
      assert Like(xs[i], ys[i]);
    }
  }

  lemma AlikeNeat(xs: seq<Token>, ys: seq<Token>)
    requires Alike(xs, ys)
    ensures Neat(xs) ==> Neat(ys)
    ensures Pure(xs) ==> Pure(ys)
    ensures Tight(xs) ==> Tight(ys)
  {
    AlikePlains(xs, ys);
    forall i | 0 <= i < |ys| && ys[i] == Plain('=')
      ensures Arrow(xs, i) ==> Arrow(ys, i)
      ensures Assigns(xs, i) ==> Assigns(ys, i)
    {
    }
  }

  lemma AlikeFree(xs: seq<Token>, ys: seq<Token>, word: string)
    requires Alike(xs, ys) && Free(xs, word)
    ensures Free(ys, word)
  {
    forall k | 0 <= k < |ys|
      ensures !Occurs(ys[k..], word)
    {
      AlikeFrom(xs, ys, k, word);
    }
  }

  lemma AlikeFrom(xs: seq<Token>, ys: seq<Token>, k: nat, word: string)
    requires Alike(xs, ys) && k <= |xs|
    ensures Occurs(xs[k..], word) == Occurs(ys[k..], word)
  {
    AlikePart(xs, ys, k, |xs|);
    assert xs[k..|xs|] == xs[k..] && ys[k..|ys|] == ys[k..];
    AlikeOccurs(xs[k..], ys[k..], word);
  }

  lemma AlikeNoExtends(xs: seq<Token>, ys: seq<Token>)
    requires Alike(xs, ys) && NoExtends(xs)
    ensures NoExtends(ys)
  {
    AlikePlains(xs, ys);
    forall k | 0 <= k < |ys|
      ensures !StandsAt(ys, k)
    {
      AlikeFrom(xs, ys, k, EXTENDS);
      assert !StandsAt(xs, k);
    }
  }

  lemma AlikeLacks(xs: seq<Token>, ys: seq<Token>, c: char)
    requires Alike(xs, ys) && Plain(c) !in xs
    ensures Plain(c) !in ys
  {
    forall i | 0 <= i < |ys|
      ensures ys[i] != Plain(c)
    {
      assert Like(xs[i], ys[i]);
    }
  }

  // ---------- joining fit texts ----------

  /** A text made of `t` and `glue`. */
  ghost predicate MadeOf(p: string, t: string, glue: set<char>) {
    Fit(p) && Keeps(TokensOf(p), TokensOf(t), glue)
  }

  predicate Glue(g: string) {
    && g != "" && (forall c <- g :: !Quote(c) && !Opener(c) && c !in EXTENDS && Edge(Plain(c)))
    && Neat(Plains(g)) && Pure(Plains(g))
  }

  lemma Beyond(xs: seq<Token>, ys: seq<Token>, zs: seq<Token>, k: nat)
    requires |xs| + |ys| <= k <= |xs| + |ys| + |zs|
    ensures (xs + ys + zs)[k..] == zs[k - |xs| - |ys|..]
  {
  }

  lemma Before(xs: seq<Token>, ys: seq<Token>, zs: seq<Token>, k: nat)
    requires k <= |xs|
    ensures (xs + ys + zs)[k..] == xs[k..] + (ys + zs)
  {
  }

  lemma GlueLacks(g: string, j: int, word: string)
    requires forall c <- g :: c !in word
    ensures 0 <= j < |g| ==> Plains(g)[j] == Plain(g[j]) && g[j] !in word
  {
  }

  lemma OutsideGlue(xs: seq<Token>, g: string, ys: seq<Token>, k: nat, i: nat, word: string)
    requires (forall c <- g :: c !in word) && i < |word|
    requires k <= |xs + Plains(g) + ys| && Occurs((xs + Plains(g) + ys)[k..], word)
    ensures k + i < |xs| || k + i >= |xs| + |g|
  {
    var all := xs + Plains(g) + ys;
    var j := k + i - |xs|;
    GlueLacks(g, j, word);
    assert all[k..][i] == all[k + i] && word[i] in word;
  }

  /** No word runs across glue that has none of its characters. */
  lemma OccursBesideGlue(xs: seq<Token>, g: string, ys: seq<Token>, k: nat, word: string)
    requires word != "" && g != "" && (forall c <- g :: c !in word)
    requires k < |xs + Plains(g) + ys| && Occurs((xs + Plains(g) + ys)[k..], word)
    ensures k < |xs| ==> k + |word| <= |xs| && Occurs(xs[k..], word)
    ensures k >= |xs| ==> k >= |xs| + |g| && Occurs(ys[k - |xs| - |g|..], word)
  {
    if k < |xs| {
      if |xs| - k < |word| { OutsideGlue(xs, g, ys, k, |xs| - k, word); }
      Before(xs, Plains(g), ys, k);
      OccursIsLocal(xs[k..], Plains(g) + ys, word);
    } else {
      OutsideGlue(xs, g, ys, k, 0, word);
      Beyond(xs, Plains(g), ys, k);
    }
  }

  lemma FreeAcrossGlue(xs: seq<Token>, g: string, ys: seq<Token>, word: string)
    requires Free(xs, word) && Free(ys, word) && word != "" && g != "" && forall c <- g :: c !in word
    ensures Free(xs + Plains(g) + ys, word)
  {
    var all := xs + Plains(g) + ys;
    forall k | 0 <= k < |all|
      ensures !Occurs(all[k..], word)
    {
      if Occurs(all[k..], word) { OccursBesideGlue(xs, g, ys, k, word); }
    }
  }

  lemma NoExtendsAcrossGlue(xs: seq<Token>, g: string, ys: seq<Token>)
    requires NoExtends(xs) && NoExtends(ys) && g != "" && forall c <- g :: c !in EXTENDS && Edge(Plain(c))
    ensures NoExtends(xs + Plains(g) + ys)
  {
    var all := xs + Plains(g) + ys;
    forall k | 0 <= k < |all|
      ensures !StandsAt(all, k)
    {
      if StandsAt(all, k) {
        OccursBesideGlue(xs, g, ys, k, EXTENDS);
        if k < |xs| { assert StandsAt(xs, k); } else { assert StandsAt(ys, k - |xs| - |g|); }
      }
    }
  }

  lemma TightConcat(xs: seq<Token>, ys: seq<Token>)
    requires Tight(xs) && Tight(ys)
    ensures Tight(xs + ys)
  {
    var all := xs + ys;
    forall i | 0 <= i < |all| && all[i] == Plain(':')
      ensures 0 < i < |all| - 1 && !Edge(all[i - 1]) && !Edge(all[i + 1])
    {
      assert if i < |xs| then xs[i] == Plain(':') else ys[i - |xs|] == Plain(':');
    }
  }

  lemma KeepsGlued(xs: seq<Token>, g: string, ys: seq<Token>, zs: seq<Token>, glue: set<char>)
    requires Keeps(xs, zs, glue) && Keeps(ys, zs, glue) && Glue(g) && CharsIn(g, glue)
    ensures Keeps(xs + Plains(g) + ys, zs, glue)
  {
    forall c | Plain(c) !in zs && c !in glue
      ensures Plain(c) !in xs + Plains(g) + ys
    {
      assert c !in g;
    }
    if NoExtends(zs) { NoExtendsAcrossGlue(xs, g, ys); }
    if Pure(zs) {
      PureConcat(xs, Plains(g));
      PureConcat(xs + Plains(g), ys);
    }
    if '=' !in glue && '>' !in glue && Free(zs, "=>") {
      assert forall c <- "=>" :: c !in glue;
      FreeAcrossGlue(xs, g, ys, "=>");
    }
    if ':' !in glue && Tight(zs) {
      assert Tight(Plains(g)) by { assert ':' !in g; }
      TightConcat(xs, Plains(g));
      TightConcat(xs + Plains(g), ys);
    }
  }

  /** Code that may stand between two texts. */
  predicate Link(g: string) {
    (forall c <- g :: !Quote(c) && !Opener(c)) && Neat(Plains(g))
  }

  lemma GluedTokens(a: string, g: string, b: string)
    requires Fit(a) && Fit(b) && Link(g)
    ensures Tokens(a + g + b) == Some(TokensOf(a) + Plains(g) + TokensOf(b))
    ensures Fit(a + g + b)
  {
    var xs, ys := TokensOf(a), TokensOf(b);
    var all := xs + Plains(g) + ys;
    TokensAreText(a);
    TokensAreText(b);
    FlatThree(xs, Plains(g), ys);
    FlatPlains(g);
    TokensOfFlat(all);
    NeatConcat(xs, Plains(g));
    NeatConcat(xs + Plains(g), ys);
    TrimmedEnds(a);
    TrimmedEnds(b);
    FirstIsNotSpace(a);
    LastIsNotSpace(b);
    assert (a + g + b)[0] == a[0] && (a + g + b)[|a + g + b| - 1] == b[|b| - 1];
  }

  lemma LastIsNotSpace(m: string)
    requires m != "" && TrimRight(m) == m
    ensures !Space(m[|m| - 1])
  {
    if Space(m[|m| - 1]) {
      TrimShortens(m[..|m| - 1]);
      assert false;
    }
  }

  predicate CharsIn(g: string, glue: set<char>) {
    forall c <- g :: c in glue
  }

  lemma GluedMadeOf(a: string, g: string, b: string, t: string, glue: set<char>)
    requires MadeOf(a, t, glue) && MadeOf(b, t, glue) && Glue(g) && CharsIn(g, glue)
    ensures MadeOf(a + g + b, t, glue)
  {
    GluedTokens(a, g, b);
    KeepsGlued(TokensOf(a), g, TokensOf(b), TokensOf(t), glue);
  }

  lemma {:induction false} JoinMadeOf(parts: seq<string>, g: string, t: string, glue: set<char>)
    requires parts != [] && (forall part <- parts :: MadeOf(part, t, glue)) && Glue(g) && CharsIn(g, glue)
    ensures MadeOf(Join(parts, g), t, glue)
    decreases |parts|
  {
    assert MadeOf(parts[0], t, glue);
    if |parts| > 1 {
      JoinMadeOf(parts[1..], g, t, glue);
      GluedMadeOf(parts[0], g, Join(parts[1..], g), t, glue);
    }
  }

  lemma MadeOfMade(p: string, q: string, t: string, glue: set<char>, less: set<char>)
    requires MadeOf(p, q, glue) && Keeps(TokensOf(q), TokensOf(t), less) && less <= glue
    ensures MadeOf(p, t, glue)
  {
    KeepsTransitive(TokensOf(p), TokensOf(q), TokensOf(t), glue, less);
    assert glue + less == glue;
  }

  lemma MadeOfPart(p: string, part: string, t: string, glue: set<char>, more: set<char>)
    requires MadeOf(p, part, glue) && PartOf(part, t) && glue <= more
    ensures MadeOf(p, t, more)
  {
    MadeOfMade(p, part, t, glue, {});
    KeepsMore(TokensOf(p), TokensOf(t), glue, more);
  }

  lemma SimilarMadeOf(p: string, t: string)
    requires Similar(t, p) && Fit(p)
    ensures MadeOf(p, t, {})
  {
    var xs, ys := TokensOf(t), TokensOf(p);
    forall c | Plain(c) !in xs
      ensures Plain(c) !in ys
    {
      AlikeLacks(xs, ys, c);
    }
    AlikeNeat(xs, ys);
    if NoExtends(xs) { AlikeNoExtends(xs, ys); }
    if Free(xs, "=>") { AlikeFree(xs, ys, "=>"); }
  }

  // ---------- settled groups and atoms ----------

  /** A group that prints, neatly, and prints the same when printed again. */
  ghost predicate Settled(tok: Token) {
    IsGroup(tok) ==>
      var inner := CanonicalGroup(tok.s[0], tok.s[1..|tok.s| - 1]);
      inner.Some? && Tokens(inner.value).Some? && AllClosed(TokensOf(inner.value)) && Neat(TokensOf(inner.value))
      && CanonicalGroup(tok.s[0], inner.value) == inner
  }

  ghost predicate AllSettled(xs: seq<Token>) {
    forall x <- xs :: Settled(x)
  }

  function Reprinted(tok: Token): Token {
    if IsGroup(tok) && Print(tok).Some? then Solid(Print(tok).value) else tok
  }

  lemma GroupIsLike(tok: Token, open: char, ys: seq<Token>)
    requires IsGroup(tok) && Closed(tok) && tok.s[0] == open
    requires AllClosed(ys) && Neat(ys) && CanonicalGroup(open, tok.s[1..|tok.s| - 1]) == Some(Flat(ys))
    requires CanonicalGroup(open, Flat(ys)) == Some(Flat(ys))
    ensures Print(tok) == Some(TextOf(Group(open, ys))) && Print(Group(open, ys)) == Print(tok)
    ensures IsGroup(Group(open, ys)) && Closed(Group(open, ys))
  {
    NeatIsWellFormed(ys);
    BracketCloses(open, ys);
    GroupPrints(open, ys);
  }

  lemma ReprintedIsLike(tok: Token)
    requires Closed(tok) && Settled(tok)
    ensures Print(tok) == Some(TextOf(Reprinted(tok))) && Like(tok, Reprinted(tok)) && Closed(Reprinted(tok))
  {
    if IsGroup(tok) {
      var inner := CanonicalGroup(tok.s[0], tok.s[1..|tok.s| - 1]).value;
      TokensAreText(inner);
      GroupIsLike(tok, tok.s[0], TokensOf(inner));
      assert Reprinted(tok) == Group(tok.s[0], TokensOf(inner));
    }
  }

  function ReprintedAll(xs: seq<Token>): seq<Token> {
    if xs == [] then [] else [Reprinted(xs[0])] + ReprintedAll(xs[1..])
  }

  lemma AlikeCons(x: Token, y: Token, xs: seq<Token>, ys: seq<Token>)
    requires Like(x, y) && Closed(x) && Closed(y) && Alike(xs, ys)
    ensures Alike([x] + xs, [y] + ys)
  {
  }

  lemma {:induction false} ReprintedTokens(xs: seq<Token>)
    requires AllClosed(xs) && AllSettled(xs)
    ensures Alike(xs, ReprintedAll(xs)) && PrintAll(xs) == Some(Flat(ReprintedAll(xs)))
    decreases |xs|
  {
    if xs != [] {
      var rest := ReprintedAll(xs[1..]);
      ReprintedTokens(xs[1..]);
      assert Print(xs[0]) == Some(TextOf(Reprinted(xs[0]))) && Alike([xs[0]] + xs[1..], [Reprinted(xs[0])] + rest) by {
        ReprintedIsLike(xs[0]);
        AlikeCons(xs[0], Reprinted(xs[0]), xs[1..], rest);
      }
      assert [xs[0]] + xs[1..] == xs && ([Reprinted(xs[0])] + rest)[1..] == rest;
    }
  }

  lemma StrippedFit(t: string)
    requires Fit(t)
    ensures Stripped(TokensOf(t)) == TokensOf(t)
  {
    TokensAreText(t);
    TrimTokens(TokensOf(t));
    TokensOfFlat(Stripped(TokensOf(t)));
  }

  /** An atom whose groups are settled prints as an alike text, and that prints as itself. */
  lemma SettledAtom(t: string)
    requires Fit(t) && AllSettled(TokensOf(t))
    ensures CanonicalAtom(t).Some?
    ensures var p := CanonicalAtom(t).value; Fit(p) && Similar(t, p) && CanonicalAtom(p) == Some(p) && MadeOf(p, t, {})
    ensures CanonicalAtom(t).value == Flat(ReprintedAll(TokensOf(t)))
  {
    var xs := TokensOf(t);
    var ys := ReprintedAll(xs);
    ReprintedTokens(xs);
    AlikeStripped(xs, ys);
    StrippedFit(t);
    TrimTokens(ys);
    SameStripped(xs, ys);
    TokensOfFlat(ys);
    AlikeNeat(xs, ys);
    var p := CanonicalAtom(t).value;
    assert p == Flat(ys);
    TokensAreText(t);
    assert Trim(Flat(xs)) != "";
    SimilarAtom(t, p);
    SimilarMadeOf(p, t);
  }

  lemma SameStripped(xs: seq<Token>, ys: seq<Token>)
    requires Alike(xs, ys) && Stripped(xs) == xs
    ensures Stripped(ys) == ys
  {
    AlikeStripped(xs, ys);
    StrippedShortens(ys);
  }

  lemma StrippedShortens(ys: seq<Token>)
    ensures |Stripped(ys)| == |ys| ==> Stripped(ys) == ys
  {
    DropShortens(ys);
    DropShortens(DropLeft(ys));
  }

  lemma {:induction false} DropShortens(ys: seq<Token>)
    ensures |DropLeft(ys)| <= |ys| && (|DropLeft(ys)| == |ys| ==> DropLeft(ys) == ys)
    ensures |DropRight(ys)| <= |ys| && (|DropRight(ys)| == |ys| ==> DropRight(ys) == ys)
    decreases |ys|
  {
    if ys != [] {
      DropShortens(ys[1..]);
      DropShortens(ys[..|ys| - 1]);
    }
  }

  // ---------- intersections and unions ----------

  /** What printing adds between operands, members and parameters. */
  const AMP := {' ', '&'}
  const BAR := {' ', '&', '|'}
  const TYPE_GLUE := {' ', '&', '|', '=', '>'}
  const ARROW := {'=', '>'}

  lemma {:induction false} EachPrinted(parts: seq<string>, printer: string -> Option<string>, printed: seq<string>)
    requires |parts| == |printed| && forall i :: 0 <= i < |parts| ==> printer(parts[i]) == Some(printed[i])
    ensures AllSome(Mapped(parts, printer)) == Some(printed)
    decreases |parts|
  {
    if parts != [] {
      EachPrinted(parts[1..], printer, printed[1..]);
      assert Mapped(parts, printer) == [printer(parts[0])] + Mapped(parts[1..], printer);
      assert printed == [printed[0]] + printed[1..];
    }
  }

  /** What the printed parts of a split look like: made of the text, without the separator, and stable. */
  ghost predicate StableParts(parts: seq<string>, printer: string -> Option<string>, printed: seq<string>, t: string, glue: set<char>, c: char) {
    && |parts| == |printed|
    && (forall i :: 0 <= i < |parts| ==> printer(parts[i]) == Some(printed[i]))
    && (forall p <- printed :: MadeOf(p, t, glue) && Plain(c) !in TokensOf(p) && printer(p) == Some(p))
  }

  function Atoms(): string -> Option<string> { (part: string) => CanonicalAtom(part) }

  lemma IntersectionIsAtoms(t: string)
    requires Split(t, "&").Some?
    ensures CanonicalIntersection(t) ==
      match AllSome(Mapped(Split(t, "&").value, Atoms())) case None => None case Some(atoms) => Some(Join(atoms, " & "))
  {
    var parts := Split(t, "&").value;
    assert Mapped(parts, Atoms()) == seq(|parts|, i requires 0 <= i < |parts| => CanonicalAtom(parts[i]));
  }

  lemma SettledPart(part: string, t: string)
    requires PartOf(part, t) && AllSettled(TokensOf(t))
    ensures AllSettled(TokensOf(part))
  {
  }

  lemma StableAtoms(t: string) returns (atoms: seq<string>)
    requires Fit(t) && AllSettled(TokensOf(t))
    ensures Split(t, "&").Some? && StableParts(Split(t, "&").value, Atoms(), atoms, t, AMP, '&')
  {
    SplitLacks(t, '&');
    var parts := Split(t, "&").value;
    atoms := seq(|parts|, i requires 0 <= i < |parts| => CanonicalAtom(parts[i]).GetOr(""));
    forall i | 0 <= i < |parts|
      ensures CanonicalAtom(parts[i]) == Some(atoms[i]) && MadeOf(atoms[i], t, AMP)
      ensures Plain('&') !in TokensOf(atoms[i]) && CanonicalAtom(atoms[i]) == Some(atoms[i])
    {
      assert parts[i] in parts;
      SettledPart(parts[i], t);
      SettledAtom(parts[i]);
      MadeOfPart(atoms[i], parts[i], t, {}, AMP);
    }
  }

  lemma PartsAreParts(printed: seq<string>, t: string, glue: set<char>, c: char)
    requires forall p <- printed :: MadeOf(p, t, glue) && Plain(c) !in TokensOf(p)
    ensures forall p <- printed :: Part(p, c)
  {
  }

  /** Joining such parts makes a text of the same stuff, and splitting it gives them back. */
  lemma JoinedParts(printed: seq<string>, t: string, glue: set<char>, left: string, c: char, right: string, g: string)
    requires printed != [] && forall p <- printed :: MadeOf(p, t, glue) && Plain(c) !in TokensOf(p)
    requires AllBlank(left) && AllBlank(right) && !Space(c) && !Quote(c) && !Opener(c)
    requires g == right + [c] + left && Glue(g) && CharsIn(g, glue)
    ensures MadeOf(Join(printed, g), t, glue) && Split(Join(printed, g), [c]) == Some(printed)
  {
    JoinMadeOf(printed, g, t, glue);
    PartsAreParts(printed, t, glue, c);
    SplitJoined(printed, left, c, right);
  }

  lemma JoinedAtoms(atoms: seq<string>, t: string)
    requires atoms != [] && forall p <- atoms :: MadeOf(p, t, AMP) && Plain('&') !in TokensOf(p)
    ensures MadeOf(Join(atoms, " & "), t, AMP) && Split(Join(atoms, " & "), "&") == Some(atoms)
  {
    assert " & " == " " + ['&'] + " ";
    JoinedParts(atoms, t, AMP, " ", '&', " ", " & ");
  }

  /** An intersection of settled atoms prints stably. */
  lemma StableIntersection(t: string)
    requires Fit(t) && AllSettled(TokensOf(t)) && Split(t, "&").Some? && Split(t, "&").value != []
    ensures CanonicalIntersection(t).Some?
    ensures var p := CanonicalIntersection(t).value; MadeOf(p, t, AMP) && CanonicalIntersection(p) == Some(p)
  {
    var atoms := StableAtoms(t);
    IntersectionIsAtoms(t);
    EachPrinted(Split(t, "&").value, Atoms(), atoms);
    JoinedAtoms(atoms, t);
    IntersectionIsAtoms(Join(atoms, " & "));
    EachPrinted(atoms, Atoms(), atoms);
  }

  // ---------- sorting twice ----------

  predicate Sorted(s: seq<string>) {
    forall i, j :: 0 <= i < j < |s| ==> AtMost(s[i], s[j])
  }

  lemma {:induction false} InsertFacts(x: string, s: seq<string>)
    ensures |Insert(x, s)| == |s| + 1 && forall y :: y in Insert(x, s) <==> y == x || y in s
    decreases |s|
  {
    if s != [] { InsertFacts(x, s[1..]); }
  }

  lemma {:induction false} SortFacts(s: seq<string>)
    ensures |Sort(s)| == |s| && forall y :: y in Sort(s) <==> y in s
    decreases |s|
  {
    if s != [] {
      SortFacts(s[1..]);
      InsertFacts(s[0], Sort(s[1..]));
    }
  }

  lemma {:induction false} InsertSorted(x: string, s: seq<string>)
    requires Sorted(s)
    ensures Sorted(Insert(x, s))
    decreases |s|
  {
    if s != [] {
      AtMostTotal(x, s[0]);
      if AtMost(x, s[0]) {
        forall y | y in s
          ensures AtMost(x, y)
        {
          if y != s[0] { AtMostTransitive(x, s[0], y); }
        }
      } else {
        InsertSorted(x, s[1..]);
        InsertFacts(x, s[1..]);
        forall y | y in Insert(x, s[1..])
          ensures AtMost(s[0], y)
        {
          assert y != x ==> y in s[1..];
        }
      }
    }
  }

  lemma {:induction false} SortSorts(s: seq<string>)
    ensures Sorted(Sort(s))
    decreases |s|
  {
    if s != [] {
      SortSorts(s[1..]);
      InsertSorted(s[0], Sort(s[1..]));
    }
  }

  /** A beginning of the other text, or smaller at the first character in which they differ. */
  ghost predicate Alphabetical(a: string, b: string) {
    a <= b || exists k: nat :: k < |a| && k < |b| && a[..k] == b[..k] && a[k] < b[k]
  }

  lemma {:induction false} AtMostIsAlphabetical(a: string, b: string)
    requires AtMost(a, b)
    ensures Alphabetical(a, b)
    decreases |a|
  {
    if a != "" && a[0] == b[0] {
      AtMostIsAlphabetical(a[1..], b[1..]);
      assert a == [a[0]] + a[1..] && b == [b[0]] + b[1..];
      if k: nat :| k < |a[1..]| && k < |b[1..]| && a[1..][..k] == b[1..][..k] && a[1..][k] < b[1..][k] {
        assert a[..k + 1] == [a[0]] + a[1..][..k] && b[..k + 1] == [b[0]] + b[1..][..k];
        assert a[k + 1] < b[k + 1];
      }
    } else if a != "" {
      assert a[..0] == b[..0];
    }
  }

  lemma {:induction false} InsertCounts(x: string, s: seq<string>)
    ensures multiset(Insert(x, s)) == multiset{x} + multiset(s)
    decreases |s|
  {
    if s != [] && !AtMost(x, s[0]) {
      InsertCounts(x, s[1..]);
      assert s == [s[0]] + s[1..];
    }
  }

  lemma {:induction false} SortCounts(s: seq<string>)
    ensures multiset(Sort(s)) == multiset(s)
    decreases |s|
  {
    if s != [] {
      SortCounts(s[1..]);
      InsertCounts(s[0], Sort(s[1..]));
      assert s == [s[0]] + s[1..];
    }
  }

  /** Sorting puts the same texts in alphabetical order, by character code. */
  lemma SortIsAlphabetical(s: seq<string>)
    ensures multiset(Sort(s)) == multiset(s)
    ensures forall i, j :: 0 <= i < j < |Sort(s)| ==> Alphabetical(Sort(s)[i], Sort(s)[j])
  {
    SortCounts(s);
    SortSorts(s);
    forall i, j | 0 <= i < j < |Sort(s)|
      ensures Alphabetical(Sort(s)[i], Sort(s)[j])
    {
      AtMostIsAlphabetical(Sort(s)[i], Sort(s)[j]);
    }
  }

  lemma {:induction false} SortedIsFixed(s: seq<string>)
    requires Sorted(s)
    ensures Sort(s) == s
    decreases |s|
  {
    if s != [] {
      SortedIsFixed(s[1..]);
      assert s == [s[0]] + s[1..];
    }
  }

  // ---------- unions ----------

  /** Every member has operands, and a single operand has no `&` beside it. */
  ghost predicate MemberShape(m: string) {
    Split(m, "&").Some? && Split(m, "&").value != [] && (|Split(m, "&").value| == 1 ==> Plain('&') !in TokensOf(m))
  }

  ghost predicate UnionShape(t: string) {
    Split(t, "|").Some? && Split(t, "|").value != [] && forall m <- Split(t, "|").value :: MemberShape(m)
  }

  function Intersections(): string -> Option<string> { (member: string) => CanonicalIntersection(member) }

  lemma UnionIsIntersections(t: string)
    requires Split(t, "|").Some?
    ensures CanonicalUnion(t) ==
      match AllSome(Mapped(Split(t, "|").value, Intersections())) case None => None case Some(printed) => Some(Join(Sort(printed), " | "))
  {
    var members := Split(t, "|").value;
    assert Mapped(members, Intersections()) == seq(|members|, i requires 0 <= i < |members| => CanonicalIntersection(members[i]));
  }

  lemma StableMember(m: string, t: string)
    requires PartOf(m, t) && AllSettled(TokensOf(t)) && Plain('|') !in TokensOf(m) && MemberShape(m)
    ensures CanonicalIntersection(m).Some?
    ensures var p := CanonicalIntersection(m).value;
            MadeOf(p, t, BAR) && Plain('|') !in TokensOf(p) && CanonicalIntersection(p) == Some(p)
  {
    SettledPart(m, t);
    StableIntersection(m);
    MadeOfPart(CanonicalIntersection(m).value, m, t, AMP, BAR);
  }

  lemma StableMembers(t: string) returns (printed: seq<string>)
    requires Fit(t) && AllSettled(TokensOf(t)) && UnionShape(t)
    ensures StableParts(Split(t, "|").value, Intersections(), printed, t, BAR, '|')
  {
    SplitLacks(t, '|');
    var members := Split(t, "|").value;
    printed := seq(|members|, i requires 0 <= i < |members| => CanonicalIntersection(members[i]).GetOr(""));
    forall i | 0 <= i < |members|
      ensures CanonicalIntersection(members[i]) == Some(printed[i]) && MadeOf(printed[i], t, BAR)
      ensures Plain('|') !in TokensOf(printed[i]) && CanonicalIntersection(printed[i]) == Some(printed[i])
    {
      assert members[i] in members;
      StableMember(members[i], t);
    }
  }

  lemma JoinedMembers(members: seq<string>, t: string)
    requires members != [] && forall p <- members :: MadeOf(p, t, BAR) && Plain('|') !in TokensOf(p)
    ensures MadeOf(Join(members, " | "), t, BAR) && Split(Join(members, " | "), "|") == Some(members)
  {
    assert " | " == " " + ['|'] + " ";
    JoinedParts(members, t, BAR, " ", '|', " ", " | ");
  }

  lemma SortedMembers(printed: seq<string>, t: string)
    requires printed != []
    requires forall p <- printed :: MadeOf(p, t, BAR) && Plain('|') !in TokensOf(p) && CanonicalIntersection(p) == Some(p)
    ensures var p := Join(Sort(printed), " | ");
            MadeOf(p, t, BAR) && Split(p, "|") == Some(Sort(printed)) && CanonicalUnion(p) == Some(p)
  {
    var sorted := Sort(printed);
    SortFacts(printed);
    JoinedMembers(sorted, t);
    UnionIsIntersections(Join(sorted, " | "));
    EachPrinted(sorted, Intersections(), sorted);
    assert Sort(sorted) == sorted by {
      SortSorts(printed);
      SortedIsFixed(sorted);
    }
  }

  /** A union prints as its printed members, sorted, and that prints as itself. */
  lemma StableUnion(t: string) returns (printed: seq<string>)
    requires Fit(t) && AllSettled(TokensOf(t)) && UnionShape(t)
    ensures CanonicalUnion(t) == Some(Join(Sort(printed), " | "))
    ensures StableParts(Split(t, "|").value, Intersections(), printed, t, BAR, '|')
    ensures var p := CanonicalUnion(t).value;
            MadeOf(p, t, BAR) && CanonicalUnion(p) == Some(p) && Split(p, "|") == Some(Sort(printed))
  {
    printed := StableMembers(t);
    UnionIsIntersections(t);
    EachPrinted(Split(t, "|").value, Intersections(), printed);
    SortedMembers(printed, t);
  }

  // ---------- types ----------

  predicate NoArrow(t: string) {
    Free(TokensOf(t), "=>")
  }

  /** Conditional, function or union; function results in turn. */
  ghost predicate TypeShape(t: string)
    decreases NonSpace(t)
  {
    && Fit(t) && Split(t, " extends ").Some? && Split(t, "=>").Some?
    && (|Split(t, " extends ").value| > 1 ||
        (&& NoExtends(TokensOf(t))
         && if |Split(t, "=>").value| > 1
            then (TailWeight(t, "=>"); TypeShape(Join(Split(t, "=>").value[1..], "=>")))
            else NoArrow(t) && UnionShape(t)))
  }

  lemma FreeOfExtends(xs: seq<Token>)
    requires NoExtends(xs)
    ensures Free(xs, " extends ")
  {
    forall k | 0 <= k < |xs|
      ensures !Occurs(xs[k..], " extends ")
    {
      if Occurs(xs[k..], " extends ") {
        ExtendsStands(xs, k);
        assert false;
      }
    }
  }

  lemma ExtendsStands(xs: seq<Token>, k: nat)
    requires k < |xs| && Occurs(xs[k..], " extends ")
    ensures k + 1 < |xs| && StandsAt(xs, k + 1)
  {
    var word := " extends ";
    assert word[1..8] == EXTENDS && |word| == 9 && |EXTENDS| == 7;
    forall i | 0 <= i < 9
      ensures xs[k + i] == Plain(word[i])
    {
      assert xs[k..][i] == xs[k + i];
    }
    forall i | 0 <= i < 7
      ensures xs[k + 1..][i] == Plain(EXTENDS[i])
    {
      assert word[1..8][i] == word[i + 1] && xs[k + 1..][i] == xs[k + (i + 1)];
    }
    assert xs[k] == Plain(' ') && xs[k + 8] == Plain(' ');
  }

  lemma NotConditional(t: string)
    requires Fit(t) && NoExtends(TokensOf(t))
    ensures Split(t, " extends ") == Some([t])
  {
    FreeOfExtends(TokensOf(t));
    OnePart(t, " extends ");
  }

  lemma HeadTokens(a: string, pad: string, sep: string, rest: string)
    requires Fit(a) && AllBlank(pad) && Separator(sep) && Tokens(rest).Some?
    ensures var xs := TokensOf(a) + Plains(pad);
      && Flat(xs) == a + pad
      && Tokens(a + pad + sep + rest) == Some(xs + Plains(sep) + TokensOf(rest))
  {
    var xs := TokensOf(a) + Plains(pad);
    TokensAreText(a);
    FlatPlains(pad);
    FlatPlains(sep);
    FlatAppend(TokensOf(a), Plains(pad));
    FlatAppend(xs, Plains(sep));
    BlankClosed(pad);
    TokensOfClosed(xs + Plains(sep), rest);
  }

  lemma TrimPad(a: string, pad: string)
    requires AllBlank(pad) && a != "" && Trim(a) == a
    ensures Trim(a + pad) == a
  {
    TrimPadded("", a, pad);
    assert "" + a + pad == a + pad;
  }

  /** The next part of a split, when nothing is cut inside it. */
  lemma SplitHead(a: string, pad: string, sep: string, rest: string)
    requires Fit(a) && AllBlank(pad) && Separator(sep) && Tokens(rest).Some?
    requires Uncut(TokensOf(a) + Plains(pad), Plains(sep), sep)
    ensures Split(a + pad + sep + rest, sep) == Some([a] + Split(rest, sep).value)
  {
    var xs, ys := TokensOf(a) + Plains(pad), TokensOf(rest);
    var all := a + pad + sep + rest;
    assert Flat(xs) == a + pad && RawPieces(all, sep) == Some(Texts(Pieces(xs + Plains(sep) + ys, sep))) by {
      HeadTokens(a, pad, sep, rest);
    }
    assert Pieces(xs + Plains(sep) + ys, sep) == [xs] + Pieces(ys, sep) by { PiecesAfterUncut(xs, sep, ys); }
    TrimPad(a, pad);
    KeptFirst(xs, Pieces(ys, sep));
  }

  lemma BlankClosed(pad: string)
    requires AllBlank(pad)
    ensures AllClosed(Plains(pad))
  {
    BlankTokens(pad, '=');
  }

  lemma PiecesAfterUncut(xs: seq<Token>, sep: string, ys: seq<Token>)
    requires sep != "" && Uncut(xs, Plains(sep), sep)
    ensures Pieces(xs + Plains(sep) + ys, sep) == [xs] + Pieces(ys, sep)
  {
    var ps := Pieces(ys, sep);
    PiecesDivide(ys, sep);
    assert ([xs] + ps)[1..] == ps;
    assert Divides([xs] + ps, xs + Plains(sep) + ys, sep);
    DivisionIsUnique([xs] + ps, xs + Plains(sep) + ys, sep);
  }

  /** Leading blanks do not matter to a split. */
  lemma SplitLead(rest: string, sep: string)
    requires Separator(sep) && sep[0] != ' ' && Tokens(rest).Some?
    ensures Split(" " + rest, sep) == Split(rest, sep)
  {
    var ys := TokensOf(rest);
    assert (" " + rest)[1..] == rest;
    assert Tokens(" " + rest) == Some([Plain(' ')] + ys);
    var xs := [Plain(' ')] + ys;
    assert xs[1..] == ys && !Occurs(xs, sep);
    var ps := Pieces(ys, sep);
    var qs := Pieces(xs, sep);
    assert qs == [[Plain(' ')] + ps[0]] + ps[1..];
    assert ([Plain(' ')] + ps[0])[1..] == ps[0];
    assert Texts(qs)[0] == " " + Texts(ps)[0];
    assert Texts(qs)[1..] == Texts(ps)[1..];
    TrimLeftPad(" ", Texts(ps)[0]);
  }

  lemma OneResult(t: string)
    requires Fit(t) && NoArrow(t)
    ensures Split(t, "=>") == Some([t])
  {
    OnePart(t, "=>");
  }

  lemma UncutArrow(xs: seq<Token>, pad: string)
    requires Free(xs, "=>") && AllBlank(pad)
    ensures Uncut(xs + Plains(pad), Plains("=>"), "=>")
  {
    var all := xs + Plains(pad);
    forall k | 0 <= k < |all|
      ensures !Occurs(all[k..] + Plains("=>"), "=>")
    {
      var rest := all[k..] + Plains("=>");
      assert rest[0] == all[k] && rest[1] == if k + 1 < |all| then all[k + 1] else Plain('=');
      if k + 1 < |xs| {
        assert !Occurs(xs[k..], "=>") && xs[k..][0] == xs[k] && xs[k..][1] == xs[k + 1];
      } else if k + 1 < |all| {
        assert pad[k + 1 - |xs|] in pad;
      }
    }
  }

  /** The parts of a function type as printed: its parameters, then those of its result. */
  lemma SplitArrow(a: string, r: string)
    requires Fit(a) && NoArrow(a) && Fit(r)
    ensures Split(a + " => " + r, "=>").Some? && Split(r, "=>").Some?
    ensures Split(a + " => " + r, "=>").value == [a] + Split(r, "=>").value
  {
    UncutArrow(TokensOf(a), " ");
    TokensAreText(r);
    assert Tokens(" " + r).Some? by { assert (" " + r)[1..] == r; }
    SplitHead(a, " ", "=>", " " + r);
    SplitLead(r, "=>");
    assert a + " " + "=>" + (" " + r) == a + " => " + r;
  }

  lemma SplitTight(a: string, rest: string)
    requires Fit(a) && NoArrow(a) && Tokens(rest).Some?
    ensures Split(a + "=>" + rest, "=>") == Some([a] + Split(rest, "=>").value)
  {
    UncutArrow(TokensOf(a), "");
    SplitHead(a, "", "=>", rest);
    assert a + "" == a;
  }

  /** Parts joined tightly by arrows split into themselves. */
  lemma {:induction false} SplitArrows(parts: seq<string>)
    requires parts != [] && forall part <- parts :: Fit(part) && NoArrow(part)
    ensures Split(Join(parts, "=>"), "=>") == Some(parts)
    decreases |parts|
  {
    if |parts| == 1 {
      OneResult(parts[0]);
      assert parts == [parts[0]];
    } else {
      SplitArrows(parts[1..]);
      SplitTight(parts[0], Join(parts[1..], "=>"));
      assert parts == [parts[0]] + parts[1..];
    }
  }

  /** Parts of a split by arrows have no arrow left. */
  lemma SplitFreeOfArrow(t: string)
    requires Tokens(t).Some? && AllClosed(TokensOf(t)) && Neat(TokensOf(t))
    ensures Split(t, "=>").Some? && forall part <- Split(t, "=>").value :: PartOf(part, t) && NoArrow(part)
  {
    var xs := TokensOf(t);
    SplitParts(t, "=>");
    PiecesDivide(xs, "=>");
    PiecesInherit(Pieces(xs, "=>"), "=>");
    var ps := Pieces(xs, "=>");
    AllUncutFree(ps, "=>");
    KeptFree(ps);
  }

  lemma {:induction false} KeptFree(ps: seq<seq<Token>>)
    requires forall p <- ps :: AllClosed(p) && Free(p, "=>")
    ensures forall part <- TrimmedNonEmpty(Texts(ps)) :: NoArrow(part)
    decreases |ps|
  {
    if ps != [] {
      KeptFree(ps[1..]);
      assert Texts(ps)[1..] == Texts(ps[1..]);
      var p := ps[0];
      assert p in ps;
      TrimTokens(p);
      TokensOfFlat(Stripped(p));
      StrippedInherits(p);
    }
  }

  lemma {:induction false} AllUncutFree(ps: seq<seq<Token>>, sep: string)
    requires AllUncut(ps, sep)
    ensures forall p <- ps :: Free(p, sep)
    decreases |ps|
  {
    if ps != [] {
      AllUncutFree(ps[1..], sep);
      forall k | 0 <= k < |ps[0]|
        ensures !Occurs(ps[0][k..], sep)
      {
        OccursIsLocal(ps[0][k..], Next(ps, sep), sep);
      }
    }
  }

  // ---------- types print stably ----------

  lemma {:induction false} JoinSettled(parts: seq<string>, g: string)
    requires parts != [] && (forall part <- parts :: Fit(part) && AllSettled(TokensOf(part))) && Glue(g)
    ensures Fit(Join(parts, g)) && AllSettled(TokensOf(Join(parts, g)))
    decreases |parts|
  {
    if |parts| > 1 {
      JoinSettled(parts[1..], g);
      GluedTokens(parts[0], g, Join(parts[1..], g));
    }
  }

  lemma ArrowGlue()
    ensures Glue("=>") && CharsIn("=>", ARROW) && Glue(" => ") && CharsIn(" => ", TYPE_GLUE)
  {
  }

  /** Parts of a text, joined tightly by arrows: made of the text, and split into the same parts. */
  lemma SqueezedParts(parts: seq<string>, t: string)
    requires parts != [] && forall part <- parts :: PartOf(part, t) && NoArrow(part)
    ensures MadeOf(Join(parts, "=>"), t, ARROW) && Split(Join(parts, "=>"), "=>") == Some(parts)
    ensures AllSettled(TokensOf(t)) ==> AllSettled(TokensOf(Join(parts, "=>")))
  {
    ArrowGlue();
    forall part | part in parts
      ensures MadeOf(part, t, ARROW)
    {
    }
    JoinMadeOf(parts, "=>", t, ARROW);
    SplitArrows(parts);
    if AllSettled(TokensOf(t)) { JoinSettled(parts, "=>"); }
  }

  ghost predicate StableResult(t: string, p: string)
    requires Split(t, " extends ").Some? && Split(t, "=>").Some?
  {
    && MadeOf(p, t, TYPE_GLUE) && CanonicalType(p) == Some(p)
    && if |Split(t, " extends ").value| > 1 then Similar(t, p)
       else if |Split(t, "=>").value| > 1 then Split(p, "=>").Some? && |Split(p, "=>").value| > 1
       else NoArrow(p) && CanonicalUnion(t) == Some(p)
  }

  lemma StableConditional(t: string)
    requires Fit(t) && AllSettled(TokensOf(t)) && Split(t, " extends ").Some? && Split(t, "=>").Some?
    requires |Split(t, " extends ").value| > 1
    ensures CanonicalType(t).Some? && StableResult(t, CanonicalType(t).value)
  {
    SettledAtom(t);
    SimilarType(t, CanonicalAtom(t).value);
  }

  lemma PlainType(t: string)
    requires Fit(t) && NoExtends(TokensOf(t)) && NoArrow(t)
    ensures Split(t, " extends ") == Some([t]) && Split(t, "=>") == Some([t]) && CanonicalType(t) == CanonicalUnion(t)
  {
    NotConditional(t);
    OneResult(t);
  }

  lemma UnionText(p: string, t: string)
    requires MadeOf(p, t, BAR)
    ensures MadeOf(p, t, TYPE_GLUE) && (NoArrow(t) ==> NoArrow(p))
  {
  }

  lemma StableUnionType(t: string)
    requires Fit(t) && AllSettled(TokensOf(t)) && NoExtends(TokensOf(t)) && NoArrow(t) && UnionShape(t)
    ensures Split(t, " extends ") == Some([t]) && Split(t, "=>") == Some([t])
    ensures CanonicalType(t).Some? && StableResult(t, CanonicalType(t).value)
  {
    var printed := StableUnion(t);
    var p := CanonicalUnion(t).value;
    UnionText(p, t);
    PlainType(t);
    PlainType(p);
  }

  /** A type whose arrows are squeezed prints the same. */
  lemma SqueezedType(r: string)
    requires Fit(r) && NoExtends(TokensOf(r)) && Split(r, "=>").Some? && (NoArrow(r) || |Split(r, "=>").value| > 1)
    ensures Split(r, "=>").value != [] && CanonicalType(Join(Split(r, "=>").value, "=>")) == CanonicalType(r)
  {
    var parts := Split(r, "=>").value;
    if NoArrow(r) {
      OneResult(r);
    } else {
      SplitFreeOfArrow(r);
      SqueezedParts(parts, r);
      NotConditional(r);
      NotConditional(Join(parts, "=>"));
      SameArrows(r, Join(parts, "=>"));
    }
  }

  lemma SameArrows(t: string, u: string)
    requires Split(t, " extends ") == Some([t]) && Split(u, " extends ") == Some([u])
    requires Split(t, "=>") == Split(u, "=>") && Split(t, "=>").Some? && |Split(t, "=>").value| > 1
    ensures CanonicalType(t) == CanonicalType(u)
  {
  }

  lemma FunctionType(t: string, a: string, ret: string, r: string)
    requires Split(t, " extends ") == Some([t]) && Split(t, "=>").Some? && |Split(t, "=>").value| > 1
    requires CanonicalAtom(Split(t, "=>").value[0]) == Some(a) && ret == Join(Split(t, "=>").value[1..], "=>")
    requires CanonicalType(ret) == Some(r)
    ensures CanonicalType(t) == Some(a + " => " + r)
  {
  }

  lemma {:induction false} StableType(t: string)
    requires TypeShape(t) && AllSettled(TokensOf(t))
    ensures CanonicalType(t).Some? && StableResult(t, CanonicalType(t).value)
    decreases NonSpace(t)
  {
    if |Split(t, " extends ").value| > 1 {
      StableConditional(t);
    } else if |Split(t, "=>").value| <= 1 {
      StableUnionType(t);
    } else {
      TailWeight(t, "=>");
      FunctionParts(t);
      StableType(Join(Split(t, "=>").value[1..], "=>"));
      StableFunction(t);
    }
  }

  /** The parameters and the result of a function type. */
  lemma FunctionParts(t: string)
    requires Fit(t) && AllSettled(TokensOf(t)) && NoExtends(TokensOf(t))
    requires Split(t, "=>").Some? && |Split(t, "=>").value| > 1
    ensures var parts := Split(t, "=>").value;
            var ret := Join(parts[1..], "=>");
      && PartOf(parts[0], t) && NoArrow(parts[0]) && AllSettled(TokensOf(parts[0]))
      && MadeOf(ret, t, ARROW) && AllSettled(TokensOf(ret)) && Split(ret, " extends ") == Some([ret]) && Split(ret, "=>").Some?
  {
    var parts := Split(t, "=>").value;
    SplitFreeOfArrow(t);
    SqueezedParts(parts[1..], t);
    NotConditional(Join(parts[1..], "=>"));
    SettledPart(parts[0], t);
  }

  lemma AtomOfPart(part: string, t: string) returns (a: string)
    requires PartOf(part, t) && AllSettled(TokensOf(part)) && NoArrow(part)
    ensures CanonicalAtom(part) == Some(a) && CanonicalAtom(a) == Some(a) && MadeOf(a, t, TYPE_GLUE) && NoArrow(a)
  {
    SettledAtom(part);
    a := CanonicalAtom(part).value;
    MadeOfPart(a, part, t, {}, TYPE_GLUE);
  }

  lemma StableFunction(t: string)
    requires Fit(t) && AllSettled(TokensOf(t)) && NoExtends(TokensOf(t))
    requires Split(t, " extends ").Some? && |Split(t, " extends ").value| <= 1
    requires Split(t, "=>").Some? && |Split(t, "=>").value| > 1
    requires var ret := Join(Split(t, "=>").value[1..], "=>");
             Split(ret, " extends ") == Some([ret]) && Split(ret, "=>").Some?
             && CanonicalType(ret).Some? && StableResult(ret, CanonicalType(ret).value)
    ensures CanonicalType(t).Some? && StableResult(t, CanonicalType(t).value)
  {
    var parts := Split(t, "=>").value;
    var ret := Join(parts[1..], "=>");
    FunctionParts(t);
    var a := AtomOfPart(parts[0], t);
    var r := CanonicalType(ret).value;
    assert MadeOf(r, t, TYPE_GLUE) by { MadeOfMade(r, ret, t, TYPE_GLUE, ARROW); }
    NotConditional(t);
    FunctionType(t, a, ret, r);
    StableArrow(t, a, r);
  }

  /** Printed parameters and result, put together, are printed as they are. */
  lemma StableArrow(t: string, a: string, r: string)
    requires MadeOf(a, t, TYPE_GLUE) && MadeOf(r, t, TYPE_GLUE) && NoExtends(TokensOf(t)) && NoArrow(a)
    requires CanonicalAtom(a) == Some(a) && CanonicalType(r) == Some(r)
    requires Split(r, "=>").Some? && (NoArrow(r) || |Split(r, "=>").value| > 1)
    ensures var p := a + " => " + r;
            MadeOf(p, t, TYPE_GLUE) && CanonicalType(p) == Some(p) && Split(p, "=>").Some? && |Split(p, "=>").value| > 1
  {
    var p := a + " => " + r;
    ArrowGlue();
    GluedMadeOf(a, " => ", r, t, TYPE_GLUE);
    NotConditional(p);
    SplitArrow(a, r);
    SqueezedType(r);
    var rest := Split(r, "=>").value;
    assert ([a] + rest)[1..] == rest;
    FunctionType(p, a, Join(rest, "=>"), r);
  }
}
