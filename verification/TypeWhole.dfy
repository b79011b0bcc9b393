/**
 Text in which no operand is missing.

 A condition on neighbouring tokens that is enough for the shape of a type, whatever its operators are, and that
 splitting, joining and leaving out undefined keep.
 */
module TypeWhole {
  import opened Wrappers
  import opened TypeScan
  import opened TypeText
  import opened TypeCanon
  import opened TypeStable
  import opened TypeFixpoint

  // ---------- operators and operands ----------

  /** An operand ends before `i`, at most one blank away. */
  predicate Leads(xs: seq<Token>, i: nat) {
    i <= |xs| && ((i >= 1 && !Edge(xs[i - 1])) || (i >= 2 && Blank(xs[i - 1]) && !Edge(xs[i - 2])))
  }

  /** An operand starts from `i`, at most one blank away. */
  predicate Follows(xs: seq<Token>, i: nat) {
    (i < |xs| && !Edge(xs[i])) || (i + 1 < |xs| && Blank(xs[i]) && !Edge(xs[i + 1]))
  }

  predicate Operator(xs: seq<Token>, i: nat)
    requires i < |xs|
  {
    xs[i] == Plain('|') || xs[i] == Plain('&') || (xs[i] == Plain('=') && Arrow(xs, i))
  }

  function Past(xs: seq<Token>, i: nat): nat
    requires i < |xs|
  {
    if xs[i] == Plain('=') then i + 2 else i + 1
  }

  predicate Complete(xs: seq<Token>) {
    forall i :: 0 <= i < |xs| && Operator(xs, i) ==> Leads(xs, i) && Follows(xs, Past(xs, i))
  }

  /** Complete, but for blanks around it. */
  predicate Padded(xs: seq<Token>) {
    Complete(xs) && Follows(xs, 0) && Leads(xs, |xs|)
  }

  predicate Whole(xs: seq<Token>) {
    Complete(xs) && xs != [] && !Edge(xs[0]) && !Edge(xs[|xs| - 1])
  }

  // ---------- cutting ----------

  predicate CutWithin(xs: seq<Token>, a: nat, b: nat) {
    CutAt(xs, a, b) && (a > 1 ==> !Blank(xs[a - 1]))
  }

  lemma SliceLeads(xs: seq<Token>, a: nat, b: nat, i: nat)
    requires CutWithin(xs, a, b) && a + i <= b && Leads(xs, a + i)
    ensures Leads(xs[a..b], i)
  {
    var p := xs[a..b];
    assert forall k :: 0 <= k < |p| ==> p[k] == xs[a + k];
  }

  lemma SliceFollows(xs: seq<Token>, a: nat, b: nat, i: nat)
    requires CutWithin(xs, a, b) && a + i <= b && Follows(xs, a + i)
    ensures Follows(xs[a..b], i)
  {
    var p := xs[a..b];
    assert forall k :: 0 <= k < |p| ==> p[k] == xs[a + k];
  }

  lemma SliceOperator(xs: seq<Token>, a: nat, b: nat, i: nat)
    requires a <= b <= |xs| && i < b - a && Operator(xs[a..b], i)
    ensures Operator(xs, a + i) && Past(xs, a + i) == a + Past(xs[a..b], i) <= b
  {
  }

  lemma SliceComplete(xs: seq<Token>, a: nat, b: nat)
    requires CutWithin(xs, a, b) && Complete(xs)
    ensures Complete(xs[a..b])
  {
    var p := xs[a..b];
    forall i | 0 <= i < |p| && Operator(p, i)
      ensures Leads(p, i) && Follows(p, Past(p, i))
    {
      SliceOperator(xs, a, b, i);
      SliceLeads(xs, a, b, i);
      SliceFollows(xs, a, b, Past(p, i));
    }
  }

  /** Cut at an operator, both sides are complete. */
  lemma CutPadded(p: seq<Token>, sep: string, rest: seq<Token>)
    requires sep == "|" || sep == "&" || sep == "=>"
    requires Padded(p + Plains(sep) + rest)
    ensures Padded(p) && Padded(rest)
  {
    var xs := p + Plains(sep) + rest;
    var b := |p| + |sep|;
    assert xs[|p|] == Plain(sep[0]) && xs[b - 1] == Plain(sep[|sep| - 1]);
    assert Operator(xs, |p|) && Past(xs, |p|) == b;
    assert xs[0..|p|] == p && xs[b..|xs|] == rest;
    SliceComplete(xs, 0, |p|);
    SliceComplete(xs, b, |xs|);
  }

  lemma {:induction false} PiecesPadded(ps: seq<seq<Token>>, sep: string)
    requires sep == "|" || sep == "&" || sep == "=>"
    requires ps != [] && Padded(Joined(ps, sep))
    ensures forall p <- ps :: Padded(p)
    decreases |ps|
  {
    if |ps| == 1 {
      assert Joined(ps, sep) == ps[0];
    } else {
      CutPadded(ps[0], sep, Joined(ps[1..], sep));
      PiecesPadded(ps[1..], sep);
    }
  }

  lemma StripLeft(p: seq<Token>)
    requires Padded(p)
    ensures Padded(DropLeft(p)) && DropLeft(p) != [] && !Edge(DropLeft(p)[0])
  {
    if Blank(p[0]) {
      SliceComplete(p, 1, |p|);
      assert p[1..|p|] == p[1..];
      assert DropLeft(p) == p[1..];
    }
  }

  lemma StripRight(p: seq<Token>)
    requires Padded(p) && p != [] && !Edge(p[0])
    ensures Whole(DropRight(p))
  {
    var n := |p| - 1;
    if Blank(p[n]) {
      SliceComplete(p, 0, n);
      assert p[0..n] == p[..n];
      assert DropRight(p) == p[..n];
    }
  }

  lemma StrippedWhole(p: seq<Token>)
    requires Padded(p)
    ensures Whole(Stripped(p))
  {
    StripLeft(p);
    StripRight(DropLeft(p));
  }

  lemma {:induction false} KeptWhole(ps: seq<seq<Token>>)
    requires forall p <- ps :: AllClosed(p) && Padded(p)
    ensures |TrimmedNonEmpty(Texts(ps))| == |ps|
    ensures forall part <- TrimmedNonEmpty(Texts(ps)) :: Whole(TokensOf(part))
    decreases |ps|
  {
    if ps != [] {
      KeptWhole(ps[1..]);
      assert Texts(ps)[1..] == Texts(ps[1..]);
      var p := ps[0];
      assert p in ps;
      StrippedWhole(p);
      TrimTokens(p);
      TokensOfFlat(Stripped(p));
    }
  }

  lemma OperatorsAreSafe()
    ensures Safe("|") && Safe("&") && Safe("=>")
  {
  }

  /** Every operand of the operator is a whole part, and there is one more of them than of the operator. */
  lemma SplitWhole(t: string, sep: string)
    requires sep == "|" || sep == "&" || sep == "=>"
    requires Fit(t) && Whole(TokensOf(t))
    ensures Split(t, sep).Some? && |Split(t, sep).value| == |Pieces(TokensOf(t), sep)|
    ensures forall part <- Split(t, sep).value :: PartOf(part, t) && Whole(TokensOf(part))
  {
    var ps := Pieces(TokensOf(t), sep);
    OperatorsAreSafe();
    SplitParts(t, sep);
    PiecesDivide(TokensOf(t), sep);
    PiecesInherit(ps, sep);
    PiecesPadded(ps, sep);
    KeptWhole(ps);
  }

  // ---------- joining ----------

  /** Operators in the glue are at most one blank from its ends. */
  predicate Between(g: string) {
    var xs := Plains(g);
    forall i :: 0 <= i < |g| && Operator(xs, i) ==>
      && (i == 0 || (i == 1 && g[0] == ' '))
      && (Past(xs, i) == |g| || (Past(xs, i) + 1 == |g| && g[|g| - 1] == ' '))
  }

  lemma CompleteGlued(xs: seq<Token>, g: string, ys: seq<Token>)
    requires Whole(xs) && Whole(ys) && Between(g) && Pure(Plains(g))
    ensures Whole(xs + Plains(g) + ys)
  {
    var all := xs + Plains(g) + ys;
    forall i | 0 <= i < |all| && Operator(all, i)
      ensures Leads(all, i) && Follows(all, Past(all, i))
    {
      if i < |xs| {
        assert Operator(xs, i);
      } else if i < |xs| + |g| {
        assert Operator(Plains(g), i - |xs|);
      } else {
        assert Operator(ys, i - |xs| - |g|);
        assert Leads(ys, i - |xs| - |g|) && Follows(ys, Past(ys, i - |xs| - |g|));
      }
    }
  }

  lemma {:induction false} JoinWhole(parts: seq<string>, g: string)
    requires parts != [] && (forall part <- parts :: Fit(part) && Whole(TokensOf(part))) && Glue(g) && Between(g)
    ensures Fit(Join(parts, g)) && Whole(TokensOf(Join(parts, g)))
    decreases |parts|
  {
    if |parts| > 1 {
      JoinWhole(parts[1..], g);
      GluedTokens(parts[0], g, Join(parts[1..], g));
      CompleteGlued(TokensOf(parts[0]), g, TokensOf(Join(parts[1..], g)));
    }
  }

  // ---------- the shape of a type ----------

  lemma OnePieceLeft(xs: seq<Token>, sep: string)
    requires sep != "" && |Pieces(xs, sep)| == 1
    ensures Pieces(xs, sep) == [xs] && Free(xs, sep)
  {
    var ps := Pieces(xs, sep);
    PiecesDivide(xs, sep);
    assert ps == [ps[0]] && Joined(ps, sep) == ps[0];
    AllUncutFree(ps, sep);
  }

  lemma WholeMember(m: string)
    requires Fit(m) && Whole(TokensOf(m))
    ensures MemberShape(m)
  {
    var xs := TokensOf(m);
    SplitWhole(m, "&");
    if |Pieces(xs, "&")| == 1 {
      OnePieceLeft(xs, "&");
      PiecesLack(xs, '&');
      assert xs in Pieces(xs, "&");
    }
  }

  lemma WholeUnion(t: string)
    requires Fit(t) && Whole(TokensOf(t))
    ensures UnionShape(t)
  {
    SplitWhole(t, "|");
    forall m | m in Split(t, "|").value
      ensures MemberShape(m)
    {
      WholeMember(m);
    }
  }

  lemma ArrowBetween()
    ensures Between("=>") && Glue("=>")
  {
    ArrowGlue();
    var xs := Plains("=>");
    assert xs[0] == Plain('=') && xs[1] == Plain('>');
  }

  /** Whole text without a stray `extends` has the shape of a type. */
  lemma {:induction false} WholeType(t: string)
    requires Fit(t) && Whole(TokensOf(t)) && NoExtends(TokensOf(t))
    ensures TypeShape(t)
    decreases NonSpace(t)
  {
    NotConditional(t);
    SplitWhole(t, "=>");
    var parts := Split(t, "=>").value;
    if |parts| > 1 {
      TailWeight(t, "=>");
      var ret := Join(parts[1..], "=>");
      SplitFreeOfArrow(t);
      SqueezedParts(parts[1..], t);
      ArrowBetween();
      JoinWhole(parts[1..], "=>");
      WholeType(ret);
    } else {
      OnePieceLeft(TokensOf(t), "=>");
      WholeUnion(t);
    }
  }

  // ---------- conditional types ----------

  const CLAUSE := " extends "

  /** ` extends ` at `k`, between operands. */
  predicate ExtendsAt(xs: seq<Token>, k: nat) {
    && 0 < k && k + |CLAUSE| < |xs| && Occurs(xs[k..], CLAUSE)
    && !Edge(xs[k - 1]) && !Edge(xs[k + |CLAUSE|])
  }

  ghost predicate HasExtends(xs: seq<Token>) {
    exists k: nat :: ExtendsAt(xs, k)
  }

  lemma ExtendsAround(a: seq<Token>, xs: seq<Token>, b: seq<Token>)
    requires HasExtends(xs)
    ensures HasExtends(a + xs + b)
  {
    var k: nat :| ExtendsAt(xs, k);
    var all := a + xs + b;
    assert all[|a| + k..] == xs[k..] + b;
    OccursIsLocal(xs[k..], b, CLAUSE);
    assert ExtendsAt(all, |a| + k);
  }

  lemma ExtendsMade(xs: seq<Token>, ys: seq<Token>)
    requires xs != [] && !Edge(xs[|xs| - 1]) && ys != [] && !Edge(ys[0])
    ensures HasExtends(xs + Plains(CLAUSE) + ys)
  {
    var all := xs + Plains(CLAUSE) + ys;
    assert all[|xs|..] == Plains(CLAUSE) + ys;
    OccursIsLocal(Plains(CLAUSE), ys, CLAUSE);
    assert ExtendsAt(all, |xs|);
  }

  lemma SliceExtends(xs: seq<Token>, a: nat, b: nat, k: nat)
    requires ExtendsAt(xs, k) && a < k && k + |CLAUSE| < b <= |xs|
    ensures HasExtends(xs[a..b])
  {
    var p := xs[a..b];
    assert xs[k..] == p[k - a..] + xs[b..];
    OccursIsLocal(p[k - a..], xs[b..], CLAUSE);
    assert ExtendsAt(p, k - a);
  }

  lemma {:induction false} DropLeftExtends(xs: seq<Token>)
    requires HasExtends(xs)
    ensures HasExtends(DropLeft(xs))
    decreases |xs|
  {
    if Blank(xs[0]) {
      var k: nat :| ExtendsAt(xs, k);
      SliceExtends(xs, 1, |xs|, k);
      assert xs[1..|xs|] == xs[1..];
      DropLeftExtends(xs[1..]);
    }
  }

  lemma BlankAfterExtends(xs: seq<Token>)
    requires HasExtends(xs) && Blank(xs[|xs| - 1])
    ensures HasExtends(xs[..|xs| - 1])
  {
    var n := |xs| - 1;
    var k: nat :| ExtendsAt(xs, k);
    SliceExtends(xs, 0, n, k);
    assert xs[0..n] == xs[..n];
  }

  lemma {:induction false} DropRightExtends(xs: seq<Token>)
    requires HasExtends(xs)
    ensures HasExtends(DropRight(xs))
    decreases |xs|
  {
    if Blank(xs[|xs| - 1]) {
      BlankAfterExtends(xs);
      DropRightExtends(xs[..|xs| - 1]);
    }
  }

  lemma NoBarInClause()
    ensures forall c <- "|" :: c !in CLAUSE
  {
    assert forall c <- CLAUSE :: c != '|';
  }

  lemma ExtendsOnOneSide(p: seq<Token>, rest: seq<Token>, k: nat)
    requires ExtendsAt(p + Plains("|") + rest, k)
    ensures (0 < k && k + |CLAUSE| < |p|) || k > |p| + 1
  {
    var xs := p + Plains("|") + rest;
    NoBarInClause();
    OccursBesideGlue(p, "|", rest, k, CLAUSE);
    assert xs[|p|] == Plain('|');
  }

  lemma ExtendsLeft(p: seq<Token>, sep: string, rest: seq<Token>, k: nat)
    requires ExtendsAt(p + Plains(sep) + rest, k) && 0 < k && k + |CLAUSE| < |p|
    ensures HasExtends(p)
  {
    var xs := p + Plains(sep) + rest;
    SliceExtends(xs, 0, |p|, k);
    assert xs[0..|p|] == p;
  }

  lemma ExtendsRight(p: seq<Token>, sep: string, rest: seq<Token>, k: nat)
    requires ExtendsAt(p + Plains(sep) + rest, k) && k > |p| + |sep|
    ensures HasExtends(rest)
  {
    var xs := p + Plains(sep) + rest;
    SliceExtends(xs, |p| + |sep|, |xs|, k);
    assert xs[|p| + |sep|..|xs|] == rest;
  }

  lemma CutExtends(p: seq<Token>, rest: seq<Token>)
    requires HasExtends(p + Plains("|") + rest)
    ensures HasExtends(p) || HasExtends(rest)
  {
    var k: nat :| ExtendsAt(p + Plains("|") + rest, k);
    ExtendsOnOneSide(p, rest, k);
    if k < |p| { ExtendsLeft(p, "|", rest, k); } else { ExtendsRight(p, "|", rest, k); }
  }

  lemma {:induction false} PiecesExtends(ps: seq<seq<Token>>) returns (i: nat)
    requires ps != [] && HasExtends(Joined(ps, "|"))
    ensures i < |ps| && HasExtends(ps[i])
    decreases |ps|
  {
    i := 0;
    if |ps| == 1 {
      assert Joined(ps, "|") == ps[0];
    } else if !HasExtends(ps[0]) {
      CutExtends(ps[0], Joined(ps[1..], "|"));
      var j := PiecesExtends(ps[1..]);
      i := j + 1;
    }
  }

  lemma {:induction false} KeptPiece(ps: seq<seq<Token>>, i: nat)
    requires i < |ps| && AllClosed(ps[i]) && HasExtends(ps[i])
    ensures exists part <- TrimmedNonEmpty(Texts(ps)) :: Tokens(part).Some? && HasExtends(TokensOf(part))
    decreases |ps|
  {
    assert Texts(ps)[1..] == Texts(ps[1..]);
    if i > 0 {
      KeptPiece(ps[1..], i - 1);
    } else {
      DropLeftExtends(ps[0]);
      DropRightExtends(DropLeft(ps[0]));
      TrimTokens(ps[0]);
      TokensOfFlat(Stripped(ps[0]));
      assert Trim(Flat(ps[0])) in TrimmedNonEmpty(Texts(ps));
    }
  }

  /** A member of the union carries the `extends` of the whole text. */
  lemma SplitExtends(t: string) returns (m: string)
    requires Fit(t) && HasExtends(TokensOf(t))
    ensures Split(t, "|").Some? && m in Split(t, "|").value && HasExtends(TokensOf(m))
  {
    var ps := Pieces(TokensOf(t), "|");
    PiecesDivide(TokensOf(t), "|");
    OperatorsAreSafe();
    PiecesInherit(ps, "|");
    var i := PiecesExtends(ps);
    assert ps[i] in ps;
    KeptPiece(ps, i);
    m :| m in Split(t, "|").value && HasExtends(TokensOf(m));
  }

  lemma GluedExtends(a: string, g: string, b: string)
    requires Fit(a) && Fit(b) && Link(g) && (HasExtends(TokensOf(a)) || HasExtends(TokensOf(b)))
    ensures HasExtends(TokensOf(a + g + b))
  {
    var xs, ys := TokensOf(a), TokensOf(b);
    assert TokensOf(a + g + b) == xs + Plains(g) + ys by { GluedTokens(a, g, b); }
    if HasExtends(xs) {
      ExtendsAround([], xs, Plains(g) + ys);
      assert [] + xs + (Plains(g) + ys) == xs + Plains(g) + ys;
    } else {
      ExtendsAround(xs + Plains(g), ys, []);
      assert xs + Plains(g) + ys + [] == xs + Plains(g) + ys;
    }
  }

  lemma {:induction false} JoinExtends(parts: seq<string>, m: string, g: string)
    requires m in parts && (forall part <- parts :: Fit(part)) && HasExtends(TokensOf(m)) && Glue(g)
    ensures HasExtends(TokensOf(Join(parts, g)))
    decreases |parts|
  {
    if |parts| > 1 {
      JoinFit(parts[1..], g);
      if m != parts[0] { JoinExtends(parts[1..], m, g); }
      GluedExtends(parts[0], g, Join(parts[1..], g));
    }
  }

  lemma {:induction false} JoinFit(parts: seq<string>, g: string)
    requires parts != [] && (forall part <- parts :: Fit(part)) && Glue(g)
    ensures Fit(Join(parts, g))
    decreases |parts|
  {
    if |parts| > 1 {
      JoinFit(parts[1..], g);
      GluedTokens(parts[0], g, Join(parts[1..], g));
    }
  }

  lemma LastOf(p: seq<Token>, sep: string, rest: seq<Token>)
    requires sep != ""
    ensures var xs := p + Plains(sep) + rest;
            xs[|xs| - 1] == if rest == [] then Plain(sep[|sep| - 1]) else rest[|rest| - 1]
  {
  }

  lemma {:induction false} LastPieceEnds(ps: seq<seq<Token>>, xs: seq<Token>, sep: string)
    requires ps != [] && sep != "" && Joined(ps, sep) == xs && xs != [] && xs[|xs| - 1] != Plain(sep[|sep| - 1])
    ensures var p := ps[|ps| - 1]; p != [] && p[|p| - 1] == xs[|xs| - 1]
    decreases |ps|
  {
    if |ps| == 1 {
      assert xs == ps[0];
    } else {
      var rest := Joined(ps[1..], sep);
      LastOf(ps[0], sep, rest);
      assert xs == ps[0] + Plains(sep) + rest;
      LastPieceEnds(ps[1..], rest, sep);
    }
  }

  lemma {:induction false} KeptLast(ps: seq<seq<Token>>)
    requires ps != [] && AllClosed(ps[|ps| - 1])
    requires var p := ps[|ps| - 1]; p != [] && !Blank(p[|p| - 1])
    ensures TrimmedNonEmpty(Texts(ps)) != []
    decreases |ps|
  {
    assert Texts(ps)[1..] == Texts(ps[1..]);
    if |ps| > 1 {
      KeptLast(ps[1..]);
    } else {
      LastBlank(ps[0]);
      NonSpaceLast(Flat(ps[0]));
      NonSpaceTrim(Flat(ps[0]));
    }
  }

  lemma NonSpaceLast(s: string)
    requires s != "" && !Space(s[|s| - 1])
    ensures NonSpace(s) > 0
  {
    assert s == s[..|s| - 1] + [s[|s| - 1]];
    NonSpaceAppend(s[..|s| - 1], [s[|s| - 1]]);
  }

  lemma ExtendsCuts(xs: seq<Token>)
    requires HasExtends(xs)
    ensures |Pieces(xs, CLAUSE)| > 1
  {
    var k: nat :| ExtendsAt(xs, k);
    if |Pieces(xs, CLAUSE)| == 1 { OnePieceLeft(xs, CLAUSE); }
  }

  lemma FirstPieceStarts(ps: seq<seq<Token>>, xs: seq<Token>, sep: string)
    requires ps != [] && sep != "" && Joined(ps, sep) == xs && xs != [] && xs[0] != Plain(sep[0])
    ensures ps[0] != [] && ps[0][0] == xs[0]
  {
    if |ps| == 1 {
      assert xs == ps[0];
    } else {
      assert xs == ps[0] + Plains(sep) + Joined(ps[1..], sep);
      assert Plains(sep)[0] == Plain(sep[0]);
    }
  }

  lemma EndPieces(xs: seq<Token>, ps: seq<seq<Token>>)
    requires AllClosed(xs) && xs != [] && !Blank(xs[0]) && !Blank(xs[|xs| - 1]) && ps == Pieces(xs, CLAUSE) && |ps| > 1
    ensures AllClosed(ps[0]) && ps[0] != [] && !Blank(ps[0][0])
    ensures var p := ps[|ps| - 1]; AllClosed(p) && p != [] && !Blank(p[|p| - 1])
  {
    PiecesDivide(xs, CLAUSE);
    FirstPieceStarts(ps, xs, CLAUSE);
    LastPieceEnds(ps, xs, CLAUSE);
    PiecesTokens(xs, CLAUSE);
    assert ps[0] in ps && ps[|ps| - 1] in ps;
  }

  lemma {:induction false} TwoKept(ps: seq<seq<Token>>)
    requires |ps| > 1 && AllClosed(ps[0]) && ps[0] != [] && !Blank(ps[0][0])
    requires var p := ps[|ps| - 1]; AllClosed(p) && p != [] && !Blank(p[|p| - 1])
    ensures |TrimmedNonEmpty(Texts(ps))| > 1
  {
    KeptLast(ps[1..]);
    FirstCharacter(ps[0]);
    TrimmedStart(Flat(ps[0]));
    KeptFirst(ps[0], ps[1..]);
    assert ps == [ps[0]] + ps[1..];
  }

  lemma ExtendsSplits(xs: seq<Token>)
    requires AllClosed(xs) && xs != [] && !Blank(xs[0]) && !Blank(xs[|xs| - 1]) && HasExtends(xs)
    ensures |TrimmedNonEmpty(Texts(Pieces(xs, CLAUSE)))| > 1
  {
    ExtendsCuts(xs);
    EndPieces(xs, Pieces(xs, CLAUSE));
    TwoKept(Pieces(xs, CLAUSE));
  }

  lemma ManyClauses(t: string)
    requires Tokens(t).Some? && |TrimmedNonEmpty(Texts(Pieces(TokensOf(t), CLAUSE)))| > 1
    ensures Conditional(t)
  {
  }

  /** A text with `extends` between operands is read as a conditional type. */
  lemma ExtendsIsConditional(t: string)
    requires Fit(t) && HasExtends(TokensOf(t))
    ensures Conditional(t)
  {
    FitStart(t);
    FitEnd(t);
    ExtendsSplits(TokensOf(t));
    ManyClauses(t);
  }

  lemma TrimmedStart(s: string)
    requires s != "" && !Space(s[0])
    ensures Trim(s) != ""
  {
    NonSpaceTrimRight(s);
  }

  // ---------- without implied undefined ----------

  /** A type as far as its tokens tell: conditional, or without a stray `extends`. */
  ghost predicate Decided(xs: seq<Token>) {
    NoExtends(xs) || HasExtends(xs)
  }

  lemma WholeShape(t: string)
    requires Fit(t) && Whole(TokensOf(t)) && Decided(TokensOf(t))
    ensures TypeShape(t)
  {
    if NoExtends(TokensOf(t)) {
      WholeType(t);
    } else {
      ExtendsIsConditional(t);
      assert Split(t, "=>").Some?;
    }
  }

  lemma NoWordHas(m: string)
    requires HasExtends(TokensOf(m))
    ensures m != UNDEFINED
  {
    if m == UNDEFINED {
      UndefinedIsCode();
      CodeTokens(m);
      assert false;
    }
  }

  lemma BarBetween()
    ensures Between(" | ") && Glue(" | ") && CharsIn(" | ", BAR)
  {
    ColonGlue();
    var xs := Plains(" | ");
    assert xs[0] == Plain(' ') && xs[1] == Plain('|') && xs[2] == Plain(' ');
  }

  /** What is left of a whole value is whole. */
  lemma LeftOverWhole(key: string, v: string)
    requires Fit(v) && Whole(TokensOf(v)) && Decided(TokensOf(v)) && Tight(TokensOf(v))
    ensures WithoutImpliedUndefined(key, v).Some?
    ensures var w := WithoutImpliedUndefined(key, v).value; TypeShape(w) && Tight(TokensOf(w))
  {
    SplitWhole(v, "|");
    var members := Split(v, "|").value;
    var w := WithoutImpliedUndefined(key, v).value;
    if w == v {
      WholeShape(v);
    } else {
      DefinedFacts(members);
      DefinedWhole(v);
    }
  }

  lemma DefinedWhole(v: string)
    requires Fit(v) && Whole(TokensOf(v)) && Decided(TokensOf(v)) && Tight(TokensOf(v))
    requires Split(v, "|").Some? && Defined(Split(v, "|").value) != []
    ensures var w := Join(Defined(Split(v, "|").value), " | "); TypeShape(w) && Tight(TokensOf(w))
  {
    var members := Split(v, "|").value;
    var w := Join(Defined(members), " | ");
    assert Fit(w) && Whole(TokensOf(w)) by {
      SplitWhole(v, "|");
      DefinedFacts(members);
      BarBetween();
      JoinWhole(Defined(members), " | ");
    }
    assert Tight(TokensOf(w)) && (NoExtends(TokensOf(v)) ==> NoExtends(TokensOf(w))) by {
      DefinedMadeOf(v);
      BarHasNoColon();
    }
    if HasExtends(TokensOf(v)) { DefinedExtends(v); }
    WholeShape(w);
  }

  lemma BarHasNoColon()
    ensures ':' !in BAR
  {
  }

  lemma DefinedExtends(v: string)
    requires Fit(v) && Whole(TokensOf(v)) && HasExtends(TokensOf(v)) && Split(v, "|").Some?
    ensures HasExtends(TokensOf(Join(Defined(Split(v, "|").value), " | ")))
  {
    var members := Split(v, "|").value;
    var m := SplitExtends(v);
    NoWordHas(m);
    DefinedStays(members, m);
    SplitWhole(v, "|");
    DefinedFacts(members);
    BarBetween();
    JoinExtends(Defined(members), m, " | ");
  }

  lemma {:induction false} DefinedStays(s: seq<string>, m: string)
    requires m in s && m != UNDEFINED
    ensures m in Defined(s)
    decreases |s|
  {
    if m != s[0] { DefinedStays(s[1..], m); }
  }
}
