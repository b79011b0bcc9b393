/**
 Rewrites that the canonical form ignores: the order of an object's members, the order of a union's operands
 outside conditional types, and whether an optional member says `undefined`, anywhere in a declaration.

 The operands of a union are what stands between its bars; `TypeHead` says where that is not the order of its types.

 Each predicate says how a text may differ from another at one level, in terms of how both split.
 */
module TypeRewrite {
  import opened Wrappers
  import opened TypeScan
  import opened TypeText
  import opened TypeCanon
  import opened TypeStable
  import opened TypeFixpoint

  // ---------- types ----------

  /** A union in another order, here or in the result of a function. */
  ghost predicate RewrittenType(t: string, u: string)
    decreases NonSpace(t)
  {
    && Tokens(t).Some? && Tokens(u).Some? && !Conditional(t) && !Conditional(u)
    && var ps, qs := Split(t, "=>").value, Split(u, "=>").value;
       if |ps| <= 1 && |qs| <= 1 then multiset(Split(t, "|").value) == multiset(Split(u, "|").value)
       else
         |ps| > 1 && |qs| > 1 && ps[0] == qs[0]
         && (TailWeight(t, "=>"); RewrittenType(Join(ps[1..], "=>"), Join(qs[1..], "=>")))
  }

  lemma SameResult(t: string, u: string, ps: seq<string>, qs: seq<string>)
    requires Split(t, "=>") == Some(ps) && Split(u, "=>") == Some(qs) && |ps| > 1 && |qs| > 1 && ps[0] == qs[0]
    requires Split(t, " extends ").Some? && Split(u, " extends ").Some? && !Conditional(t) && !Conditional(u)
    requires CanonicalType(Join(ps[1..], "=>")) == CanonicalType(Join(qs[1..], "=>"))
    ensures CanonicalType(t) == CanonicalType(u)
  {
  }

  lemma SameUnion(t: string, u: string)
    requires Tokens(t).Some? && Tokens(u).Some? && !Conditional(t) && !Conditional(u)
    requires |Split(t, "=>").value| <= 1 && |Split(u, "=>").value| <= 1
    requires multiset(Split(t, "|").value) == multiset(Split(u, "|").value)
    ensures CanonicalType(t) == CanonicalType(u)
  {
    UnionForgetsOrder(t, u);
  }

  lemma {:induction false} RewrittenTypePrints(t: string, u: string)
    requires RewrittenType(t, u)
    ensures CanonicalType(t) == CanonicalType(u)
    decreases NonSpace(t)
  {
    var ps, qs := Split(t, "=>").value, Split(u, "=>").value;
    if |ps| <= 1 && |qs| <= 1 {
      SameUnion(t, u);
    } else {
      TailWeight(t, "=>");
      RewrittenTypePrints(Join(ps[1..], "=>"), Join(qs[1..], "=>"));
      SameResult(t, u, ps, qs);
    }
  }

  // ---------- members ----------

  /** The union of an optional member, apart from its order and from undefined. */
  ghost predicate RewrittenUnion(v: string, w: string) {
    && Tokens(v).Some? && AllClosed(TokensOf(v)) && Tokens(w).Some? && AllClosed(TokensOf(w))
    && |Split(v, "=>").value| <= 1 && |Split(w, "=>").value| <= 1
    && var ms, ns := Defined(Split(v, "|").value), Defined(Split(w, "|").value);
       ms != [] && multiset(ms) == multiset(ns) && PlainUnion(Join(ms, " | ")) && PlainUnion(Join(ns, " | "))
  }

  ghost predicate RewrittenValue(key: string, v: string, w: string) {
    if Optional(key) && Tokens(v).Some? && |Split(v, "=>").value| <= 1 then RewrittenUnion(v, w)
    else RewrittenType(v, w)
  }

  ghost predicate RewrittenMember(m: string, n: string) {
    && Tokens(m).Some? && Tokens(n).Some?
    && var ps, qs := Split(m, ":").value, Split(n, ":").value;
       if |ps| == 1 then |qs| == 1 && RewrittenType(ps[0], qs[0])
       else |ps| > 1 && |qs| > 1 && ps[0] == qs[0] && RewrittenValue(ps[0], Join(ps[1..], ":"), Join(qs[1..], ":"))
  }

  lemma {:induction false} KeptClosed(ps: seq<seq<Token>>, c: char)
    requires forall p <- ps :: AllClosed(p) && Plain(c) !in p
    ensures forall part <- TrimmedNonEmpty(Texts(ps)) :: Part(part, c)
    decreases |ps|
  {
    if ps != [] {
      KeptClosed(ps[1..], c);
      assert Texts(ps)[1..] == Texts(ps[1..]);
      var p := ps[0];
      assert p in ps;
      TrimTokens(p);
      TokensOfFlat(Stripped(p));
      StrippedInherits(p);
      TrimTwice(Flat(p));
    }
  }

  lemma SplitGivesParts(t: string, c: char)
    requires Tokens(t).Some? && AllClosed(TokensOf(t)) && Safe([c])
    ensures Split(t, [c]).Some? && forall part <- Split(t, [c]).value :: Part(part, c)
  {
    PiecesDivide(TokensOf(t), [c]);
    PiecesInherit(Pieces(TokensOf(t), [c]), [c]);
    PiecesLack(TokensOf(t), c);
    KeptClosed(Pieces(TokensOf(t), [c]), c);
  }

  lemma BarGlue()
    ensures " | " == " " + ['|'] + " " && "|" == "" + ['|'] + ""
  {
  }

  lemma DefinedSplits(v: string)
    requires Tokens(v).Some? && AllClosed(TokensOf(v))
    ensures Split(Join(Defined(Split(v, "|").value), " | "), "|") == Some(Defined(Split(v, "|").value))
  {
    SplitGivesParts(v, '|');
    var members := Split(v, "|").value;
    DefinedFacts(members);
    assert forall m <- Defined(members) :: m in members;
    BarGlue();
    SplitJoined(Defined(members), " ", '|', " ");
  }

  lemma RewrittenUnionPrints(key: string, v: string, w: string)
    requires RewrittenUnion(v, w) && Optional(key)
    ensures WithoutImpliedUndefined(key, v).Some? && WithoutImpliedUndefined(key, w).Some?
    ensures CanonicalType(WithoutImpliedUndefined(key, v).value) == CanonicalType(WithoutImpliedUndefined(key, w).value)
  {
    var ms, ns := Defined(Split(v, "|").value), Defined(Split(w, "|").value);
    assert ns != [] by { if ns == [] { NoElements(ms); } }
    OptionalLeaves(key, v);
    OptionalLeaves(key, w);
    DefinedSplits(v);
    DefinedSplits(w);
    UnionForgetsOrder(Join(ms, " | "), Join(ns, " | "));
  }

  /** What is left of an optional member's union: its members other than undefined, in order, unless that is none of them. */
  lemma DropsExactlyUndefined(key: string, v: string)
    requires Optional(key) && Tokens(v).Some? && AllClosed(TokensOf(v)) && |Split(v, "=>").value| <= 1
    ensures var members, w := Split(v, "|").value, WithoutImpliedUndefined(key, v);
      && w.Some? && Split(w.value, "|") == Some(if forall m <- members :: m == UNDEFINED then members else Defined(members))
      && forall m :: m in Defined(members) <==> m in members && m != UNDEFINED
  {
    var members := Split(v, "|").value;
    DefinedFacts(members);
    DefinedKeeps(members);
    if Defined(members) != [] {
      OptionalLeaves(key, v);
      DefinedSplits(v);
    }
  }

  lemma {:induction false} DefinedKeeps(s: seq<string>)
    ensures forall x <- s :: x != UNDEFINED ==> x in Defined(s)
    decreases |s|
  {
    if s != [] { DefinedKeeps(s[1..]); }
  }

  lemma OptionalLeaves(key: string, v: string)
    requires Optional(key) && Tokens(v).Some? && |Split(v, "=>").value| <= 1 && Defined(Split(v, "|").value) != []
    ensures WithoutImpliedUndefined(key, v) == Some(Join(Defined(Split(v, "|").value), " | "))
  {
  }

  lemma ValueKept(key: string, v: string)
    requires !Optional(key) || (Tokens(v).Some? && |Split(v, "=>").value| > 1)
    ensures WithoutImpliedUndefined(key, v) == Some(v)
  {
  }

  lemma RewrittenMemberPrints(m: string, n: string)
    requires RewrittenMember(m, n)
    ensures CanonicalMember(m) == CanonicalMember(n)
  {
    var ps, qs := Split(m, ":").value, Split(n, ":").value;
    if |ps| == 1 {
      RewrittenTypePrints(ps[0], qs[0]);
    } else {
      var key, v, w := ps[0], Join(ps[1..], ":"), Join(qs[1..], ":");
      RewrittenValuePrints(key, v, w);
      SameValue(m, n, ps, qs, WithoutImpliedUndefined(key, v).value, WithoutImpliedUndefined(key, w).value);
    }
  }

  lemma SameValue(m: string, n: string, ps: seq<string>, qs: seq<string>, v: string, w: string)
    requires Split(m, ":") == Some(ps) && Split(n, ":") == Some(qs) && |ps| > 1 && |qs| > 1 && ps[0] == qs[0]
    requires WithoutImpliedUndefined(ps[0], Join(ps[1..], ":")) == Some(v)
    requires WithoutImpliedUndefined(qs[0], Join(qs[1..], ":")) == Some(w)
    requires CanonicalType(v) == CanonicalType(w)
    ensures CanonicalMember(m) == CanonicalMember(n)
  {
  }

  lemma RewrittenValuePrints(key: string, v: string, w: string)
    requires RewrittenValue(key, v, w)
    ensures WithoutImpliedUndefined(key, v).Some? && WithoutImpliedUndefined(key, w).Some?
    ensures CanonicalType(WithoutImpliedUndefined(key, v).value) == CanonicalType(WithoutImpliedUndefined(key, w).value)
  {
    if Optional(key) && Tokens(v).Some? && |Split(v, "=>").value| <= 1 {
      RewrittenUnionPrints(key, v, w);
    } else {
      ValueKept(key, v);
      ValueKept(key, w);
      RewrittenTypePrints(v, w);
    }
  }

  // ---------- groups, statements, declarations ----------

  ghost predicate RewrittenPart(open: char, p: string, q: string) {
    p == q || if open == '<' then RewrittenType(p, q) else RewrittenMember(p, q)
  }

  /** The members of an object in another order, or parts rewritten in place. */
  ghost predicate RewrittenGroup(open: char, t: string, u: string) {
    && Tokens(t).Some? && Tokens(u).Some?
    && var ps, qs := Split(t, SeparatorIn(open)).value, Split(u, SeparatorIn(open)).value;
       || (open == '{' && multiset(ps) == multiset(qs))
       || (|ps| == |qs| && forall i :: 0 <= i < |ps| ==> RewrittenPart(open, ps[i], qs[i]))
  }

  lemma RewrittenGroupPrints(open: char, t: string, u: string)
    requires RewrittenGroup(open, t, u)
    ensures CanonicalGroup(open, t) == CanonicalGroup(open, u)
  {
    var ps, qs := Split(t, SeparatorIn(open)).value, Split(u, SeparatorIn(open)).value;
    if open == '{' && multiset(ps) == multiset(qs) {
      ObjectForgetsOrder(t, u);
    } else {
      GroupIsParts(open, t);
      GroupIsParts(open, u);
      forall i | 0 <= i < |ps|
        ensures PrintPart(open, ps[i]) == PrintPart(open, qs[i])
      {
        RewrittenPartPrints(open, ps[i], qs[i]);
      }
      var printer := (part: string) => PrintPart(open, part);
      assert Mapped(ps, printer) == Mapped(qs, printer);
    }
  }

  lemma RewrittenPartPrints(open: char, p: string, q: string)
    requires RewrittenPart(open, p, q)
    ensures PrintPart(open, p) == PrintPart(open, q)
  {
    if p != q {
      if open == '<' { RewrittenTypePrints(p, q); } else { RewrittenMemberPrints(p, q); }
    }
  }

  ghost predicate RewrittenStatement(s: string, r: string) {
    && Tokens(s).Some? && Tokens(r).Some?
    && var ps, qs := Split(s, " = ").value, Split(r, " = ").value;
       if |ps| <= 1 then |qs| <= 1 && RewrittenMember(s, r)
       else |qs| > 1 && ps[0] == qs[0] && RewrittenType(Join(ps[1..], " = "), Join(qs[1..], " = "))
  }

  lemma RewrittenStatementPrints(s: string, r: string)
    requires RewrittenStatement(s, r)
    ensures CanonicalStatement(s) == CanonicalStatement(r)
  {
    var ps, qs := Split(s, " = ").value, Split(r, " = ").value;
    if |ps| <= 1 {
      RewrittenMemberPrints(s, r);
    } else {
      RewrittenTypePrints(Join(ps[1..], " = "), Join(qs[1..], " = "));
    }
  }

  /** Statements rewritten at their top level. */
  ghost predicate RewrittenAtTop(d: string, e: string) {
    && Tokens(d).Some? && Tokens(e).Some?
    && var ps, qs := Split(d, ";").value, Split(e, ";").value;
       |ps| == |qs| && forall i :: 0 <= i < |ps| ==> ps[i] == qs[i] || RewrittenStatement(ps[i], qs[i])
  }

  /** One bracket group, at any depth, rewritten. */
  ghost predicate RewrittenInside(c: Context, open: char, xs: seq<Token>, ys: seq<Token>, d: string, e: string) {
    && Opener(open) && WellFormed(xs) && WellFormed(ys) && RewrittenGroup(open, Flat(xs), Flat(ys))
    && Fits(c, [Group(open, xs)]) && d == Flat(Fill(c, [Group(open, xs)]))
    && Fits(c, [Group(open, ys)]) && e == Flat(Fill(c, [Group(open, ys)]))
  }

  lemma TopRewriteIgnored(d: string, e: string)
    requires RewrittenAtTop(d, e)
    ensures CanonicalDeclaration(d) == CanonicalDeclaration(e)
  {
    var ps, qs := Split(d, ";").value, Split(e, ";").value;
    forall i | 0 <= i < |ps|
      ensures CanonicalStatement(ps[i]) == CanonicalStatement(qs[i])
    {
      if ps[i] != qs[i] { RewrittenStatementPrints(ps[i], qs[i]); }
    }
    assert seq(|ps|, i requires 0 <= i < |ps| => CanonicalStatement(ps[i]))
        == seq(|qs|, i requires 0 <= i < |qs| => CanonicalStatement(qs[i]));
  }

  lemma DeepRewriteIgnored(c: Context, open: char, xs: seq<Token>, ys: seq<Token>, d: string, e: string)
    requires RewrittenInside(c, open, xs, ys, d, e)
    ensures CanonicalDeclaration(d) == CanonicalDeclaration(e)
  {
    RewrittenGroupPrints(open, Flat(xs), Flat(ys));
    IgnoredAtAnyDepth(c, open, xs, ys, Group(open, xs), Group(open, ys));
  }

  /** A union, an object or an optional member rewritten anywhere leaves the canonical declaration unchanged. */
  lemma RewritesIgnored(d: string, e: string)
    requires RewrittenAtTop(d, e) || exists c, open, xs, ys :: RewrittenInside(c, open, xs, ys, d, e)
    ensures CanonicalDeclaration(d) == CanonicalDeclaration(e)
  {
    if RewrittenAtTop(d, e) {
      TopRewriteIgnored(d, e);
    } else {
      var c, open, xs, ys :| RewrittenInside(c, open, xs, ys, d, e);
      DeepRewriteIgnored(c, open, xs, ys, d, e);
    }
  }

  // ---------- the promises, on lists of members ----------

  /** The order of an object's members, at any depth of any declaration. */
  lemma MemberOrderIgnored(c: Context, xs: seq<Token>, ys: seq<Token>, d: string, e: string)
    requires WellFormed(xs) && WellFormed(ys) && Split(Flat(xs), ";").Some? && Split(Flat(ys), ";").Some?
    requires multiset(Split(Flat(xs), ";").value) == multiset(Split(Flat(ys), ";").value)
    requires Fits(c, [Group('{', xs)]) && d == Flat(Fill(c, [Group('{', xs)]))
    requires Fits(c, [Group('{', ys)]) && e == Flat(Fill(c, [Group('{', ys)]))
    ensures CanonicalDeclaration(d) == CanonicalDeclaration(e)
  {
    DeepRewriteIgnored(c, '{', xs, ys, d, e);
  }

  /** Members of a union in another order are a rewritten type. */
  lemma ReorderedUnion(ms: seq<string>, ns: seq<string>, t: string, u: string)
    requires multiset(ms) == multiset(ns) && forall m <- ms :: Part(m, '|')
    requires t == Join(ms, " | ") && u == Join(ns, " | ") && PlainUnion(t) && PlainUnion(u)
    ensures RewrittenType(t, u)
  {
    forall n | n in ns
      ensures Part(n, '|')
    {
      assert n in multiset(ns);
    }
    BarGlue();
    SplitJoined(ms, " ", '|', " ");
    SplitJoined(ns, " ", '|', " ");
  }

  /** So is a function whose result is such a union. */
  lemma ReorderedResult(a: string, t: string, u: string)
    requires RewrittenType(t, u) && Fit(a) && NoArrow(a) && Fit(t) && NoArrow(t) && Fit(u) && NoArrow(u)
    requires NoExtends(TokensOf(a)) && NoExtends(TokensOf(t)) && NoExtends(TokensOf(u))
    ensures RewrittenType(a + " => " + t, a + " => " + u)
  {
    FunctionText(a, t);
    FunctionText(a, u);
    assert [a, t][1..] == [t] && [a, u][1..] == [u];
    assert Join([t], "=>") == t && Join([u], "=>") == u;
  }

  lemma FunctionText(a: string, t: string)
    requires Fit(a) && NoArrow(a) && Fit(t) && NoArrow(t) && NoExtends(TokensOf(a)) && NoExtends(TokensOf(t))
    ensures Split(a + " => " + t, "=>") == Some([a, t]) && Split(a + " => " + t, " extends ") == Some([a + " => " + t])
  {
    ArrowGlue();
    GluedTokens(a, " => ", t);
    NoExtendsAcrossGlue(TokensOf(a), " => ", TokensOf(t));
    NotConditional(a + " => " + t);
    SplitArrow(a, t);
    OneResult(t);
    assert [a] + [t] == [a, t];
  }

  /** Such a union as the type of an alias. */
  lemma AliasOrderIgnored(head: string, ms: seq<string>, ns: seq<string>, t: string, u: string, d: string, e: string)
    requires multiset(ms) == multiset(ns) && forall m <- ms :: Part(m, '|')
    requires t == Join(ms, " | ") && u == Join(ns, " | ") && PlainUnion(t) && PlainUnion(u)
    requires Split(d, ";") == Some([d]) && Split(e, ";") == Some([e])
    requires Split(d, " = ") == Some([head, t]) && Split(e, " = ") == Some([head, u])
    ensures CanonicalDeclaration(d) == CanonicalDeclaration(e)
  {
    ReorderedUnion(ms, ns, t, u);
    assert [head, t][1..] == [t] && [head, u][1..] == [u];
    assert Join([t], " = ") == t && Join([u], " = ") == u;
    assert RewrittenStatement(d, e);
    TopRewriteIgnored(d, e);
  }

  lemma {:induction false} DefinedAround(before: seq<string>, after: seq<string>)
    ensures Defined(before + ["undefined"] + after) == Defined(before + after)
    decreases |before|
  {
    if before == [] {
      var all := before + ["undefined"] + after;
      assert all[0] == "undefined" && all[1..] == after && before + after == after;
    } else {
      DefinedAround(before[1..], after);
      assert (before + ["undefined"] + after)[1..] == before[1..] + ["undefined"] + after;
      assert (before + after)[1..] == before[1..] + after;
    }
  }

  lemma JoinedClosed(ms: seq<string>)
    requires forall m <- ms :: Part(m, '|')
    ensures Tokens(Join(ms, " | ")).Some? && AllClosed(TokensOf(Join(ms, " | "))) && Split(Join(ms, " | "), "|") == Some(ms)
  {
    BarGlue();
    SplitJoined(ms, " ", '|', " ");
    if ms != [] {
      var xs := JoinedTokens(ms, " ", '|', " ", "");
      JoinedTokensText(ms, " ", '|', " ", "");
      TokensOfFlat(xs);
      assert "" + Join(ms, " | ") == Join(ms, " | ");
    }
  }

  /** The union `ms` with undefined written once more, after the first `i` members. */
  function WithUndefined(ms: seq<string>, i: nat): seq<string>
    requires i <= |ms|
  {
    ms[..i] + [UNDEFINED] + ms[i..]
  }

  /** A union that is the type of an optional member, not a function, with a member other than undefined. */
  ghost predicate OptionalType(ms: seq<string>) {
    && (forall m <- ms :: Part(m, '|')) && Defined(ms) != [] && PlainUnion(Join(Defined(ms), " | "))
    && Split(Join(ms, " | "), "=>").Some? && |Split(Join(ms, " | "), "=>").value| <= 1
  }

  lemma UndefinedInserted(key: string, ms: seq<string>, i: nat)
    requires Optional(key) && i <= |ms| && OptionalType(ms) && OptionalType(WithUndefined(ms, i))
    ensures RewrittenValue(key, Join(ms, " | "), Join(WithUndefined(ms, i), " | "))
  {
    JoinedClosed(ms);
    JoinedClosed(WithUndefined(ms, i));
    DefinedAround(ms[..i], ms[i..]);
    assert ms[..i] + ms[i..] == ms;
  }

  lemma UndefinedMember(key: string, ms: seq<string>, i: nat, m: string, n: string)
    requires Optional(key) && i <= |ms| && OptionalType(ms) && OptionalType(WithUndefined(ms, i))
    requires Split(m, ":") == Some([key, Join(ms, " | ")]) && Split(n, ":") == Some([key, Join(WithUndefined(ms, i), " | ")])
    ensures RewrittenMember(m, n)
  {
    UndefinedInserted(key, ms, i);
    var v, w := Join(ms, " | "), Join(WithUndefined(ms, i), " | ");
    assert [key, v][1..] == [v] && [key, w][1..] == [w];
    assert Join([v], ":") == v && Join([w], ":") == w;
  }

  lemma OneMember(t: string, u: string, ps: seq<string>, k: nat, n: string)
    requires Split(t, ";") == Some(ps) && k < |ps| && Split(u, ";") == Some(ps[k := n]) && RewrittenMember(ps[k], n)
    ensures RewrittenGroup('{', t, u)
  {
    forall i | 0 <= i < |ps|
      ensures RewrittenPart('{', ps[i], ps[k := n][i])
    {
    }
  }

  /** Whether undefined is written in an optional member's union that has another member, at any depth. */
  lemma ImpliedUndefinedIgnored(c: Context, key: string, ms: seq<string>, i: nat, ps: seq<string>, k: nat, n: string,
                                xs: seq<Token>, ys: seq<Token>, d: string, e: string)
    requires Optional(key) && i <= |ms| && OptionalType(ms) && OptionalType(WithUndefined(ms, i))
    requires Split(Flat(xs), ";") == Some(ps) && k < |ps| && Split(Flat(ys), ";") == Some(ps[k := n])
    requires Split(ps[k], ":") == Some([key, Join(ms, " | ")])
    requires Split(n, ":") == Some([key, Join(WithUndefined(ms, i), " | ")])
    requires WellFormed(xs) && WellFormed(ys)
    requires Fits(c, [Group('{', xs)]) && d == Flat(Fill(c, [Group('{', xs)]))
    requires Fits(c, [Group('{', ys)]) && e == Flat(Fill(c, [Group('{', ys)]))
    ensures CanonicalDeclaration(d) == CanonicalDeclaration(e)
  {
    UndefinedMember(key, ms, i, ps[k], n);
    OneMember(Flat(xs), Flat(ys), ps, k, n);
    DeepRewriteIgnored(c, '{', xs, ys, d, e);
  }

  // ---------- the measure is not length ----------

  lemma {:induction false} SpacedLength(ms: seq<string>)
    requires ms != []
    ensures |Join(ms, " | ")| == |Join(ms, "|")| + 2 * (|ms| - 1)
    decreases |ms|
  {
    if |ms| > 1 { SpacedLength(ms[1..]); }
  }

  /**
   Plain length is no termination measure: the union of three or more members under a two-character
   optional key is printed from a text longer than the whole member.
   */
  lemma RejoiningLengthens(m: string, key: string, ms: seq<string>)
    requires |key| == 2 && Optional(key) && |ms| >= 3 && (forall x <- ms :: Part(x, '|') && x != UNDEFINED)
    requires m == key + ":" + Join(ms, "|") && Split(m, ":") == Some([key, Join(ms, "|")])
    requires Split(Join(ms, "|"), "=>").Some? && |Split(Join(ms, "|"), "=>").value| <= 1
    ensures var w := WithoutImpliedUndefined(key, Join(ms, "|"));
            w == Some(Join(ms, " | ")) && |w.value| > |m|
  {
    BarGlue();
    SplitJoined(ms, "", '|', "");
    DefinedFacts(ms);
    SpacedLength(ms);
  }
}
