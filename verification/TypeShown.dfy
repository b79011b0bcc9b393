/**
 What the canonical form shows.

 Two texts that differ in one bracket group, which prints differently, have different canonical forms.
 So a difference inside a group is ignored, at any depth, exactly when the group itself ignores it.
 */
module TypeShown {
  import opened Wrappers
  import opened TypeScan
  import opened TypeText
  import opened TypeCanon
  import opened TypeStable
  import opened TypeFixpoint

  // ---------- one group apart ----------

  ghost predicate Differ(x: Token, y: Token) {
    IsGroup(x) && IsGroup(y) && Print(x).Some? && Print(y).Some? && Print(x) != Print(y)
  }

  ghost predicate OffAt(xs: seq<Token>, ys: seq<Token>, i: nat) {
    && |xs| == |ys| && AllClosed(xs) && AllClosed(ys)
    && i < |xs| && Differ(xs[i], ys[i]) && forall j :: 0 <= j < |xs| && j != i ==> xs[j] == ys[j]
  }

  ghost predicate OffTokens(xs: seq<Token>, ys: seq<Token>) {
    exists i: nat :: OffAt(xs, ys, i)
  }

  ghost predicate Off(t: string, u: string) {
    Tokens(t).Some? && Tokens(u).Some? && OffTokens(TokensOf(t), TokensOf(u))
  }

  /** All parts but the `k`-th are the same, and that one is off. */
  ghost predicate OffParts(ts: seq<string>, us: seq<string>, k: nat) {
    |ts| == |us| && k < |ts| && Off(ts[k], us[k]) && forall j :: 0 <= j < |ts| && j != k ==> ts[j] == us[j]
  }

  lemma OffOccurs(xs: seq<Token>, ys: seq<Token>, i: nat, sep: string)
    requires OffAt(xs, ys, i)
    ensures Occurs(xs, sep) == Occurs(ys, sep)
    ensures Occurs(xs, sep) ==> |sep| <= i
  {
    assert forall j :: 0 <= j < |xs| ==> (xs[j].Plain? || ys[j].Plain?) ==> j != i && xs[j] == ys[j];
  }

  lemma OffSlice(xs: seq<Token>, ys: seq<Token>, i: nat, a: nat, b: nat)
    requires OffAt(xs, ys, i) && a <= i < b <= |xs|
    ensures OffAt(xs[a..b], ys[a..b], i - a)
  {
  }

  lemma OffTail(xs: seq<Token>, ys: seq<Token>, i: nat, a: nat)
    requires OffAt(xs, ys, i) && a <= |xs|
    ensures a <= i ==> OffAt(xs[a..], ys[a..], i - a)
    ensures a > i ==> xs[a..] == ys[a..]
  {
  }

  ghost predicate OffPiece(ps: seq<seq<Token>>, qs: seq<seq<Token>>, k: nat) {
    && |ps| == |qs| && k < |ps| && OffTokens(ps[k], qs[k])
    && forall m :: 0 <= m < |ps| && m != k ==> ps[m] == qs[m]
  }

  lemma OffGrows(x: Token, p: seq<Token>, q: seq<Token>, j: nat)
    requires OffAt(p, q, j) && Closed(x)
    ensures OffAt([x] + p, [x] + q, j + 1)
  {
    var xs, ys := [x] + p, [x] + q;
    assert xs[j + 1] == p[j] && ys[j + 1] == q[j];
    forall m | 0 <= m < |xs| && m != j + 1
      ensures xs[m] == ys[m]
    {
      assert m > 0 ==> xs[m] == p[m - 1] && ys[m] == q[m - 1];
    }
  }

  lemma OffStarts(x: Token, y: Token, p: seq<Token>)
    requires Differ(x, y) && Closed(x) && Closed(y) && AllClosed(p)
    ensures OffAt([x] + p, [y] + p, 0)
  {
  }

  lemma OffAfterCut(ps: seq<seq<Token>>, qs: seq<seq<Token>>, k: nat)
    requires OffPiece(ps, qs, k)
    ensures OffPiece([[]] + ps, [[]] + qs, k + 1)
  {
    var a, b := [[]] + ps, [[]] + qs;
    assert a[k + 1] == ps[k] && b[k + 1] == qs[k];
    assert forall m :: 1 <= m < |a| ==> a[m] == ps[m - 1] && b[m] == qs[m - 1];
  }

  lemma OffFirstPiece(x: Token, y: Token, ps: seq<seq<Token>>)
    requires ps != [] && Differ(x, y) && Closed(x) && Closed(y) && AllClosed(ps[0])
    ensures OffPiece([[x] + ps[0]] + ps[1..], [[y] + ps[0]] + ps[1..], 0)
  {
    OffStarts(x, y, ps[0]);
    assert OffTokens([x] + ps[0], [y] + ps[0]);
  }

  lemma OffLaterPiece(x: Token, ps: seq<seq<Token>>, qs: seq<seq<Token>>, k: nat)
    requires OffPiece(ps, qs, k) && Closed(x)
    ensures OffPiece([[x] + ps[0]] + ps[1..], [[x] + qs[0]] + qs[1..], k)
  {
    var a, b := [[x] + ps[0]] + ps[1..], [[x] + qs[0]] + qs[1..];
    if k == 0 {
      var j: nat :| OffAt(ps[0], qs[0], j);
      OffGrows(x, ps[0], qs[0], j);
      assert OffTokens(a[0], b[0]);
    } else {
      assert a[k] == ps[k] && b[k] == qs[k];
    }
  }

  lemma {:induction false} OffPieces(xs: seq<Token>, ys: seq<Token>, i: nat, sep: string) returns (k: nat)
    requires OffAt(xs, ys, i) && sep != ""
    ensures OffPiece(Pieces(xs, sep), Pieces(ys, sep), k)
    decreases |xs|
  {
    OffOccurs(xs, ys, i, sep);
    if Occurs(xs, sep) {
      OffTail(xs, ys, i, |sep|);
      k := OffPieces(xs[|sep|..], ys[|sep|..], i - |sep|, sep);
      OffAfterCut(Pieces(xs[|sep|..], sep), Pieces(ys[|sep|..], sep), k);
      k := k + 1;
    } else {
      OffTail(xs, ys, i, 1);
      if i == 0 {
        k := 0;
        PiecesTokens(xs[1..], sep);
        assert Among(Pieces(xs[1..], sep)[0], xs[1..]);
        OffFirstPiece(xs[0], ys[0], Pieces(xs[1..], sep));
      } else {
        k := OffPieces(xs[1..], ys[1..], i - 1, sep);
        OffLaterPiece(xs[0], Pieces(xs[1..], sep), Pieces(ys[1..], sep), k);
      }
    }
  }

  // ---------- splitting and joining ----------

  lemma {:induction false} OffDropLeft(xs: seq<Token>, ys: seq<Token>, i: nat) returns (j: nat)
    requires OffAt(xs, ys, i)
    ensures OffAt(DropLeft(xs), DropLeft(ys), j)
    decreases |xs|
  {
    j := i;
    if Blank(xs[0]) {
      OffTail(xs, ys, i, 1);
      j := OffDropLeft(xs[1..], ys[1..], i - 1);
    }
  }

  lemma {:induction false} OffDropRight(xs: seq<Token>, ys: seq<Token>, i: nat) returns (j: nat)
    requires OffAt(xs, ys, i)
    ensures OffAt(DropRight(xs), DropRight(ys), j)
    decreases |xs|
  {
    j := i;
    var n := |xs| - 1;
    if Blank(xs[n]) {
      OffSlice(xs, ys, i, 0, n);
      assert xs[0..n] == xs[..n] && ys[0..n] == ys[..n];
      j := OffDropRight(xs[..n], ys[..n], i);
    }
  }

  lemma OffStripped(p: seq<Token>, q: seq<Token>)
    requires OffTokens(p, q)
    ensures OffTokens(Stripped(p), Stripped(q))
  {
    var j: nat :| OffAt(p, q, j);
    var a := OffDropLeft(p, q, j);
    var b := OffDropRight(DropLeft(p), DropLeft(q), a);
  }

  lemma TrimmedTokens(p: seq<Token>)
    requires AllClosed(p)
    ensures Tokens(Trim(Flat(p))) == Some(Stripped(p)) && (Stripped(p) != [] ==> Trim(Flat(p)) != "")
  {
    TrimTokens(p);
    TokensOfFlat(Stripped(p));
  }

  lemma OffTrims(p: seq<Token>, q: seq<Token>)
    requires OffTokens(p, q)
    ensures Trim(Flat(p)) != "" && Trim(Flat(q)) != "" && Off(Trim(Flat(p)), Trim(Flat(q)))
  {
    OffStripped(p, q);
    TrimmedTokens(p);
    TrimmedTokens(q);
  }

  lemma KeptHead(p: seq<Token>, ps: seq<seq<Token>>)
    ensures TrimmedNonEmpty(Texts([p] + ps)) == (if Trim(Flat(p)) == "" then [] else [Trim(Flat(p))]) + TrimmedNonEmpty(Texts(ps))
  {
    assert Texts([p] + ps)[0] == Flat(p) && Texts([p] + ps)[1..] == Texts(ps);
  }

  lemma OffPartsLater(a: seq<string>, ts: seq<string>, us: seq<string>, k: nat)
    requires OffParts(ts, us, k)
    ensures OffParts(a + ts, a + us, |a| + k)
  {
  }

  lemma {:induction false} OffKept(ps: seq<seq<Token>>, qs: seq<seq<Token>>, k: nat) returns (m: nat)
    requires OffPiece(ps, qs, k)
    ensures OffParts(TrimmedNonEmpty(Texts(ps)), TrimmedNonEmpty(Texts(qs)), m)
    decreases |ps|
  {
    KeptHead(ps[0], ps[1..]);
    KeptHead(qs[0], qs[1..]);
    assert ps == [ps[0]] + ps[1..] && qs == [qs[0]] + qs[1..];
    if k == 0 {
      OffTrims(ps[0], qs[0]);
      assert ps[1..] == qs[1..];
      m := 0;
    } else {
      m := OffKept(ps[1..], qs[1..], k - 1);
      var first := if Trim(Flat(ps[0])) == "" then [] else [Trim(Flat(ps[0]))];
      OffPartsLater(first, TrimmedNonEmpty(Texts(ps[1..])), TrimmedNonEmpty(Texts(qs[1..])), m);
      m := |first| + m;
    }
  }

  lemma OffSplit(t: string, u: string, sep: string) returns (k: nat)
    requires Off(t, u) && sep != ""
    ensures Split(t, sep).Some? && Split(u, sep).Some? && OffParts(Split(t, sep).value, Split(u, sep).value, k)
  {
    var i: nat :| OffAt(TokensOf(t), TokensOf(u), i);
    var j := OffPieces(TokensOf(t), TokensOf(u), i, sep);
    k := OffKept(Pieces(TokensOf(t), sep), Pieces(TokensOf(u), sep), j);
  }

  ghost predicate ClosedText(t: string) {
    Tokens(t).Some? && AllClosed(TokensOf(t))
  }

  lemma OffAround(l: seq<Token>, xs: seq<Token>, ys: seq<Token>, r: seq<Token>, i: nat)
    requires OffAt(xs, ys, i) && AllClosed(l) && AllClosed(r)
    ensures OffAt(l + xs + r, l + ys + r, |l| + i)
  {
    var a, b := l + xs + r, l + ys + r;
    assert a[|l| + i] == xs[i] && b[|l| + i] == ys[i];
    forall j | 0 <= j < |a| && j != |l| + i
      ensures a[j] == b[j]
    {
      assert |l| <= j < |l| + |xs| ==> a[j] == xs[j - |l|] && b[j] == ys[j - |l|];
    }
  }

  lemma ConcatTokens(a: string, b: string)
    requires ClosedText(a) && ClosedText(b)
    ensures ClosedText(a + b) && TokensOf(a + b) == TokensOf(a) + TokensOf(b)
  {
    TokensAreText(a);
    TokensOfClosed(TokensOf(a), b);
  }

  lemma OffConcat(l: string, t: string, u: string, r: string)
    requires Off(t, u) && ClosedText(l) && ClosedText(r)
    ensures Off(l + t + r, l + u + r)
  {
    var i: nat :| OffAt(TokensOf(t), TokensOf(u), i);
    OffAround(TokensOf(l), TokensOf(t), TokensOf(u), TokensOf(r), i);
    ConcatTokens(l, t);
    ConcatTokens(l, u);
    ConcatTokens(l + t, r);
    ConcatTokens(l + u, r);
  }

  lemma {:induction false} JoinClosed(ts: seq<string>, g: string)
    requires (forall t <- ts :: ClosedText(t)) && ClosedText(g)
    ensures ClosedText(Join(ts, g))
    decreases |ts|
  {
    if |ts| > 1 {
      JoinClosed(ts[1..], g);
      ConcatTokens(ts[0], g);
      ConcatTokens(ts[0] + g, Join(ts[1..], g));
    }
  }

  lemma {:induction false} OffJoin(ts: seq<string>, us: seq<string>, k: nat, g: string)
    requires OffParts(ts, us, k) && (forall t <- ts :: ClosedText(t)) && ClosedText(g)
    ensures Off(Join(ts, g), Join(us, g))
    decreases |ts|
  {
    if |ts| > 1 {
      if k == 0 {
        assert ts[1..] == us[1..];
        JoinClosed(ts[1..], g);
        ConcatTokens(g, Join(ts[1..], g));
        OffConcat("", ts[0], us[0], g + Join(ts[1..], g));
        Beside(ts[0], g, Join(ts[1..], g));
        Beside(us[0], g, Join(us[1..], g));
      } else {
        OffJoin(ts[1..], us[1..], k - 1, g);
        ConcatTokens(ts[0], g);
        OffConcat(ts[0] + g, Join(ts[1..], g), Join(us[1..], g), "");
        assert ts[0] + g + Join(ts[1..], g) + "" == ts[0] + g + Join(ts[1..], g);
        assert us[0] + g + Join(us[1..], g) + "" == us[0] + g + Join(us[1..], g);
      }
    }
  }

  lemma Beside(a: string, g: string, b: string)
    ensures "" + a + (g + b) == a + g + b
  {
  }

  // ---------- cancelling ----------

  lemma Cancel(a: string, x: string, y: string, b: string)
    requires a + x + b == a + y + b
    ensures x == y
  {
    var s, n := a + x + b, |a|;
    assert |x| == |y|;
    assert s[n..n + |x|] == x && (a + y + b)[n..n + |y|] == y;
  }

  lemma {:induction false} JoinShows(ts: seq<string>, us: seq<string>, k: nat, g: string)
    requires |ts| == |us| && k < |ts| && ts[k] != us[k] && forall j :: 0 <= j < |ts| && j != k ==> ts[j] == us[j]
    ensures Join(ts, g) != Join(us, g)
    decreases |ts|
  {
    if |ts| > 1 {
      if k == 0 {
        assert ts[1..] == us[1..];
        Beside(ts[0], g, Join(ts[1..], g));
        Beside(us[0], g, Join(us[1..], g));
        if Join(ts, g) == Join(us, g) { Cancel("", ts[0], us[0], g + Join(ts[1..], g)); }
      } else {
        JoinShows(ts[1..], us[1..], k - 1, g);
        if Join(ts, g) == Join(us, g) { CancelLeft(ts[0] + g, Join(ts[1..], g), Join(us[1..], g)); }
      }
    }
  }

  lemma CancelLeft(a: string, x: string, y: string)
    requires a + x == a + y
    ensures x == y
  {
    assert (a + x)[|a|..] == x && (a + y)[|a|..] == y;
  }

  /** Joined after sorting, parts show how often each of them was there, and nothing else. */
  lemma SortedJoinShows(ts: seq<string>, us: seq<string>, left: string, c: char, right: string)
    requires (forall t <- ts :: Part(t, c)) && (forall u <- us :: Part(u, c))
    requires AllBlank(left) && AllBlank(right) && !Space(c) && !Quote(c) && !Opener(c)
    ensures Join(Sort(ts), right + [c] + left) == Join(Sort(us), right + [c] + left) <==> multiset(ts) == multiset(us)
  {
    SortFacts(ts);
    SortFacts(us);
    SortCounts(ts);
    SortCounts(us);
    SplitJoined(Sort(ts), left, c, right);
    SplitJoined(Sort(us), left, c, right);
    if multiset(ts) == multiset(us) { SortForgetsOrder(ts, us); }
  }

  lemma CountsDiffer(ts: seq<string>, us: seq<string>, k: nat)
    requires |ts| == |us| && k < |ts| && ts[k] != us[k] && forall j :: 0 <= j < |ts| && j != k ==> ts[j] == us[j]
    ensures multiset(ts) != multiset(us)
  {
    var a, b := ts[..k], ts[k + 1..];
    assert ts == a + [ts[k]] + b && us == a + [us[k]] + b;
    assert multiset(ts) == multiset(a) + multiset{ts[k]} + multiset(b);
    assert multiset(us) == multiset(a) + multiset{us[k]} + multiset(b);
    assert multiset(ts)[ts[k]] == multiset(us)[ts[k]] + 1;
  }

  // ---------- atoms, intersections and unions ----------

  lemma {:induction false} ReprintedAt(xs: seq<Token>)
    ensures |ReprintedAll(xs)| == |xs| && forall i :: 0 <= i < |xs| ==> ReprintedAll(xs)[i] == Reprinted(xs[i])
    decreases |xs|
  {
    if xs != [] { ReprintedAt(xs[1..]); }
  }

  lemma FlatShows(xs: seq<Token>, ys: seq<Token>, i: nat)
    requires |xs| == |ys| && i < |xs| && TextOf(xs[i]) != TextOf(ys[i]) && forall j :: 0 <= j < |xs| && j != i ==> xs[j] == ys[j]
    ensures Flat(xs) != Flat(ys)
  {
    Halves(xs, i);
    Halves(ys, i);
    assert xs[..i] == ys[..i] && xs[i + 1..] == ys[i + 1..];
    if Flat(xs) == Flat(ys) { Cancel(Flat(xs[..i]), TextOf(xs[i]), TextOf(ys[i]), Flat(xs[i + 1..])); }
  }

  /** A text whose groups print settled. */
  ghost predicate SettledText(t: string) {
    Fit(t) && AllSettled(TokensOf(t))
  }

  lemma AtomShows(t: string, u: string)
    requires SettledText(t) && SettledText(u) && Off(t, u)
    ensures CanonicalAtom(t).Some? && CanonicalAtom(u).Some? && CanonicalAtom(t) != CanonicalAtom(u)
  {
    var xs, ys := TokensOf(t), TokensOf(u);
    var i: nat :| OffAt(xs, ys, i);
    assert CanonicalAtom(t) == Some(Flat(ReprintedAll(xs))) by { SettledAtom(t); }
    assert CanonicalAtom(u) == Some(Flat(ReprintedAll(ys))) by { SettledAtom(u); }
    ReprintedAt(xs);
    ReprintedAt(ys);
    FlatShows(ReprintedAll(xs), ReprintedAll(ys), i);
  }

  /** Printed parts, one of them shown to differ. */
  ghost predicate Shows(ts: seq<string>, us: seq<string>, k: nat) {
    |ts| == |us| && k < |ts| && ts[k] != us[k] && forall j :: 0 <= j < |ts| && j != k ==> ts[j] == us[j]
  }

  ghost predicate Prints(parts: seq<string>, printer: string -> Option<string>, printed: seq<string>) {
    |parts| == |printed| && forall i :: 0 <= i < |parts| ==> printer(parts[i]) == Some(printed[i])
  }

  lemma PrintsShow(ts: seq<string>, us: seq<string>, k: nat, printer: string -> Option<string>, a: seq<string>, b: seq<string>)
    requires OffParts(ts, us, k) && Prints(ts, printer, a) && Prints(us, printer, b)
    requires printer(ts[k]) != printer(us[k])
    ensures Shows(a, b, k)
  {
    forall j | 0 <= j < |a| && j != k
      ensures a[j] == b[j]
    {
      assert printer(ts[j]) == printer(us[j]);
    }
  }

  lemma PartsSettled(t: string, c: char)
    requires SettledText(t) && Safe([c])
    ensures Split(t, [c]).Some? && forall part <- Split(t, [c]).value :: SettledText(part)
  {
    SplitLacks(t, c);
    forall part | part in Split(t, [c]).value
      ensures SettledText(part)
    {
      SettledPart(part, t);
    }
  }

  lemma SettledIsClosed(t: string)
    requires SettledText(t)
    ensures ClosedText(t)
  {
  }

  lemma AtomsPrint(t: string) returns (atoms: seq<string>)
    requires SettledText(t)
    ensures Split(t, "&").Some? && Prints(Split(t, "&").value, Atoms(), atoms)
  {
    atoms := StableAtoms(t);
  }

  lemma IntersectionPrints(t: string) returns (atoms: seq<string>)
    requires SettledText(t)
    ensures Split(t, "&").Some? && Prints(Split(t, "&").value, Atoms(), atoms) && CanonicalIntersection(t) == Some(Join(atoms, " & "))
  {
    atoms := AtomsPrint(t);
    IntersectionIsAtoms(t);
    EachPrinted(Split(t, "&").value, Atoms(), atoms);
  }

  lemma OperandShows(t: string, u: string, k: nat)
    requires SettledText(t) && SettledText(u) && Split(t, "&").Some? && Split(u, "&").Some?
    requires OffParts(Split(t, "&").value, Split(u, "&").value, k)
    ensures CanonicalAtom(Split(t, "&").value[k]) != CanonicalAtom(Split(u, "&").value[k])
  {
    PartsSettled(t, '&');
    PartsSettled(u, '&');
    AtomShows(Split(t, "&").value[k], Split(u, "&").value[k]);
  }

  lemma IntersectionShows(t: string, u: string)
    requires SettledText(t) && SettledText(u) && Off(t, u)
    ensures CanonicalIntersection(t) != CanonicalIntersection(u)
  {
    var a := IntersectionPrints(t);
    var b := IntersectionPrints(u);
    var k := OffSplit(t, u, "&");
    OperandShows(t, u, k);
    PrintsShow(Split(t, "&").value, Split(u, "&").value, k, Atoms(), a, b);
    JoinShows(a, b, k, " & ");
  }

  lemma PrintedMembers(t: string) returns (printed: seq<string>)
    requires SettledText(t) && UnionShape(t)
    ensures Split(t, "|").Some? && Prints(Split(t, "|").value, Intersections(), printed)
    ensures CanonicalUnion(t) == Some(Join(Sort(printed), " | "))
    ensures forall p <- printed :: MadeOf(p, t, BAR) && Plain('|') !in TokensOf(p)
  {
    printed := StableUnion(t);
  }

  lemma UnionPrints(t: string) returns (printed: seq<string>)
    requires SettledText(t) && UnionShape(t)
    ensures Split(t, "|").Some? && Prints(Split(t, "|").value, Intersections(), printed)
    ensures CanonicalUnion(t) == Some(Join(Sort(printed), " | ")) && forall p <- printed :: Part(p, '|')
  {
    printed := PrintedMembers(t);
    PartsAreParts(printed, t, BAR, '|');
  }

  /** The canonical forms of two unions are the same exactly when their operands print alike, in some order. */
  lemma UnionsAgree(t: string, u: string, a: seq<string>, b: seq<string>)
    requires SettledText(t) && UnionShape(t) && SettledText(u) && UnionShape(u)
    requires Prints(Split(t, "|").value, Intersections(), a) && Prints(Split(u, "|").value, Intersections(), b)
    ensures CanonicalUnion(t) == CanonicalUnion(u) <==> multiset(a) == multiset(b)
  {
    var c := UnionPrints(t);
    var d := UnionPrints(u);
    SamePrints(Split(t, "|").value, Intersections(), a, c);
    SamePrints(Split(u, "|").value, Intersections(), b, d);
    BarSorts(a, b);
  }

  lemma SamePrints(parts: seq<string>, printer: string -> Option<string>, a: seq<string>, b: seq<string>)
    requires Prints(parts, printer, a) && Prints(parts, printer, b)
    ensures a == b
  {
    forall i | 0 <= i < |parts|
      ensures a[i] == b[i]
    {
      assert printer(parts[i]) == Some(a[i]);
    }
  }

  lemma BarSorts(a: seq<string>, b: seq<string>)
    requires (forall p <- a :: Part(p, '|')) && (forall p <- b :: Part(p, '|'))
    ensures Join(Sort(a), " | ") == Join(Sort(b), " | ") <==> multiset(a) == multiset(b)
  {
    assert " | " == " " + ['|'] + " ";
    SortedJoinShows(a, b, " ", '|', " ");
  }

  lemma OperandOfUnionShows(t: string, u: string, k: nat)
    requires SettledText(t) && SettledText(u) && Split(t, "|").Some? && Split(u, "|").Some?
    requires OffParts(Split(t, "|").value, Split(u, "|").value, k)
    ensures CanonicalIntersection(Split(t, "|").value[k]) != CanonicalIntersection(Split(u, "|").value[k])
  {
    PartsSettled(t, '|');
    PartsSettled(u, '|');
    IntersectionShows(Split(t, "|").value[k], Split(u, "|").value[k]);
  }

  lemma UnionShows(t: string, u: string)
    requires SettledText(t) && UnionShape(t) && SettledText(u) && UnionShape(u) && Off(t, u)
    ensures CanonicalUnion(t) != CanonicalUnion(u)
  {
    var a := UnionPrints(t);
    var b := UnionPrints(u);
    var k := OffSplit(t, u, "|");
    OperandOfUnionShows(t, u, k);
    PrintsShow(Split(t, "|").value, Split(u, "|").value, k, Intersections(), a, b);
    CountsDiffer(a, b, k);
    BarSorts(a, b);
  }

  // ---------- types ----------

  lemma ConditionalPrints(t: string)
    requires Split(t, " extends ").Some? && Split(t, "=>").Some? && |Split(t, " extends ").value| > 1
    ensures CanonicalType(t) == CanonicalAtom(t)
  {
  }

  lemma FunctionPrints(t: string) returns (a: string, r: string)
    requires TypeShape(t) && AllSettled(TokensOf(t)) && |Split(t, " extends ").value| <= 1 && |Split(t, "=>").value| > 1
    ensures var parts := Split(t, "=>").value;
            var ret := Join(parts[1..], "=>");
      && SettledText(parts[0]) && TypeShape(ret) && SettledText(ret) && NonSpace(ret) < NonSpace(t)
      && (forall part <- parts :: ClosedText(part))
      && CanonicalAtom(parts[0]) == Some(a) && CanonicalType(ret) == Some(r) && CanonicalType(t) == Some(a + " => " + r)
  {
    var parts := Split(t, "=>").value;
    var ret := Join(parts[1..], "=>");
    TailWeight(t, "=>");
    FunctionParts(t);
    SettledAtom(parts[0]);
    StableType(ret);
    a, r := CanonicalAtom(parts[0]).value, CanonicalType(ret).value;
    NotConditional(t);
    FunctionType(t, a, ret, r);
    SplitFreeOfArrow(t);
  }

  lemma CancelBoth(a: string, b: string, g: string, r: string, s: string)
    requires (a == b && r != s) || (a != b && r == s)
    ensures a + g + r != b + g + s
  {
    if a + g + r == b + g + s {
      if a == b {
        CancelLeft(a + g, r, s);
      } else {
        Beside(a, g, r);
        Beside(b, g, s);
        Cancel("", a, b, g + r);
      }
    }
  }

  lemma ArrowClosed()
    ensures ClosedText("=>") && ClosedText(":")
  {
    CodeTokens("=>");
    CodeTokens(":");
  }

  lemma {:induction false} TypeShows(t: string, u: string)
    requires TypeShape(t) && TypeShape(u) && AllSettled(TokensOf(t)) && AllSettled(TokensOf(u)) && Off(t, u)
    ensures CanonicalType(t) != CanonicalType(u)
    decreases NonSpace(t)
  {
    var e := OffSplit(t, u, " extends ");
    var k := OffSplit(t, u, "=>");
    if |Split(t, " extends ").value| > 1 {
      ConditionalPrints(t);
      ConditionalPrints(u);
      AtomShows(t, u);
    } else if |Split(t, "=>").value| > 1 {
      FunctionShows(t, u, k);
    } else {
      PlainType(t);
      PlainType(u);
      UnionShows(t, u);
    }
  }

  lemma ResultsOff(ps: seq<string>, qs: seq<string>, k: nat)
    requires OffParts(ps, qs, k) && k > 0 && forall part <- ps :: ClosedText(part)
    ensures ps[0] == qs[0] && Off(Join(ps[1..], "=>"), Join(qs[1..], "=>"))
  {
    ArrowClosed();
    assert OffParts(ps[1..], qs[1..], k - 1);
    OffJoin(ps[1..], qs[1..], k - 1, "=>");
  }

  lemma ParametersShow(ps: seq<string>, qs: seq<string>)
    requires OffParts(ps, qs, 0) && SettledText(ps[0]) && SettledText(qs[0])
    ensures CanonicalAtom(ps[0]) != CanonicalAtom(qs[0]) && ps[1..] == qs[1..]
  {
    AtomShows(ps[0], qs[0]);
  }

  lemma {:induction false} FunctionShows(t: string, u: string, k: nat)
    requires TypeShape(t) && TypeShape(u) && AllSettled(TokensOf(t)) && AllSettled(TokensOf(u))
    requires |Split(t, " extends ").value| <= 1 && |Split(u, " extends ").value| <= 1
    requires |Split(t, "=>").value| > 1 && OffParts(Split(t, "=>").value, Split(u, "=>").value, k)
    ensures CanonicalType(t) != CanonicalType(u)
    decreases NonSpace(t), 0
  {
    var ps, qs := Split(t, "=>").value, Split(u, "=>").value;
    var a, r := FunctionPrints(t);
    var b, s := FunctionPrints(u);
    assert (a == b && r != s) || (a != b && r == s) by {
      if k == 0 {
        ParametersShow(ps, qs);
      } else {
        ResultsOff(ps, qs, k);
        TypeShows(Join(ps[1..], "=>"), Join(qs[1..], "=>"));
      }
    }
    CancelBoth(a, b, " => ", r, s);
  }

  // ---------- members ----------

  lemma OffMark(xs: seq<Token>, ys: seq<Token>)
    requires OffTokens(xs, ys)
    ensures EndsWith(Flat(xs), '?') == EndsWith(Flat(ys), '?')
  {
    var i: nat :| OffAt(xs, ys, i);
    EndsWithMark(xs);
    EndsWithMark(ys);
    assert xs[|xs| - 1] == Plain('?') ==> i != |xs| - 1;
    assert ys[|ys| - 1] == Plain('?') ==> i != |ys| - 1;
  }

  lemma OffOptional(t: string, u: string)
    requires Off(t, u)
    ensures Optional(t) == Optional(u)
  {
    var xs, ys := TokensOf(t), TokensOf(u);
    TokensAreText(t);
    TokensAreText(u);
    OffStripped(xs, ys);
    TrimTokens(xs);
    TrimTokens(ys);
    OffMark(Stripped(xs), Stripped(ys));
  }

  lemma OffIsNoWord(t: string, u: string, word: string)
    requires Off(t, u) && forall c <- word :: !Quote(c) && !Opener(c)
    ensures t != word && u != word
  {
    CodeTokens(word);
    var i: nat :| OffAt(TokensOf(t), TokensOf(u), i);
    assert TokensOf(t)[i].Solid? && TokensOf(u)[i].Solid?;
  }

  lemma {:induction false} OffDefined(ms: seq<string>, ns: seq<string>, k: nat) returns (j: nat)
    requires OffParts(ms, ns, k)
    ensures OffParts(Defined(ms), Defined(ns), j)
    decreases |ms|
  {
    UndefinedIsCode();
    OffIsNoWord(ms[k], ns[k], UNDEFINED);
    if k == 0 {
      assert ms[1..] == ns[1..];
      j := 0;
    } else {
      assert OffParts(ms[1..], ns[1..], k - 1);
      j := OffDefined(ms[1..], ns[1..], k - 1);
      var first := if ms[0] == UNDEFINED then [] else [ms[0]];
      OffPartsLater(first, Defined(ms[1..]), Defined(ns[1..]), j);
      j := |first| + j;
    }
  }

  lemma DefinedClosed(v: string)
    requires Fit(v)
    ensures Split(v, "|").Some? && forall m <- Defined(Split(v, "|").value) :: ClosedText(m)
  {
    SplitLacks(v, '|');
    DefinedFacts(Split(v, "|").value);
  }

  lemma BarClosed()
    ensures ClosedText(" | ")
  {
    CodeTokens(" | ");
  }

  lemma OffUnion(v: string, w: string)
    requires Fit(v) && Off(v, w)
    ensures Split(v, "|").Some? && Split(w, "|").Some?
    ensures var ms, ns := Defined(Split(v, "|").value), Defined(Split(w, "|").value);
            ms != [] && ns != [] && Off(Join(ms, " | "), Join(ns, " | "))
  {
    var k := OffSplit(v, w, "|");
    var j := OffDefined(Split(v, "|").value, Split(w, "|").value, k);
    DefinedClosed(v);
    BarClosed();
    OffJoin(Defined(Split(v, "|").value), Defined(Split(w, "|").value), j, " | ");
  }

  lemma OffWithout(key: string, v: string, w: string)
    requires Fit(v) && Off(v, w)
    ensures var a, b := WithoutImpliedUndefined(key, v), WithoutImpliedUndefined(key, w);
            a.Some? && b.Some? && Off(a.value, b.value)
  {
    var k := OffSplit(v, w, "=>");
    OffUnion(v, w);
  }

  lemma MemberPrints(m: string) returns (k: string, w: string, v: string)
    requires MemberOk(m) && AllSettled(TokensOf(m)) && |Split(m, ":").value| > 1
    ensures var key, value := Split(m, ":").value[0], Join(Split(m, ":").value[1..], ":");
      && SettledText(key) && SettledText(value) && (forall part <- Split(m, ":").value :: ClosedText(part))
      && CanonicalAtom(key) == Some(k) && WithoutImpliedUndefined(key, value) == Some(w) && TypeShape(w) && SettledText(w)
      && CanonicalType(w) == Some(v) && CanonicalMember(m) == Some(k + ": " + v)
  {
    k, w, v := KeyAndValuePrint(m);
    assert CanonicalMember(m) == Some(k + ": " + v) by { KeyedMember(m, Split(m, ":").value, k, w, v); }
    MemberTexts(m);
    ValueShapes(m, w);
  }

  lemma MemberTexts(m: string)
    requires MemberOk(m) && AllSettled(TokensOf(m)) && |Split(m, ":").value| > 1
    ensures SettledText(Split(m, ":").value[0]) && SettledText(Join(Split(m, ":").value[1..], ":"))
    ensures forall part <- Split(m, ":").value :: ClosedText(part)
  {
    assert SettledText(Join(Split(m, ":").value[1..], ":")) by { ValueText(m); }
    var parts := Split(m, ":").value;
    assert forall part <- parts :: SettledText(part) by { PartsSettled(m, ':'); }
    forall part | part in parts
      ensures ClosedText(part)
    {
      SettledIsClosed(part);
    }
  }

  lemma ValueShapes(m: string, w: string)
    requires MemberOk(m) && |Split(m, ":").value| > 1 && AllSettled(TokensOf(w))
    requires WithoutImpliedUndefined(Split(m, ":").value[0], Join(Split(m, ":").value[1..], ":")) == Some(w)
    ensures TypeShape(w) && SettledText(w)
  {
  }

  lemma ValuesOff(ps: seq<string>, qs: seq<string>, k: nat)
    requires OffParts(ps, qs, k) && k > 0 && forall part <- ps :: ClosedText(part)
    ensures ps[0] == qs[0] && Off(Join(ps[1..], ":"), Join(qs[1..], ":"))
  {
    ArrowClosed();
    assert OffParts(ps[1..], qs[1..], k - 1);
    OffJoin(ps[1..], qs[1..], k - 1, ":");
  }

  lemma KeysShow(ps: seq<string>, qs: seq<string>)
    requires OffParts(ps, qs, 0) && SettledText(ps[0]) && SettledText(qs[0])
    ensures CanonicalAtom(ps[0]) != CanonicalAtom(qs[0]) && Optional(ps[0]) == Optional(qs[0]) && ps[1..] == qs[1..]
  {
    AtomShows(ps[0], qs[0]);
    OffOptional(ps[0], qs[0]);
  }

  lemma SameWithout(key: string, other: string, v: string)
    requires Optional(key) == Optional(other)
    ensures WithoutImpliedUndefined(key, v) == WithoutImpliedUndefined(other, v)
  {
  }

  lemma KeyedShows(m: string, n: string, k: nat)
    requires MemberOk(m) && MemberOk(n) && AllSettled(TokensOf(m)) && AllSettled(TokensOf(n))
    requires |Split(m, ":").value| > 1 && OffParts(Split(m, ":").value, Split(n, ":").value, k)
    ensures CanonicalMember(m) != CanonicalMember(n)
  {
    var ps, qs := Split(m, ":").value, Split(n, ":").value;
    var a, v, r := MemberPrints(m);
    var b, w, s := MemberPrints(n);
    assert (a == b && r != s) || (a != b && r == s) by {
      if k == 0 {
        KeysShow(ps, qs);
        SameWithout(ps[0], qs[0], Join(ps[1..], ":"));
      } else {
        ValuesOff(ps, qs, k);
        OffWithout(ps[0], Join(ps[1..], ":"), Join(qs[1..], ":"));
        TypeShows(v, w);
      }
    }
    CancelBoth(a, b, ": ", r, s);
  }

  lemma MemberShows(m: string, n: string)
    requires MemberOk(m) && MemberOk(n) && AllSettled(TokensOf(m)) && AllSettled(TokensOf(n)) && Off(m, n)
    ensures CanonicalMember(m) != CanonicalMember(n)
  {
    var k := OffSplit(m, n, ":");
    var ps, qs := Split(m, ":").value, Split(n, ":").value;
    if |ps| == 1 {
      OnlyPart(m);
      OnlyPart(n);
      TypeShows(ps[0], qs[0]);
    } else {
      KeyedShows(m, n, k);
    }
  }

  lemma OnlyPart(m: string)
    requires MemberOk(m) && AllSettled(TokensOf(m)) && |Split(m, ":").value| == 1
    ensures var t := Split(m, ":").value[0]; TypeShape(t) && AllSettled(TokensOf(t)) && CanonicalMember(m) == CanonicalType(t)
  {
    var t := Split(m, ":").value[0];
    SplitLacks(m, ':');
    SettledPart(t, m);
    assert Split(m, ":").value == [t];
    OnlyType(m, t);
  }

  // ---------- groups ----------

  lemma GroupPrintsParts(open: char, inner: string) returns (printed: seq<string>)
    requires GroupOk(open, inner) && AllSettled(TokensOf(inner))
    ensures Prints(Split(inner, SeparatorIn(open)).value, PartPrinter(open), printed)
    ensures CanonicalGroup(open, inner) == Some(Join(if open == '{' then Sort(printed) else printed, GroupGlue(open)))
    ensures forall p <- printed :: Part(p, SeparatorChar(open))
    ensures forall part <- Split(inner, SeparatorIn(open)).value :: PartOk(open, part) && AllSettled(TokensOf(part))
  {
    printed := StablePartsOf(open, inner);
    PrintedGroup(open, inner, Split(inner, SeparatorIn(open)).value, printed);
    PartsAreParts(printed, inner, MEMBER_GLUE, SeparatorChar(open));
    GroupPartsSettled(open, inner);
  }

  lemma GroupPartsSettled(open: char, inner: string)
    requires GroupOk(open, inner) && AllSettled(TokensOf(inner))
    ensures forall part <- Split(inner, SeparatorIn(open)).value :: AllSettled(TokensOf(part))
  {
    PartsOfGroup(open, inner);
    forall part | part in Split(inner, SeparatorIn(open)).value
      ensures AllSettled(TokensOf(part))
    {
      SettledPart(part, inner);
    }
  }

  lemma PartShows(open: char, p: string, q: string)
    requires PartOk(open, p) && PartOk(open, q) && AllSettled(TokensOf(p)) && AllSettled(TokensOf(q)) && Off(p, q)
    ensures PrintPart(open, p) != PrintPart(open, q)
  {
    if open == '<' { TypeShows(p, q); } else { MemberShows(p, q); }
  }

  lemma ObjectSorts(a: seq<string>, b: seq<string>)
    requires (forall p <- a :: Part(p, ';')) && (forall p <- b :: Part(p, ';'))
    ensures Join(Sort(a), "; ") == Join(Sort(b), "; ") <==> multiset(a) == multiset(b)
  {
    assert "; " == "" + [';'] + " ";
    SortedJoinShows(a, b, " ", ';', "");
  }

  /** A group shows a part that prints differently. */
  lemma GroupShowsPart(open: char, a: seq<string>, b: seq<string>, k: nat)
    requires Shows(a, b, k) && (forall p <- a :: Part(p, SeparatorChar(open))) && (forall p <- b :: Part(p, SeparatorChar(open)))
    ensures Join(if open == '{' then Sort(a) else a, GroupGlue(open)) != Join(if open == '{' then Sort(b) else b, GroupGlue(open))
  {
    if open == '{' {
      CountsDiffer(a, b, k);
      ObjectSorts(a, b);
    } else {
      JoinShows(a, b, k, ", ");
    }
  }

  lemma GroupShows(open: char, t: string, u: string)
    requires GroupOk(open, t) && GroupOk(open, u) && AllSettled(TokensOf(t)) && AllSettled(TokensOf(u)) && Off(t, u)
    ensures CanonicalGroup(open, t).Some? && CanonicalGroup(open, u).Some? && CanonicalGroup(open, t) != CanonicalGroup(open, u)
  {
    var a := GroupPrintsParts(open, t);
    var b := GroupPrintsParts(open, u);
    var k := OffSplit(t, u, SeparatorIn(open));
    var ps, qs := Split(t, SeparatorIn(open)).value, Split(u, SeparatorIn(open)).value;
    assert ps[k] in ps && qs[k] in qs;
    PartShows(open, ps[k], qs[k]);
    PrintsShow(ps, qs, k, PartPrinter(open), a, b);
    GroupShowsPart(open, a, b, k);
  }

  // ---------- statements and declarations ----------

  lemma StatementShows(s: string, r: string)
    requires StatementShape(s) && StatementShape(r) && AllSettled(TokensOf(s)) && AllSettled(TokensOf(r)) && Off(s, r)
    ensures CanonicalStatement(s) != CanonicalStatement(r)
  {
    var k := OffSplit(s, r, " = ");
    if |Split(s, " = ").value| <= 1 {
      MemberShows(s, r);
    } else {
      AliasShows(s, r, k);
    }
  }

  lemma AliasPrints(s: string) returns (p: string, q: string)
    requires StatementShape(s) && AllSettled(TokensOf(s)) && |Split(s, " = ").value| == 2
    ensures var parts := Split(s, " = ").value;
      && SettledText(parts[0]) && TypeShape(parts[1]) && AllSettled(TokensOf(parts[1]))
      && CanonicalAtom(parts[0]) == Some(p) && CanonicalType(parts[1]) == Some(q) && CanonicalStatement(s) == Some(p + " = " + q)
  {
    var parts := Split(s, " = ").value;
    SplitTokens(s, " = ");
    assert parts == [parts[0], parts[1]] && Among(TokensOf(parts[0]), TokensOf(s)) && Among(TokensOf(parts[1]), TokensOf(s));
    SettledAtom(parts[0]);
    StableType(parts[1]);
    p, q := CanonicalAtom(parts[0]).value, CanonicalType(parts[1]).value;
    Aliased(s, parts[0], parts[1], p, q);
  }

  lemma AliasShows(s: string, r: string, k: nat)
    requires StatementShape(s) && StatementShape(r) && AllSettled(TokensOf(s)) && AllSettled(TokensOf(r))
    requires |Split(s, " = ").value| > 1 && OffParts(Split(s, " = ").value, Split(r, " = ").value, k)
    ensures CanonicalStatement(s) != CanonicalStatement(r)
  {
    var ps, qs := Split(s, " = ").value, Split(r, " = ").value;
    var a, x := AliasPrints(s);
    var b, y := AliasPrints(r);
    if k == 0 { AtomShows(ps[0], qs[0]); } else { TypeShows(ps[1], qs[1]); }
    CancelBoth(a, b, " = ", x, y);
  }

  lemma DeclarationPrints(d: string) returns (printed: seq<string>)
    requires WellFormedDeclaration(d)
    ensures Prints(Split(d, ";").value, Statements(), printed) && CanonicalDeclaration(d) == Some(Join(printed, ";\n"))
    ensures forall s <- Split(d, ";").value :: StatementShape(s) && AllSettled(TokensOf(s))
  {
    StatementsLack(d);
    StatementsSettled(d);
    printed := StableStatements(Split(d, ";").value);
    PrintedDeclaration(d, Split(d, ";").value, printed);
  }

  /** Well-formed declarations, the same but for one group that prints differently, have different canonical forms. */
  lemma DeclarationShows(d: string, e: string)
    requires WellFormedDeclaration(d) && WellFormedDeclaration(e) && Off(d, e)
    ensures CanonicalDeclaration(d) != CanonicalDeclaration(e)
  {
    var a := DeclarationPrints(d);
    var b := DeclarationPrints(e);
    var k := OffSplit(d, e, ";");
    var ps, qs := Split(d, ";").value, Split(e, ";").value;
    assert ps[k] in ps && qs[k] in qs;
    StatementShows(ps[k], qs[k]);
    PrintsShow(ps, qs, k, Statements(), a, b);
    JoinShows(a, b, k, ";\n");
  }

  // ---------- any depth ----------

  lemma GroupInside(before: seq<Token>, open: char, xs: seq<Token>, after: seq<Token>)
    requires Opener(open) && AllClosed(before + [Group(open, xs)] + after) && AllClosed(xs)
    requires TidyGroups(Flat(before + [Group(open, xs)] + after))
    ensures GroupOk(open, Flat(xs)) && TidyGroups(Flat(xs)) && TokensOf(Flat(xs)) == xs
  {
    var all := before + [Group(open, xs)] + after;
    TokensOfFlat(all);
    TokensOfFlat(xs);
    var tok := Group(open, xs);
    assert tok in all && InnerOf(tok) == Flat(xs);
  }

  lemma {:induction false} OffAtAnyDepth(c: Context, x: Token, y: Token)
    requires Fits(c, [x]) && Fits(c, [y]) && Differ(x, y)
    requires TidyGroups(Flat(Fill(c, [x]))) && TidyGroups(Flat(Fill(c, [y])))
    ensures OffTokens(Fill(c, [x]), Fill(c, [y]))
    decreases c
  {
    if c.Hole? {
      OffStarts(x, y, []);
      assert [x] + [] == [x] && [y] + [] == [y];
    } else {
      var t, u := Fill(c.body, [x]), Fill(c.body, [y]);
      GroupInside(c.before, c.open, t, c.after);
      GroupInside(c.before, c.open, u, c.after);
      OffAtAnyDepth(c.body, x, y);
      GroupsDiffer(c.open, t, u);
      OffInside(c.before, Group(c.open, t), Group(c.open, u), c.after);
    }
  }

  lemma GroupsDiffer(open: char, t: seq<Token>, u: seq<Token>)
    requires Opener(open) && AllClosed(t) && AllClosed(u) && OffTokens(t, u)
    requires GroupOk(open, Flat(t)) && TidyGroups(Flat(t)) && GroupOk(open, Flat(u)) && TidyGroups(Flat(u))
    ensures Differ(Group(open, t), Group(open, u))
  {
    TokensOfFlat(t);
    TokensOfFlat(u);
    TidyGroupsSettle(Flat(t));
    TidyGroupsSettle(Flat(u));
    GroupShows(open, Flat(t), Flat(u));
    GroupsPrintApart(open, t, u);
  }

  lemma GroupsPrintApart(open: char, t: seq<Token>, u: seq<Token>)
    requires Opener(open) && CanonicalGroup(open, Flat(t)).Some? && CanonicalGroup(open, Flat(u)).Some?
    ensures Differ(Group(open, t), Group(open, u)) <==> CanonicalGroup(open, Flat(t)) != CanonicalGroup(open, Flat(u))
  {
    GroupPrints(open, t);
    GroupPrints(open, u);
    var a, b := CanonicalGroup(open, Flat(t)).value, CanonicalGroup(open, Flat(u)).value;
    if [open] + a + [CloserOf(open)] == [open] + b + [CloserOf(open)] { Cancel([open], a, b, [CloserOf(open)]); }
  }

  lemma OffInside(before: seq<Token>, x: Token, y: Token, after: seq<Token>)
    requires Differ(x, y) && AllClosed(before + [x] + after) && AllClosed(before + [y] + after)
    ensures OffTokens(before + [x] + after, before + [y] + after)
  {
    assert OffAt(before + [x] + after, before + [y] + after, |before|);
  }

  lemma {:induction false} GroupAtDepth(c: Context, open: char, xs: seq<Token>)
    requires Opener(open) && WellFormed(xs) && Fits(c, [Group(open, xs)]) && TidyGroups(Flat(Fill(c, [Group(open, xs)])))
    ensures GroupOk(open, Flat(xs)) && AllSettled(TokensOf(Flat(xs)))
    decreases c
  {
    if c.Hole? {
      assert [] + [Group(open, xs)] + [] == [Group(open, xs)];
      GroupInside([], open, xs, []);
      TidyGroupsSettle(Flat(xs));
    } else {
      GroupInside(c.before, c.open, Fill(c.body, [Group(open, xs)]), c.after);
      GroupAtDepth(c.body, open, xs);
    }
  }

  /** A difference inside a bracket group is ignored, at any depth, exactly when the group ignores it. */
  lemma ShownAtAnyDepth(c: Context, open: char, xs: seq<Token>, ys: seq<Token>, d: string, e: string)
    requires Opener(open) && WellFormed(xs) && WellFormed(ys)
    requires Fits(c, [Group(open, xs)]) && d == Flat(Fill(c, [Group(open, xs)])) && WellFormedDeclaration(d)
    requires Fits(c, [Group(open, ys)]) && e == Flat(Fill(c, [Group(open, ys)])) && WellFormedDeclaration(e)
    ensures CanonicalDeclaration(d) == CanonicalDeclaration(e) <==> CanonicalGroup(open, Flat(xs)) == CanonicalGroup(open, Flat(ys))
  {
    var x, y := Group(open, xs), Group(open, ys);
    if CanonicalGroup(open, Flat(xs)) == CanonicalGroup(open, Flat(ys)) {
      IgnoredAtAnyDepth(c, open, xs, ys, x, y);
    } else {
      GroupAtDepth(c, open, xs);
      GroupAtDepth(c, open, ys);
      StableGroup(open, Flat(xs));
      StableGroup(open, Flat(ys));
      GroupsPrintApart(open, xs, ys);
      OffAtAnyDepth(c, x, y);
      TokensOfFlat(Fill(c, [x]));
      TokensOfFlat(Fill(c, [y]));
      DeclarationShows(d, e);
    }
  }
}
