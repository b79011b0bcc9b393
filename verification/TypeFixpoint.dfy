/**
 Members, groups, statements and declarations: the canonical form is a fixed point of the printer.
 */
module TypeFixpoint {
  import opened Wrappers
  import opened TypeScan
  import opened TypeText
  import opened TypeCanon
  import opened TypeStable

  // ---------- undefined in unions ----------

  lemma {:induction false} DefinedFacts(s: seq<string>)
    ensures (forall x <- s :: x == "undefined") ==> Defined(s) == []
    ensures (forall x <- s :: x != "undefined") ==> Defined(s) == s
    ensures Defined(s) == [] ==> forall x <- s :: x == "undefined"
    ensures forall x <- Defined(s) :: x in s && x != "undefined"
    decreases |s|
  {
    if s != [] {
      var rest := Defined(s[1..]);
      DefinedFacts(s[1..]);
      assert s == [s[0]] + s[1..] && [] + rest == rest;
      assert s[0] in s && forall x <- s[1..] :: x in s;
    }
  }

  const UNDEFINED := "undefined"

  lemma UndefinedIsOnePart(m: string)
    requires Fit(m) && m == UNDEFINED
    ensures Split(m, "&") == Some([m])
  {
    assert Plain('&') !in TokensOf(m) by {
      UndefinedIsCode();
      CodeTokens(m);
      assert forall c <- UNDEFINED :: c != '&';
    }
    FreeOfChar(TokensOf(m), '&');
    OnePart(m, "&");
  }

  lemma TwoPartsShow(atoms: seq<string>)
    requires |atoms| > 1
    ensures Join(atoms, " & ") != UNDEFINED
  {
    var p := Join(atoms, " & ");
    assert p[|atoms[0]| + 1] == " & "[1] == '&';
    assert forall c <- UNDEFINED :: c != '&';
  }

  /** A member prints as `undefined` only if that is what it is. */
  lemma UndefinedPrints(m: string)
    requires Fit(m) && AllSettled(TokensOf(m)) && MemberShape(m)
    ensures CanonicalIntersection(m).Some? && (CanonicalIntersection(m).value == UNDEFINED <==> m == UNDEFINED)
  {
    var parts := Split(m, "&").value;
    var atoms := StableAtoms(m);
    IntersectionIsAtoms(m);
    EachPrinted(parts, Atoms(), atoms);
    if m == UNDEFINED { UndefinedIsOnePart(m); }
    if |parts| == 1 {
      SingleOperand(m, atoms);
    } else {
      TwoPartsShow(atoms);
    }
  }

  lemma OneJoined(atoms: seq<string>, glue: string)
    requires |atoms| == 1
    ensures Join(atoms, glue) == atoms[0]
  {
  }

  lemma UndefinedIsCode()
    ensures forall c <- UNDEFINED :: !Quote(c) && !Opener(c)
  {
  }

  /** An atom prints as a word only if it is that word. */
  lemma AtomIsWord(m: string, atom: string, word: string)
    requires Fit(m) && AllSettled(TokensOf(m)) && CanonicalAtom(m) == Some(atom)
    requires forall c <- word :: !Quote(c) && !Opener(c)
    ensures atom == word <==> m == word
  {
    assert Similar(m, atom) by { SettledAtom(m); }
    SimilarWord(m, atom, word);
  }

  lemma SingleOperand(m: string, atoms: seq<string>)
    requires Fit(m) && AllSettled(TokensOf(m)) && Plain('&') !in TokensOf(m) && |atoms| == 1
    requires Split(m, "&").Some? && |Split(m, "&").value| == 1 && CanonicalAtom(Split(m, "&").value[0]) == Some(atoms[0])
    ensures Join(atoms, " & ") == UNDEFINED <==> m == UNDEFINED
  {
    OneJoined(atoms, " & ");
    assert CanonicalAtom(m) == Some(atoms[0]) by {
      FreeOfChar(TokensOf(m), '&');
      OnePart(m, "&");
    }
    UndefinedIsCode();
    AtomIsWord(m, atoms[0], UNDEFINED);
  }

  // ---------- members ----------

  predicate Conditional(t: string) {
    Split(t, " extends ").Some? && |Split(t, " extends ").value| > 1
  }

  predicate Optional(key: string) {
    EndsWith(Trim(key), '?')
  }

  /**
   A type, or a key and the type that is left without implied undefined.  Colons inside that type, as a
   conditional type has them, are between operands.
   */
  ghost predicate MemberOk(m: string) {
    && Fit(m) && Split(m, ":").Some? && Split(m, ":").value != []
    && var parts := Split(m, ":").value;
       if |parts| == 1 then TypeShape(parts[0])
       else
         var w := WithoutImpliedUndefined(parts[0], Join(parts[1..], ":"));
         w.Some? && TypeShape(w.value) && Tight(TokensOf(w.value))
  }

  const COLON := {':'}
  const MEMBER_GLUE := {' ', '&', '|', '=', '>', ':'}

  lemma ColonGlue()
    ensures Glue(":") && CharsIn(":", COLON) && Glue(": ") && CharsIn(": ", MEMBER_GLUE)
    ensures Glue(" | ") && CharsIn(" | ", BAR)
  {
    NotInExtends();
  }

  lemma NotInExtends()
    ensures ':' !in EXTENDS && ' ' !in EXTENDS && '|' !in EXTENDS
  {
  }

  /** The value of a member, joined again. */
  lemma ValueText(m: string)
    requires Fit(m) && AllSettled(TokensOf(m)) && Split(m, ":").Some? && |Split(m, ":").value| > 1
    ensures var parts := Split(m, ":").value;
            var v := Join(parts[1..], ":");
      && PartOf(parts[0], m) && Plain(':') !in TokensOf(parts[0]) && AllSettled(TokensOf(parts[0]))
      && MadeOf(v, m, COLON) && AllSettled(TokensOf(v))
  {
    SplitLacks(m, ':');
    ColonGlue();
    var parts := Split(m, ":").value;
    var values := parts[1..];
    SettledPart(parts[0], m);
    forall part | part in values
      ensures MadeOf(part, m, COLON) && AllSettled(TokensOf(part))
    {
      assert part in parts;
      SettledPart(part, m);
      KeepsMore(TokensOf(part), TokensOf(m), {}, COLON);
    }
    JoinMadeOf(values, ":", m, COLON);
    JoinSettled(values, ":");
  }

  lemma DefinedMadeOf(v: string)
    requires Fit(v) && Split(v, "|").Some? && Defined(Split(v, "|").value) != []
    ensures MadeOf(Join(Defined(Split(v, "|").value), " | "), v, BAR)
  {
    SplitLacks(v, '|');
    var members := Split(v, "|").value;
    DefinedFacts(members);
    ColonGlue();
    forall m | m in Defined(members)
      ensures MadeOf(m, v, BAR)
    {
      assert m in members;
      KeepsMore(TokensOf(m), TokensOf(v), {}, BAR);
    }
    JoinMadeOf(Defined(members), " | ", v, BAR);
  }

  lemma DefinedSettled(v: string)
    requires Fit(v) && AllSettled(TokensOf(v)) && Split(v, "|").Some? && Defined(Split(v, "|").value) != []
    ensures AllSettled(TokensOf(Join(Defined(Split(v, "|").value), " | ")))
  {
    SplitLacks(v, '|');
    var members := Split(v, "|").value;
    DefinedFacts(members);
    ColonGlue();
    forall m | m in Defined(members)
      ensures Fit(m) && AllSettled(TokensOf(m))
    {
      assert m in members;
      SettledPart(m, v);
    }
    JoinSettled(Defined(members), " | ");
  }

  /** What is left of a value without implied undefined. */
  lemma LeftOver(key: string, v: string)
    requires Fit(v) && AllSettled(TokensOf(v)) && WithoutImpliedUndefined(key, v).Some?
    ensures var w := WithoutImpliedUndefined(key, v).value;
      && MadeOf(w, v, BAR) && AllSettled(TokensOf(w)) && (!Optional(key) ==> w == v)
  {
    if WithoutImpliedUndefined(key, v).value != v {
      DefinedMadeOf(v);
      DefinedSettled(v);
    } else {
      KeepsMore(TokensOf(v), TokensOf(v), {}, BAR);
    }
  }

  /** Of the union that is left either no member or every member is undefined: leaving it out again changes nothing. */
  lemma LeftOverAgain(key: string, v: string)
    requires Fit(v) && WithoutImpliedUndefined(key, v).Some?
    ensures var w := WithoutImpliedUndefined(key, v).value;
      && WithoutImpliedUndefined(key, w) == Some(w)
      && (Optional(key) && Split(w, "=>").Some? && |Split(w, "=>").value| <= 1 ==>
            Split(w, "|").Some? && (Defined(Split(w, "|").value) == [] || Defined(Split(w, "|").value) == Split(w, "|").value))
  {
    var w := WithoutImpliedUndefined(key, v).value;
    if Optional(key) && |Split(v, "=>").value| <= 1 && Defined(Split(v, "|").value) != [] {
      DefinedMembers(v);
      DefinedFacts(Split(v, "|").value);
      DefinedFacts(Defined(Split(v, "|").value));
    }
  }

  lemma DefinedMembers(v: string)
    requires Fit(v) && Split(v, "|").Some?
    ensures Split(Join(Defined(Split(v, "|").value), " | "), "|") == Some(Defined(Split(v, "|").value))
  {
    SplitLacks(v, '|');
    var members := Split(v, "|").value;
    DefinedFacts(members);
    forall m | m in Defined(members)
      ensures Part(m, '|')
    {
      assert m in members;
    }
    assert " " + ['|'] + " " == " | ";
    SplitJoined(Defined(members), " ", '|', " ");
  }

  // ---------- members print stably ----------

  lemma UncutChar(xs: seq<Token>, c: char)
    requires Plain(c) !in xs
    ensures Uncut(xs + Plains(""), Plains([c]), [c])
  {
    assert xs + Plains("") == xs;
    forall k | 0 <= k < |xs|
      ensures !Occurs(xs[k..] + Plains([c]), [c])
    {
      assert (xs[k..] + Plains([c]))[0] == xs[k];
    }
  }

  lemma BlankBefore(v: string)
    requires Tokens(v).Some?
    ensures Tokens(" " + v).Some? && Split(" " + v, ":") == Split(v, ":")
  {
    assert (" " + v)[1..] == v;
    SplitLead(v, ":");
  }

  /** The parts of a printed member: its key, then those of its type. */
  lemma SplitColon(k: string, v: string)
    requires Fit(k) && Plain(':') !in TokensOf(k) && Fit(v)
    ensures Split(v, ":").Some? && Split(k + ": " + v, ":") == Some([k] + Split(v, ":").value)
  {
    BlankBefore(v);
    assert Split(k + "" + ":" + (" " + v), ":") == Some([k] + Split(" " + v, ":").value) by {
      UncutChar(TokensOf(k), ':');
      SplitHead(k, "", ":", " " + v);
    }
    assert k + "" + ":" + (" " + v) == k + ": " + v;
  }

  lemma KeyedMember(m: string, parts: seq<string>, key: string, w: string, v: string)
    requires Split(m, ":") == Some(parts) && |parts| > 1
    requires CanonicalAtom(parts[0]) == Some(key)
    requires WithoutImpliedUndefined(parts[0], Join(parts[1..], ":")) == Some(w) && CanonicalType(w) == Some(v)
    ensures CanonicalMember(m) == Some(key + ": " + v)
  {
  }

  lemma SameUndefined(members: seq<string>, printed: seq<string>)
    requires |members| == |printed|
    requires forall i :: 0 <= i < |members| ==> (printed[i] == UNDEFINED <==> members[i] == UNDEFINED)
    requires Defined(members) == [] || Defined(members) == members
    ensures Defined(Sort(printed)) == [] || Defined(Sort(printed)) == Sort(printed)
  {
    DefinedFacts(members);
    SortFacts(printed);
    DefinedFacts(Sort(printed));
    if Defined(members) == [] {
      forall x | x in printed
        ensures x == UNDEFINED
      {
        var i :| 0 <= i < |printed| && printed[i] == x;
        assert members[i] in members;
      }
    } else {
      forall x | x in printed
        ensures x != UNDEFINED
      {
        var i :| 0 <= i < |printed| && printed[i] == x;
        assert members[i] in Defined(members);
      }
    }
  }

  lemma PrintedUndefined(w: string, printed: seq<string>)
    requires Fit(w) && AllSettled(TokensOf(w)) && UnionShape(w)
    requires StableParts(Split(w, "|").value, Intersections(), printed, w, BAR, '|')
    ensures var members := Split(w, "|").value;
            forall i :: 0 <= i < |members| ==> (printed[i] == UNDEFINED <==> members[i] == UNDEFINED)
  {
    var members := Split(w, "|").value;
    SplitLacks(w, '|');
    forall i | 0 <= i < |members|
      ensures printed[i] == UNDEFINED <==> members[i] == UNDEFINED
    {
      assert members[i] in members;
      SettledPart(members[i], w);
      UndefinedPrints(members[i]);
    }
  }

  /** Without implied undefined once is without it for good. */
  lemma NothingImplied(k: string, w: string, v: string)
    requires TypeShape(w) && AllSettled(TokensOf(w)) && !Conditional(w)
    requires CanonicalType(w) == Some(v) && StableResult(w, v)
    requires |Split(w, "=>").value| <= 1 ==>
               Defined(Split(w, "|").value) == [] || Defined(Split(w, "|").value) == Split(w, "|").value
    ensures WithoutImpliedUndefined(k, v) == Some(v)
  {
    if |Split(w, "=>").value| <= 1 {
      OneResult(v);
      var printed := StableUnion(w);
      PrintedUndefined(w, printed);
      SameUndefined(Split(w, "|").value, printed);
      assert v == Join(Sort(printed), " | ") && Split(v, "|") == Some(Sort(printed));
    }
  }

  lemma SolidEndsStay(xs: seq<Token>)
    requires AllClosed(xs) && xs != [] && !Blank(xs[0]) && !Blank(xs[|xs| - 1])
    ensures Flat(xs) != "" && Trim(Flat(xs)) == Flat(xs)
  {
    TrimTokens(xs);
    assert Stripped(xs) == xs;
  }

  lemma TightCut(p: seq<Token>, rest: seq<Token>)
    requires Tight(p + [Plain(':')] + rest)
    ensures p != [] && !Blank(p[|p| - 1]) && rest != [] && !Blank(rest[0]) && Tight(rest)
  {
    var xs := p + [Plain(':')] + rest;
    assert xs[|p|] == Plain(':');
    assert p != [] && xs[|p| - 1] == p[|p| - 1] && xs[|p| + 1] == rest[0];
    SliceNeat(xs, |p| + 1, |xs|);
    assert xs[|p| + 1..|xs|] == rest;
  }

  /** Between tight colons nothing is empty and nothing is trimmed. */
  lemma {:induction false} TightPieces(ps: seq<seq<Token>>)
    requires ps != [] && AllClosed(Joined(ps, ":")) && Tight(Joined(ps, ":"))
    requires var xs := Joined(ps, ":"); xs != [] && !Blank(xs[0]) && !Blank(xs[|xs| - 1])
    ensures TrimmedNonEmpty(Texts(ps)) == Texts(ps)
    decreases |ps|
  {
    var xs, p := Joined(ps, ":"), ps[0];
    assert Texts(ps)[1..] == Texts(ps[1..]) && Texts(ps) == [Flat(p)] + Texts(ps[1..]);
    if |ps| == 1 {
      assert p == xs;
    } else {
      var rest := Joined(ps[1..], ":");
      assert xs == p + [Plain(':')] + rest by { assert Plains(":") == [Plain(':')]; }
      TightCut(p, rest);
      assert rest[|rest| - 1] == xs[|xs| - 1] && p[0] == xs[0];
      TightPieces(ps[1..]);
    }
    SolidEndsStay(p);
  }

  /** Text with tight colons, split at them and joined again, is the same text. */
  lemma TightRejoins(t: string)
    requires Fit(t) && Tight(TokensOf(t))
    ensures Split(t, ":").Some? && Split(t, ":").value != [] && Join(Split(t, ":").value, ":") == t
  {
    var xs := TokensOf(t);
    PiecesDivide(xs, ":");
    FitStart(t);
    FitEnd(t);
    TightPieces(Pieces(xs, ":"));
    PiecesRestoreText(t, ":");
  }

  lemma FitStart(t: string)
    requires Fit(t)
    ensures TokensOf(t) != [] && !Blank(TokensOf(t)[0])
  {
    TokensAreText(t);
    FirstCharacter(TokensOf(t));
    TrimmedEnds(t);
    FirstIsNotSpace(t);
  }

  lemma FitEnd(t: string)
    requires Fit(t)
    ensures TokensOf(t) != [] && !Blank(TokensOf(t)[|TokensOf(t)| - 1])
  {
    TokensAreText(t);
    LastBlank(TokensOf(t));
    TrimmedEnds(t);
    LastIsNotSpace(t);
  }

  lemma NoColon(p: string)
    requires Fit(p) && Plain(':') !in TokensOf(p)
    ensures Split(p, ":") == Some([p])
  {
    FreeOfChar(TokensOf(p), ':');
    OnePart(p, ":");
  }

  lemma OnlyType(m: string, t: string)
    requires Split(m, ":") == Some([t])
    ensures CanonicalMember(m) == CanonicalType(t)
  {
  }

  lemma TypeStuff(p: string, t: string, m: string)
    requires MadeOf(p, t, TYPE_GLUE) && PartOf(t, m) && Plain(':') !in TokensOf(t)
    ensures MadeOf(p, m, MEMBER_GLUE) && Plain(':') !in TokensOf(p)
  {
    MadeOfPart(p, t, m, TYPE_GLUE, MEMBER_GLUE);
  }

  lemma KeylessMember(m: string, t: string)
    requires Fit(m) && AllSettled(TokensOf(m)) && Split(m, ":") == Some([t]) && TypeShape(t)
    ensures CanonicalMember(m).Some?
    ensures var p := CanonicalMember(m).value; MadeOf(p, m, MEMBER_GLUE) && CanonicalMember(p) == Some(p)
  {
    assert PartOf(t, m) && Plain(':') !in TokensOf(t) by {
      SplitLacks(m, ':');
      assert t in Split(m, ":").value;
    }
    SettledPart(t, m);
    StableType(t);
    var p := CanonicalType(t).value;
    TypeStuff(p, t, m);
    assert Split(p, ":") == Some([p]) by { NoColon(p); }
    OnlyType(m, t);
    OnlyType(p, p);
  }

  /** Key and value of a member, printed: what is left to show for the whole. */
  ghost predicate ValuePrints(m: string, k: string, w: string, v: string)
    requires Split(m, ":").Some? && |Split(m, ":").value| > 1
  {
    var parts := Split(m, ":").value;
    && CanonicalAtom(parts[0]) == Some(k) && CanonicalAtom(k) == Some(k) && Similar(parts[0], k) && MadeOf(k, m, MEMBER_GLUE)
    && Plain(':') !in TokensOf(k)
    && WithoutImpliedUndefined(parts[0], Join(parts[1..], ":")) == Some(w) && AllSettled(TokensOf(w))
    && CanonicalType(w) == Some(v) && StableResult(w, v) && MadeOf(v, m, MEMBER_GLUE) && Tight(TokensOf(v))
  }

  lemma KeyPrints(m: string) returns (k: string)
    requires Fit(m) && AllSettled(TokensOf(m)) && Split(m, ":").Some? && |Split(m, ":").value| > 1
    ensures var key := Split(m, ":").value[0];
      && CanonicalAtom(key) == Some(k) && CanonicalAtom(k) == Some(k) && Similar(key, k)
      && MadeOf(k, m, MEMBER_GLUE) && Plain(':') !in TokensOf(k)
  {
    ValueText(m);
    var key := Split(m, ":").value[0];
    SettledAtom(key);
    k := CanonicalAtom(key).value;
    MadeOfPart(k, key, m, {}, MEMBER_GLUE);
  }

  lemma ValueStuff(v: string, w: string, value: string, m: string)
    requires MadeOf(v, w, TYPE_GLUE) && MadeOf(w, value, BAR) && MadeOf(value, m, COLON)
    ensures MadeOf(v, m, MEMBER_GLUE)
  {
    KeepsTransitive(TokensOf(v), TokensOf(w), TokensOf(value), TYPE_GLUE, BAR);
    KeepsTransitive(TokensOf(v), TokensOf(value), TokensOf(m), TYPE_GLUE + BAR, COLON);
    KeepsMore(TokensOf(v), TokensOf(m), TYPE_GLUE + BAR + COLON, MEMBER_GLUE);
  }

  /** The value without implied undefined prints stably. */
  lemma ValuePrint(m: string, key: string, value: string, w: string)
    requires MadeOf(value, m, COLON) && Fit(value) && AllSettled(TokensOf(value))
    requires WithoutImpliedUndefined(key, value) == Some(w) && TypeShape(w) && Tight(TokensOf(w))
    ensures AllSettled(TokensOf(w)) && CanonicalType(w).Some?
    ensures var v := CanonicalType(w).value; StableResult(w, v) && MadeOf(v, m, MEMBER_GLUE) && Tight(TokensOf(v))
  {
    assert MadeOf(w, value, BAR) && AllSettled(TokensOf(w)) by { LeftOver(key, value); }
    var v := PrintedType(w);
    assert Tight(TokensOf(v)) by { TightType(v, w); }
    assert MadeOf(v, m, MEMBER_GLUE) by { ValueStuff(v, w, value, m); }
  }

  lemma PrintedType(w: string) returns (v: string)
    requires TypeShape(w) && AllSettled(TokensOf(w))
    ensures CanonicalType(w) == Some(v) && StableResult(w, v) && MadeOf(v, w, TYPE_GLUE)
  {
    StableType(w);
    v := CanonicalType(w).value;
  }

  lemma TightType(v: string, w: string)
    requires MadeOf(v, w, TYPE_GLUE) && Tight(TokensOf(w))
    ensures Tight(TokensOf(v))
  {
    assert ':' !in TYPE_GLUE;
  }

  lemma KeyAndValuePrint(m: string) returns (k: string, w: string, v: string)
    requires MemberOk(m) && AllSettled(TokensOf(m)) && |Split(m, ":").value| > 1
    ensures ValuePrints(m, k, w, v)
  {
    k := KeyPrints(m);
    var key, value := Split(m, ":").value[0], Join(Split(m, ":").value[1..], ":");
    w := WithoutImpliedUndefined(key, value).value;
    assert MadeOf(value, m, COLON) && Fit(value) && AllSettled(TokensOf(value)) by { ValueText(m); }
    ValuePrint(m, key, value, w);
    v := CanonicalType(w).value;
  }

  /** The printed value, split off the printed member again, prints as it is. */
  lemma ValueAgain(m: string, k: string, w: string, v: string) returns (u: string)
    requires MemberOk(m) && AllSettled(TokensOf(m)) && |Split(m, ":").value| > 1 && ValuePrints(m, k, w, v)
    ensures Split(v, ":").Some? && Split(v, ":").value != []
    ensures WithoutImpliedUndefined(k, Join(Split(v, ":").value, ":")) == Some(u) && CanonicalType(u) == Some(v)
  {
    var key, value := Split(m, ":").value[0], Join(Split(m, ":").value[1..], ":");
    TightRejoins(v);
    ValueText(m);
    LeftOverAgain(key, value);
    if Conditional(w) {
      SimilarWithout(key, k, w, v);
      u := WithoutImpliedUndefined(k, v).value;
      SimilarType(w, u);
    } else {
      SimilarEnd(key, k);
      u := v;
      if Optional(k) { NothingImplied(k, w, v); }
    }
  }

  lemma StableKeyed(m: string)
    requires MemberOk(m) && AllSettled(TokensOf(m)) && |Split(m, ":").value| > 1
    ensures CanonicalMember(m).Some?
    ensures var p := CanonicalMember(m).value; MadeOf(p, m, MEMBER_GLUE) && CanonicalMember(p) == Some(p)
  {
    var k, w, v := KeyAndValuePrint(m);
    KeyedMember(m, Split(m, ":").value, k, w, v);
    ColonGlue();
    GluedMadeOf(k, ": ", v, m, MEMBER_GLUE);
    SplitColon(k, v);
    var u := ValueAgain(m, k, w, v);
    var rest := Split(v, ":").value;
    assert ([k] + rest)[1..] == rest;
    KeyedMember(k + ": " + v, [k] + rest, k, u, v);
  }

  /** A member prints stably, and of its own stuff. */
  lemma StableMemberText(m: string)
    requires MemberOk(m) && AllSettled(TokensOf(m))
    ensures CanonicalMember(m).Some?
    ensures var p := CanonicalMember(m).value; MadeOf(p, m, MEMBER_GLUE) && CanonicalMember(p) == Some(p)
  {
    if |Split(m, ":").value| == 1 {
      assert Split(m, ":").value == [Split(m, ":").value[0]];
      KeylessMember(m, Split(m, ":").value[0]);
    } else {
      StableKeyed(m);
    }
  }

  // ---------- groups ----------

  ghost predicate PartOk(open: char, part: string) {
    if open == '<' then TypeShape(part) else MemberOk(part)
  }

  /** Balanced text that splits into types or members. */
  ghost predicate GroupOk(open: char, inner: string) {
    && Tokens(inner).Some? && AllClosed(TokensOf(inner)) && Neat(TokensOf(inner))
    && Split(inner, SeparatorIn(open)).Some? && forall part <- Split(inner, SeparatorIn(open)).value :: PartOk(open, part)
  }

  function SeparatorChar(open: char): char {
    if open == '{' then ';' else ','
  }

  function PartPrinter(open: char): string -> Option<string> {
    (part: string) => PrintPart(open, part)
  }

  lemma StablePart(open: char, part: string)
    requires Fit(part) && PartOk(open, part) && AllSettled(TokensOf(part))
    ensures PrintPart(open, part).Some?
    ensures var p := PrintPart(open, part).value; MadeOf(p, part, MEMBER_GLUE) && PrintPart(open, p) == Some(p)
  {
    if open == '<' {
      StableType(part);
      assert TYPE_GLUE <= MEMBER_GLUE;
    } else {
      StableMemberText(part);
    }
  }

  lemma PartStuff(p: string, part: string, inner: string, c: char)
    requires MadeOf(p, part, MEMBER_GLUE) && PartOf(part, inner) && Plain(c) !in TokensOf(part) && (c == ';' || c == ',')
    ensures MadeOf(p, inner, MEMBER_GLUE) && Plain(c) !in TokensOf(p)
  {
    MadeOfPart(p, part, inner, MEMBER_GLUE, MEMBER_GLUE);
    assert c !in MEMBER_GLUE;
  }

  lemma StablePartOf(open: char, part: string, inner: string)
    requires PartOf(part, inner) && Plain(SeparatorChar(open)) !in TokensOf(part)
    requires PartOk(open, part) && AllSettled(TokensOf(inner))
    ensures PrintPart(open, part).Some?
    ensures var p := PrintPart(open, part).value;
      MadeOf(p, inner, MEMBER_GLUE) && Plain(SeparatorChar(open)) !in TokensOf(p) && PrintPart(open, p) == Some(p)
  {
    SettledPart(part, inner);
    StablePart(open, part);
    PartStuff(PrintPart(open, part).value, part, inner, SeparatorChar(open));
  }

  lemma PartsOfGroup(open: char, inner: string)
    requires GroupOk(open, inner)
    ensures forall part <- Split(inner, SeparatorIn(open)).value ::
              PartOf(part, inner) && Plain(SeparatorChar(open)) !in TokensOf(part)
  {
    if open == '{' { SplitLacks(inner, ';'); } else { SplitLacks(inner, ','); }
  }

  lemma StablePartsOf(open: char, inner: string) returns (printed: seq<string>)
    requires GroupOk(open, inner) && AllSettled(TokensOf(inner))
    ensures StableParts(Split(inner, SeparatorIn(open)).value, PartPrinter(open), printed, inner, MEMBER_GLUE, SeparatorChar(open))
  {
    PartsOfGroup(open, inner);
    var parts := Split(inner, SeparatorIn(open)).value;
    printed := seq(|parts|, i requires 0 <= i < |parts| => PrintPart(open, parts[i]).GetOr(""));
    forall i | 0 <= i < |parts|
      ensures PrintPart(open, parts[i]) == Some(printed[i]) && MadeOf(printed[i], inner, MEMBER_GLUE)
      ensures Plain(SeparatorChar(open)) !in TokensOf(printed[i]) && PrintPart(open, printed[i]) == Some(printed[i])
    {
      assert parts[i] in parts;
      StablePartOf(open, parts[i], inner);
    }
  }

  const GROUP_GLUE := {' ', '&', '|', '=', '>', ':', ';', ','}

  function GroupGlue(open: char): string {
    if open == '{' then "; " else ", "
  }

  lemma JoinedGroup(printed: seq<string>, inner: string, open: char)
    requires printed != []
    requires forall p <- printed :: MadeOf(p, inner, MEMBER_GLUE) && Plain(SeparatorChar(open)) !in TokensOf(p)
    ensures Fit(Join(printed, GroupGlue(open)))
    ensures Split(Join(printed, GroupGlue(open)), SeparatorIn(open)) == Some(printed)
  {
    assert MEMBER_GLUE <= GROUP_GLUE;
    forall p | p in printed
      ensures MadeOf(p, inner, GROUP_GLUE)
    {
    }
    assert "; " == "" + [';'] + " " && ", " == "" + [','] + " ";
    JoinedParts(printed, inner, GROUP_GLUE, " ", SeparatorChar(open), "", GroupGlue(open));
  }

  /** Settled text: closed, neat, and printing as itself in its group. */
  ghost predicate SettledInner(open: char, inner: string) {
    && Tokens(inner).Some? && AllClosed(TokensOf(inner)) && Neat(TokensOf(inner))
    && CanonicalGroup(open, inner) == Some(inner)
  }

  lemma EmptyGroup(open: char)
    ensures SettledInner(open, "")
  {
    SplitNothing(SeparatorIn(open));
    GroupIsParts(open, "");
    assert Mapped([], (part: string) => PrintPart(open, part)) == [];
  }

  lemma PrintedGroup(open: char, inner: string, parts: seq<string>, printed: seq<string>)
    requires Split(inner, SeparatorIn(open)) == Some(parts) && |parts| == |printed|
    requires forall i :: 0 <= i < |parts| ==> PrintPart(open, parts[i]) == Some(printed[i])
    ensures CanonicalGroup(open, inner) == Some(Join(if open == '{' then Sort(printed) else printed, GroupGlue(open)))
  {
    GroupIsParts(open, inner);
    EachPrinted(parts, (part: string) => PrintPart(open, part), printed);
  }

  lemma ShownGroup(open: char, inner: string, shown: seq<string>)
    requires shown != [] && (open == '{' ==> Sort(shown) == shown)
    requires forall p <- shown ::
               MadeOf(p, inner, MEMBER_GLUE) && Plain(SeparatorChar(open)) !in TokensOf(p) && PrintPart(open, p) == Some(p)
    ensures SettledInner(open, Join(shown, GroupGlue(open)))
  {
    JoinedGroup(shown, inner, open);
    PrintedGroup(open, Join(shown, GroupGlue(open)), shown, shown);
  }

  /** A group of stable parts prints as a settled text. */
  lemma StableGroup(open: char, inner: string)
    requires GroupOk(open, inner) && AllSettled(TokensOf(inner))
    ensures CanonicalGroup(open, inner).Some? && SettledInner(open, CanonicalGroup(open, inner).value)
  {
    var printed := StablePartsOf(open, inner);
    PrintedGroup(open, inner, Split(inner, SeparatorIn(open)).value, printed);
    var shown := if open == '{' then Sort(printed) else printed;
    SortFacts(printed);
    SortSorts(printed);
    SortedIsFixed(Sort(printed));
    if shown == [] { EmptyGroup(open); } else { ShownGroup(open, inner, shown); }
  }

  // ---------- every depth ----------

  function InnerOf(tok: Token): string
    requires IsGroup(tok)
  {
    tok.s[1..|tok.s| - 1]
  }

  lemma {:induction false} TokenWeight(xs: seq<Token>, tok: Token)
    requires tok in xs
    ensures NonSpace(TextOf(tok)) <= NonSpace(Flat(xs))
    decreases |xs|
  {
    NonSpaceAppend(TextOf(xs[0]), Flat(xs[1..]));
    if tok != xs[0] { TokenWeight(xs[1..], tok); }
  }

  lemma InnerWeight(t: string, tok: Token)
    requires Tokens(t).Some? && tok in TokensOf(t) && IsGroup(tok)
    ensures NonSpace(InnerOf(tok)) < NonSpace(t)
  {
    TokensAreText(t);
    TokenWeight(TokensOf(t), tok);
    GroupWeight(tok);
  }

  /** Every group in the text, at every depth, splits into types or members. */
  ghost predicate TidyGroups(t: string)
    decreases NonSpace(t)
  {
    Tokens(t).Some? && forall tok :: tok in TokensOf(t) && IsGroup(tok) ==>
      (InnerWeight(t, tok); GroupOk(tok.s[0], InnerOf(tok)) && TidyGroups(InnerOf(tok)))
  }

  /** So every group prints settled, from the inside out. */
  lemma {:induction false} TidyGroupsSettle(t: string)
    requires TidyGroups(t)
    ensures AllSettled(TokensOf(t))
    decreases NonSpace(t)
  {
    forall tok | tok in TokensOf(t)
      ensures Settled(tok)
    {
      if IsGroup(tok) {
        InnerWeight(t, tok);
        TidyGroupsSettle(InnerOf(tok));
        StableGroup(tok.s[0], InnerOf(tok));
      }
    }
  }

  // ---------- statements and declarations ----------

  /** A member, or a head and the type it names; outside brackets `=` comes only in `=>` and in one ` = `. */
  ghost predicate StatementShape(s: string) {
    && Split(s, " = ").Some?
    && var parts := Split(s, " = ").value;
       if |parts| <= 1 then MemberOk(s) && Pure(TokensOf(s))
       else
         && |parts| == 2 && Fit(parts[0]) && Pure(TokensOf(parts[0])) && TypeShape(parts[1]) && Pure(TokensOf(parts[1]))
         && Tokens(s).Some? && AllClosed(TokensOf(s))
  }

  /** Balanced text of well-formed statements and groups. */
  ghost predicate WellFormedDeclaration(d: string) {
    && Tokens(d).Some? && AllClosed(TokensOf(d)) && TidyGroups(d) && Split(d, ";").Some?
    && forall s <- Split(d, ";").value :: StatementShape(s)
  }

  lemma AssignmentAt(xs: seq<Token>, k: nat)
    requires k < |xs| && Occurs(xs[k..], " = ")
    ensures k + 2 < |xs| && xs[k + 1] == Plain('=') && xs[k + 2] == Plain(' ')
  {
    var word := " = ";
    assert xs[k..][1] == Plain(word[1]) && xs[k..][2] == Plain(word[2]);
  }

  /** Where every `=` heads `=>` nothing is assigned. */
  lemma NoAssignment(t: string)
    requires Fit(t) && Pure(TokensOf(t))
    ensures Split(t, " = ") == Some([t])
  {
    var xs := TokensOf(t);
    forall k | 0 <= k < |xs|
      ensures !Occurs(xs[k..], " = ")
    {
      if Occurs(xs[k..], " = ") {
        AssignmentAt(xs, k);
        assert false;
      }
    }
    OnePart(t, " = ");
  }

  lemma UncutAssignment(xs: seq<Token>)
    requires Pure(xs) && (xs != [] ==> xs[|xs| - 1] != Plain(' '))
    ensures Uncut(xs + Plains(""), Plains(" = "), " = ")
  {
    assert xs + Plains("") == xs;
    forall k | 0 <= k < |xs|
      ensures !Occurs(xs[k..] + Plains(" = "), " = ")
    {
      var all := xs[k..] + Plains(" = ");
      assert all[0] == xs[k] && " = "[0] == ' ' && " = "[1] == '=' && " = "[2] == ' ';
      if k + 1 < |xs| {
        assert all[1] == xs[k + 1];
        assert xs[k + 1] == Plain('=') ==> Arrow(xs, k + 1) && all[2] == xs[k + 2];
      }
    }
  }

  lemma SplitAssignment(a: string, t: string)
    requires Fit(a) && Pure(TokensOf(a)) && Fit(t) && Pure(TokensOf(t))
    ensures Split(a + " = " + t, " = ") == Some([a, t])
  {
    FitEnd(a);
    UncutAssignment(TokensOf(a));
    NoAssignment(t);
    SplitHead(a, "", " = ", t);
    assert a + "" == a && [a] + [t] == [a, t];
  }

  lemma Aliased(s: string, a: string, t: string, p: string, q: string)
    requires Split(s, " = ") == Some([a, t]) && CanonicalAtom(a) == Some(p) && CanonicalType(t) == Some(q)
    ensures CanonicalStatement(s) == Some(p + " = " + q)
  {
    assert [a, t][1..] == [t] && Join([t], " = ") == t;
  }

  lemma NotAliased(s: string, p: string)
    requires Split(s, " = ").Some? && |Split(s, " = ").value| <= 1 && CanonicalMember(s) == Some(p)
    ensures CanonicalStatement(s) == Some(p)
  {
  }

  /** A statement that is printed: a part of the declaration, stable. */
  ghost predicate StablePrinted(p: string) {
    Part(p, ';') && CanonicalStatement(p) == Some(p)
  }

  lemma StatementStuff(p: string, s: string)
    requires MadeOf(p, s, MEMBER_GLUE) && Plain(';') !in TokensOf(s)
    ensures Part(p, ';')
  {
    assert ';' !in MEMBER_GLUE;
  }

  lemma StableMemberStatement(s: string)
    requires StatementShape(s) && AllSettled(TokensOf(s)) && |Split(s, " = ").value| <= 1 && Plain(';') !in TokensOf(s)
    ensures CanonicalStatement(s).Some? && StablePrinted(CanonicalStatement(s).value)
  {
    StableMemberText(s);
    var p := CanonicalMember(s).value;
    StatementStuff(p, s);
    NotAliased(s, p);
    NoAssignment(p);
    NotAliased(p, p);
  }

  ghost predicate Among(p: seq<Token>, xs: seq<Token>) {
    forall x <- p :: x in xs
  }

  /** The tokens of the parts of a split are tokens of the text, wherever it is cut. */
  lemma {:induction false} KeptTokens(ps: seq<seq<Token>>, xs: seq<Token>)
    requires AllClosed(xs) && forall p <- ps :: Among(p, xs)
    ensures forall part <- TrimmedNonEmpty(Texts(ps)) :: Among(TokensOf(part), xs)
    decreases |ps|
  {
    if ps != [] {
      KeptTokens(ps[1..], xs);
      assert Texts(ps)[1..] == Texts(ps[1..]);
      assert ps[0] in ps;
      TrimTokens(ps[0]);
      TokensOfFlat(Stripped(ps[0]));
      StrippedInherits(ps[0]);
    }
  }

  lemma {:induction false} PiecesTokens(xs: seq<Token>, sep: string)
    requires sep != ""
    ensures forall p <- Pieces(xs, sep) :: Among(p, xs)
    decreases |xs|
  {
    if xs != [] {
      var n := if Occurs(xs, sep) then |sep| else 1;
      var ps := Pieces(xs[n..], sep);
      PiecesTokens(xs[n..], sep);
      forall p | p in ps
        ensures Among(p, xs)
      {
        assert Among(p, xs[n..]);
      }
      assert Among([xs[0]] + ps[0], xs) by { assert ps[0] in ps; }
    }
  }

  lemma SplitTokens(t: string, sep: string)
    requires Tokens(t).Some? && AllClosed(TokensOf(t)) && sep != ""
    ensures Split(t, sep).Some? && forall part <- Split(t, sep).value :: Among(TokensOf(part), TokensOf(t))
  {
    PiecesTokens(TokensOf(t), sep);
    KeptTokens(Pieces(TokensOf(t), sep), TokensOf(t));
  }

  lemma AliasLacks(p: string, q: string, a: string, t: string)
    requires MadeOf(p, a, {}) && MadeOf(q, t, TYPE_GLUE) && Plain(';') !in TokensOf(a) && Plain(';') !in TokensOf(t)
    ensures Part(p + " = " + q, ';')
  {
    assert forall c <- " = " :: !Quote(c) && !Opener(c);
    AliasTokens(p, q);
  }

  lemma AssignmentGlue()
    ensures AllClosed(Plains(" = ")) && Flat(Plains(" = ")) == " = "
  {
    FlatPlains(" = ");
  }

  /** An assignment is closed and trimmed, though not neat. */
  lemma AliasTokens(p: string, q: string)
    requires Fit(p) && Fit(q)
    ensures var s := p + " = " + q;
      && s != "" && Trim(s) == s && Tokens(s) == Some(TokensOf(p) + Plains(" = ") + TokensOf(q)) && AllClosed(TokensOf(s))
  {
    GluedTrim(p, " = ", q);
    var xs, ys := TokensOf(p), TokensOf(q);
    var all := xs + Plains(" = ") + ys;
    assert Flat(all) == p + " = " + q && AllClosed(all) by {
      AssignmentGlue();
      TokensAreText(p);
      TokensAreText(q);
      FlatThree(xs, Plains(" = "), ys);
    }
    TokensOfFlat(all);
  }

  lemma GluedTrim(a: string, g: string, b: string)
    requires a != "" && Trim(a) == a && b != "" && Trim(b) == b
    ensures Trim(a + g + b) == a + g + b
  {
    TrimmedEnds(a);
    TrimmedEnds(b);
    FirstIsNotSpace(a);
    LastIsNotSpace(b);
    assert (a + g + b)[0] == a[0] && (a + g + b)[|a + g + b| - 1] == b[|b| - 1];
  }

  lemma StableAlias(s: string, a: string, t: string)
    requires StatementShape(s) && AllSettled(TokensOf(s)) && Split(s, " = ") == Some([a, t]) && Plain(';') !in TokensOf(s)
    ensures CanonicalStatement(s).Some? && StablePrinted(CanonicalStatement(s).value)
  {
    SplitTokens(s, " = ");
    assert a in [a, t] && t in [a, t];
    SettledAtom(a);
    StableType(t);
    var p, q := CanonicalAtom(a).value, CanonicalType(t).value;
    Aliased(s, a, t, p, q);
    AliasLacks(p, q, a, t);
    SplitAssignment(p, q);
    Aliased(p + " = " + q, p, q, p, q);
  }

  lemma StableStatement(s: string)
    requires StatementShape(s) && AllSettled(TokensOf(s)) && Plain(';') !in TokensOf(s)
    ensures CanonicalStatement(s).Some? && StablePrinted(CanonicalStatement(s).value)
  {
    var parts := Split(s, " = ").value;
    if |parts| <= 1 {
      StableMemberStatement(s);
    } else {
      assert parts == [parts[0], parts[1]];
      StableAlias(s, parts[0], parts[1]);
    }
  }

  function Statements(): string -> Option<string> { (s: string) => CanonicalStatement(s) }

  lemma DeclarationIsStatements(d: string, parts: seq<string>)
    requires Split(d, ";") == Some(parts)
    ensures CanonicalDeclaration(d) ==
      match AllSome(Mapped(parts, Statements())) case None => None case Some(printed) => Some(Join(printed, ";\n"))
  {
    assert Mapped(parts, Statements()) == seq(|parts|, i requires 0 <= i < |parts| => CanonicalStatement(parts[i]));
  }

  lemma PrintedDeclaration(d: string, parts: seq<string>, printed: seq<string>)
    requires Split(d, ";") == Some(parts) && |parts| == |printed|
    requires forall i :: 0 <= i < |parts| ==> CanonicalStatement(parts[i]) == Some(printed[i])
    ensures CanonicalDeclaration(d) == Some(Join(printed, ";\n"))
  {
    DeclarationIsStatements(d, parts);
    assert AllSome(Mapped(parts, Statements())) == Some(printed) by { EachPrinted(parts, Statements(), printed); }
  }

  lemma StatementsLack(d: string)
    requires Tokens(d).Some? && AllClosed(TokensOf(d))
    ensures Split(d, ";").Some? && forall s <- Split(d, ";").value :: Plain(';') !in TokensOf(s)
  {
    PiecesDivide(TokensOf(d), ";");
    PiecesInherit(Pieces(TokensOf(d), ";"), ";");
    PiecesLack(TokensOf(d), ';');
    KeptLack(Pieces(TokensOf(d), ";"), ';');
  }

  lemma StatementsSettled(d: string)
    requires WellFormedDeclaration(d)
    ensures forall s <- Split(d, ";").value :: AllSettled(TokensOf(s))
  {
    TidyGroupsSettle(d);
    SplitTokens(d, ";");
    forall s | s in Split(d, ";").value
      ensures AllSettled(TokensOf(s))
    {
      assert Among(TokensOf(s), TokensOf(d));
    }
  }

  lemma StableStatements(parts: seq<string>) returns (printed: seq<string>)
    requires forall s <- parts :: StatementShape(s) && AllSettled(TokensOf(s)) && Plain(';') !in TokensOf(s)
    ensures |parts| == |printed| && forall i :: 0 <= i < |parts| ==> CanonicalStatement(parts[i]) == Some(printed[i])
    ensures forall i :: 0 <= i < |printed| ==> StablePrinted(printed[i])
  {
    printed := seq(|parts|, i requires 0 <= i < |parts| => CanonicalStatement(parts[i]).GetOr(""));
    forall i | 0 <= i < |parts|
      ensures CanonicalStatement(parts[i]) == Some(printed[i]) && StablePrinted(printed[i])
    {
      assert parts[i] in parts;
      StableStatement(parts[i]);
    }
  }

  lemma StatementGlue()
    ensures ";\n" == "" + [';'] + "\n" && AllBlank("\n") && AllBlank("")
  {
  }

  lemma SplitStatements(printed: seq<string>)
    requires forall p <- printed :: Part(p, ';')
    ensures Split(Join(printed, ";\n"), ";") == Some(printed)
  {
    StatementGlue();
    SplitJoined(printed, "\n", ';', "");
  }

  lemma PrintedStatement(p: string)
    requires StablePrinted(p)
    ensures Part(p, ';') && CanonicalStatement(p) == Some(p)
  {
  }

  /** Printed statements, joined, are a declaration that prints as itself. */
  lemma DeclarationAgain(printed: seq<string>)
    requires forall i :: 0 <= i < |printed| ==> StablePrinted(printed[i])
    ensures CanonicalDeclaration(Join(printed, ";\n")) == Some(Join(printed, ";\n"))
  {
    forall i | 0 <= i < |printed|
      ensures Part(printed[i], ';') && CanonicalStatement(printed[i]) == Some(printed[i])
    {
      PrintedStatement(printed[i]);
    }
    SplitStatements(printed);
    PrintedDeclaration(Join(printed, ";\n"), printed, printed);
  }

  /** The canonical form of a well-formed declaration is its own canonical form. */
  lemma CanonicalIsIdempotent(d: string)
    requires WellFormedDeclaration(d)
    ensures CanonicalDeclaration(d).Some?
    ensures CanonicalDeclaration(CanonicalDeclaration(d).value) == CanonicalDeclaration(d)
  {
    StatementsLack(d);
    StatementsSettled(d);
    var parts := Split(d, ";").value;
    var printed := StableStatements(parts);
    PrintedDeclaration(d, parts, printed);
    DeclarationAgain(printed);
  }
}
