/**
 The canonical form of type text: object members and unions sorted, implied `undefined` dropped, at any depth.

 A text is taken after its white space was collapsed and its local import specifiers replaced.
 None is the source's "unbalanced" error.
 */
module TypeText {
  import opened Wrappers
  import opened TypeScan

  // ---------- strings ----------

  function Join(parts: seq<string>, glue: string): string {
    if parts == [] then "" else if |parts| == 1 then parts[0] else parts[0] + glue + Join(parts[1..], glue)
  }

  predicate EndsWith(s: string, c: char) {
    s != "" && s[|s| - 1] == c
  }

  predicate AtMost(a: string, b: string) {
    a == "" || (b != "" && (a[0] < b[0] || (a[0] == b[0] && AtMost(a[1..], b[1..]))))
  }

  function Insert(x: string, s: seq<string>): seq<string> {
    if s == [] then [x] else if AtMost(x, s[0]) then [x] + s else [s[0]] + Insert(x, s[1..])
  }

  function Sort(s: seq<string>): seq<string> {
    if s == [] then [] else Insert(s[0], Sort(s[1..]))
  }

  function AllSome<T>(rs: seq<Option<T>>): (r: Option<seq<T>>) {
    if rs == [] then Some([])
    else
      match (rs[0], AllSome(rs[1..]))
      case (Some(x), Some(xs)) => Some([x] + xs)
      case _ => None
  }

  // ---------- the measure ----------

  /** Characters that no trimming or rejoining can add. */
  function NonSpace(s: string): nat {
    if s == "" then 0 else (if Space(s[0]) then 0 else 1) + NonSpace(s[1..])
  }

  lemma {:induction false} NonSpaceAppend(a: string, b: string)
    ensures NonSpace(a + b) == NonSpace(a) + NonSpace(b)
    decreases |a|
  {
    if a == "" {
      assert a + b == b;
    } else {
      NonSpaceAppend(a[1..], b);
      assert (a + b)[1..] == a[1..] + b;
    }
  }

  lemma {:induction false} NonSpaceTrimLeft(s: string)
    ensures NonSpace(TrimLeft(s)) == NonSpace(s) && (TrimLeft(s) != "" ==> !Space(TrimLeft(s)[0]))
    decreases |s|
  {
    if s != "" && Space(s[0]) { NonSpaceTrimLeft(s[1..]); }
  }

  lemma {:induction false} NonSpaceTrimRight(s: string)
    ensures NonSpace(TrimRight(s)) == NonSpace(s)
    ensures s != "" && !Space(s[0]) ==> TrimRight(s) != "" && TrimRight(s)[0] == s[0]
    decreases |s|
  {
    if s != "" && Space(s[|s| - 1]) {
      NonSpaceTrimRight(s[..|s| - 1]);
      assert s == s[..|s| - 1] + [s[|s| - 1]];
      NonSpaceAppend(s[..|s| - 1], [s[|s| - 1]]);
    }
  }

  lemma NonSpaceTrim(s: string)
    ensures NonSpace(Trim(s)) == NonSpace(s) && (Trim(s) != "" ==> NonSpace(s) > 0)
  {
    NonSpaceTrimLeft(s);
    NonSpaceTrimRight(TrimLeft(s));
  }

  /** The weight of parts that are each followed by a separator of weight `g`. */
  function Weight(parts: seq<string>, g: nat): nat {
    if parts == [] then 0 else NonSpace(parts[0]) + g + Weight(parts[1..], g)
  }

  lemma {:induction false} PartWeight(parts: seq<string>, g: nat, part: string)
    requires part in parts
    ensures NonSpace(part) + g <= Weight(parts, g)
    decreases |parts|
  {
    if part != parts[0] { PartWeight(parts[1..], g, part); }
  }

  lemma {:induction false} JoinWeight(parts: seq<string>, glue: string)
    requires parts != []
    ensures NonSpace(Join(parts, glue)) + NonSpace(glue) == Weight(parts, NonSpace(glue))
    decreases |parts|
  {
    if |parts| > 1 {
      JoinWeight(parts[1..], glue);
      NonSpaceAppend(parts[0] + glue, Join(parts[1..], glue));
      NonSpaceAppend(parts[0], glue);
    } else {
      assert Weight(parts[1..], NonSpace(glue)) == 0;
    }
  }

  lemma {:induction false} KeptWeight(parts: seq<string>, g: nat)
    ensures Weight(TrimmedNonEmpty(parts), g) <= Weight(parts, g)
    ensures forall part <- TrimmedNonEmpty(parts) :: NonSpace(part) > 0
    decreases |parts|
  {
    if parts != [] {
      KeptWeight(parts[1..], g);
      NonSpaceTrim(parts[0]);
      var part, rest := Trim(parts[0]), TrimmedNonEmpty(parts[1..]);
      assert ([part] + rest)[1..] == rest && [] + rest == rest;
    }
  }

  /** Joining the pieces with their separator restores the text. */
  lemma {:induction false} JoinedText(ps: seq<seq<Token>>, sep: string)
    requires ps != []
    ensures Flat(Joined(ps, sep)) == Join(Texts(ps), sep)
    decreases |ps|
  {
    FlatAppend(ps[0] + Next(ps, sep), Joined(ps[1..], sep));
    FlatAppend(ps[0], Next(ps, sep));
    if |ps| > 1 {
      JoinedText(ps[1..], sep);
      FlatPlains(sep);
      assert Texts(ps)[1..] == Texts(ps[1..]);
    } else {
      assert Flat(ps[0]) + "" + "" == Flat(ps[0]);
    }
  }

  lemma PiecesRestoreText(text: string, sep: string)
    requires sep != "" && RawPieces(text, sep).Some?
    ensures Join(RawPieces(text, sep).value, sep) == text
  {
    var xs := Tokens(text).value;
    TokensAreText(text);
    PiecesDivide(xs, sep);
    JoinedText(Pieces(xs, sep), sep);
  }

  lemma SplitWeight(text: string, sep: string)
    requires sep != "" && Split(text, sep).Some?
    ensures var parts := Split(text, sep).value;
      && Weight(parts, NonSpace(sep)) <= NonSpace(text) + NonSpace(sep)
      && forall part <- parts :: 0 < NonSpace(part) <= NonSpace(text)
  {
    var raw, parts := RawPieces(text, sep).value, Split(text, sep).value;
    PiecesRestoreText(text, sep);
    JoinWeight(raw, sep);
    KeptWeight(raw, NonSpace(sep));
    forall part | part in parts
      ensures NonSpace(part) <= NonSpace(text)
    {
      PartWeight(parts, NonSpace(sep), part);
    }
  }

  /** Everything after the first part weighs less than the text. */
  lemma TailWeight(text: string, sep: string)
    requires sep != "" && Split(text, sep).Some? && |Split(text, sep).value| > 1
    ensures NonSpace(Join(Split(text, sep).value[1..], sep)) < NonSpace(text)
  {
    SplitWeight(text, sep);
    JoinWeight(Split(text, sep).value[1..], sep);
  }

  // ---------- implied undefined ----------

  function Defined(members: seq<string>): seq<string> {
    if members == [] then []
    else (if members[0] == "undefined" then [] else [members[0]]) + Defined(members[1..])
  }

  lemma {:induction false} DefinedWeight(members: seq<string>, g: nat)
    ensures Weight(Defined(members), g) <= Weight(members, g)
    decreases |members|
  {
    if members != [] {
      DefinedWeight(members[1..], g);
      var rest := Defined(members[1..]);
      assert ([members[0]] + rest)[1..] == rest && [] + rest == rest;
    }
  }

  /** An optional member that is not a function loses `undefined` from its union, unless nothing else is there. */
  function WithoutImpliedUndefined(key: string, value: string): (r: Option<string>)
    ensures r.Some? ==> NonSpace(r.value) <= NonSpace(value)
  {
    if !EndsWith(Trim(key), '?') then Some(value)
    else
      match Split(value, "=>")
      case None => None
      case Some(arrow) =>
        if |arrow| > 1 then Some(value)
        else
          match Split(value, "|")
          case None => None
          case Some(members) =>
            var defined := Defined(members);
            if defined == [] then Some(value)
            else
              SplitWeight(value, "|");
              DefinedWeight(members, 1);
              JoinWeight(defined, " | ");
              assert NonSpace("|") == 1 && NonSpace(" | ") == 1;
              Some(Join(defined, " | "))
  }

  // ---------- the canonical printer ----------

  lemma GroupWeight(tok: Token)
    requires tok.Solid? && |tok.s| >= 2 && Opener(tok.s[0])
    ensures NonSpace(tok.s[1..|tok.s| - 1]) < NonSpace(tok.s)
  {
    var s := tok.s;
    assert s[1..] == s[1..|s| - 1] + [s[|s| - 1]];
    NonSpaceAppend(s[1..|s| - 1], [s[|s| - 1]]);
  }

  predicate IsGroup(tok: Token) {
    tok.Solid? && |tok.s| >= 2 && Opener(tok.s[0])
  }

  function Print(tok: Token): Option<string>
    decreases NonSpace(TextOf(tok)), 0
  {
    if !IsGroup(tok) then Some(TextOf(tok))
    else
      GroupWeight(tok);
      match CanonicalGroup(tok.s[0], tok.s[1..|tok.s| - 1])
      case None => None
      case Some(inner) => Some([tok.s[0]] + inner + [CloserOf(tok.s[0])])
  }

  function PrintAll(xs: seq<Token>): Option<string>
    decreases NonSpace(Flat(xs)), 1, |xs|
  {
    if xs == [] then Some("")
    else
      NonSpaceAppend(TextOf(xs[0]), Flat(xs[1..]));
      match (Print(xs[0]), PrintAll(xs[1..]))
      case (Some(first), Some(rest)) => Some(first + rest)
      case _ => None
  }

  function CanonicalAtom(text: string): Option<string>
    decreases NonSpace(text), 2
  {
    TokensAreText(text);
    match Tokens(text)
    case None => None
    case Some(xs) =>
      match PrintAll(xs)
      case None => None
      case Some(printed) => Some(Trim(printed))
  }

  function CanonicalIntersection(text: string): Option<string>
    decreases NonSpace(text), 3
  {
    match Split(text, "&")
    case None => None
    case Some(parts) =>
      SplitWeight(text, "&");
      match AllSome(seq(|parts|, i requires 0 <= i < |parts| => CanonicalAtom(parts[i])))
      case None => None
      case Some(atoms) => Some(Join(atoms, " & "))
  }

  function CanonicalUnion(text: string): Option<string>
    decreases NonSpace(text), 4
  {
    match Split(text, "|")
    case None => None
    case Some(members) =>
      SplitWeight(text, "|");
      match AllSome(seq(|members|, i requires 0 <= i < |members| => CanonicalIntersection(members[i])))
      case None => None
      case Some(printed) => Some(Join(Sort(printed), " | "))
  }

  function CanonicalType(text: string): Option<string>
    decreases NonSpace(text), 5
  {
    match (Split(text, " extends "), Split(text, "=>"))
    case (Some(clauses), Some(arrow)) =>
      if |clauses| > 1 then CanonicalAtom(text)
      else if |arrow| > 1 then
        SplitWeight(text, "=>");
        TailWeight(text, "=>");
        match (CanonicalAtom(arrow[0]), CanonicalType(Join(arrow[1..], "=>")))
        case (Some(parameters), Some(returned)) => Some(parameters + " => " + returned)
        case _ => None
      else CanonicalUnion(text)
    case _ => None
  }

  function CanonicalMember(text: string): Option<string>
    decreases NonSpace(text), 6
  {
    match Split(text, ":")
    case None => None
    case Some(parts) =>
      SplitWeight(text, ":");
      if parts == [] then CanonicalType("")
      else if |parts| == 1 then CanonicalType(parts[0])
      else
        TailWeight(text, ":");
        match (CanonicalAtom(parts[0]), WithoutImpliedUndefined(parts[0], Join(parts[1..], ":")))
        case (Some(key), Some(value)) =>
          (match CanonicalType(value)
           case None => None
           case Some(canonical) => Some(key + ": " + canonical))
        case _ => None
  }

  function CanonicalGroup(open: char, inner: string): Option<string>
    decreases NonSpace(inner), 7
  {
    match Split(inner, if open == '{' then ";" else ",")
    case None => None
    case Some(parts) =>
      SplitWeight(inner, if open == '{' then ";" else ",");
      match AllSome(seq(|parts|, i requires 0 <= i < |parts| =>
                          if open == '<' then CanonicalType(parts[i]) else CanonicalMember(parts[i])))
      case None => None
      case Some(printed) => Some(if open == '{' then Join(Sort(printed), "; ") else Join(printed, ", "))
  }

  function CanonicalStatement(text: string): Option<string> {
    match Split(text, " = ")
    case None => None
    case Some(parts) =>
      if |parts| <= 1 then CanonicalMember(text)
      else
        match (CanonicalAtom(parts[0]), CanonicalType(Join(parts[1..], " = ")))
        case (Some(head), Some(aliased)) => Some(head + " = " + aliased)
        case _ => None
  }

  function CanonicalDeclaration(located: string): Option<string> {
    match Split(located, ";")
    case None => None
    case Some(parts) =>
      match AllSome(seq(|parts|, i requires 0 <= i < |parts| => CanonicalStatement(parts[i])))
      case None => None
      case Some(statements) => Some(Join(statements, ";\n"))
  }

  // ---------- the atom printer as a loop ----------

  function PrintText(text: string): Option<string> {
    match Tokens(text)
    case None => None
    case Some(xs) => PrintAll(xs)
  }

  function Onto(printed: string, rest: Option<string>): Option<string> {
    if rest.None? then None else Some(printed + rest.value)
  }

  lemma PrintFirst(text: string, n: nat)
    requires TokenLength(text, n)
    ensures PrintText(text) ==
      match Print(FirstOf(text, n)) case None => None case Some(printed) => Onto(printed, PrintText(text[n..]))
  {
    FirstTokenIsPrepended(text, n);
    var tok := FirstOf(text, n);
    if Tokens(text[n..]).Some? {
      var xs := Tokens(text[n..]).value;
      assert ([tok] + xs)[1..] == xs;
    }
  }

  /** What the loop keeps: the text prints as what is printed so far, then the rest. */
  ghost predicate PrintedSoFar(text: string, at: nat, printed: string) {
    at <= |text| && PrintText(text) == Onto(printed, PrintText(text[at..]))
  }

  lemma PrintNext(text: string, at: nat, printed: string, past: nat, more: string)
    requires PrintedSoFar(text, at, printed) && at < past <= |text| && TokenLength(text[at..], past - at)
    requires Print(FirstOf(text[at..], past - at)) == Some(more)
    ensures PrintedSoFar(text, past, printed + more)
  {
    PrintFirst(text[at..], past - at);
    assert text[at..][past - at..] == text[past..];
    if PrintText(text[past..]).Some? { Associative(printed, more, PrintText(text[past..]).value); }
  }

  lemma PrintFails(text: string, at: nat, printed: string, past: nat)
    requires PrintedSoFar(text, at, printed) && at < past <= |text| && TokenLength(text[at..], past - at)
    requires Print(FirstOf(text[at..], past - at)) == None
    ensures CanonicalAtom(text) == None
  {
    PrintFirst(text[at..], past - at);
  }

  lemma GroupLength(text: string, n: nat)
    requires TokenLength(text, n) && Opener(text[0])
    ensures n >= 2
  {
    assert After(text, 0) == Code(0) && After(text, 1) == Step(text, 0, Code(0));
  }

  /** A quoted text is copied, a group is printed canonically. */
  method PrintSolid(text: string, index: nat, past: nat) returns (printed: Option<string>)
    requires index < past <= |text| && Opens(text[index..]) && TokenLength(text[index..], past - index)
    ensures printed == Print(FirstOf(text[index..], past - index))
  {
    var c := text[index];
    var solid := text[index..past];
    assert FirstOf(text[index..], past - index) == Solid(solid);
    if Quote(c) { return Some(solid); }
    GroupLength(text[index..], past - index);
    var inner := CanonicalGroup(c, text[index + 1..past - 1]);
    assert solid[1..|solid| - 1] == text[index + 1..past - 1];
    return if inner.None? then None else Some([c] + inner.value + [CloserOf(c)]);
  }

  lemma AllPrinted(text: string, printed: string)
    requires PrintedSoFar(text, |text|, printed)
    ensures CanonicalAtom(text) == Some(Trim(printed))
  {
    assert text[|text|..] == "" && printed + "" == printed;
  }

  lemma PlainNext(text: string, at: nat, printed: string)
    requires PrintedSoFar(text, at, printed) && at < |text| && !Opens(text[at..])
    ensures PrintedSoFar(text, at + 1, printed + [text[at]])
  {
    PrintNext(text, at, printed, at + 1, [text[at]]);
  }

  lemma CannotPrint(text: string, at: nat, printed: string)
    requires PrintedSoFar(text, at, printed) && PrintText(text[at..]) == None
    ensures CanonicalAtom(text) == None
  {
  }

  method PrintAtom(text: string) returns (r: Option<string>)
    ensures r == CanonicalAtom(text)
  {
    var canonical := "";
    var index: nat := 0;
    assert text[0..] == text && (PrintText(text).Some? ==> "" + PrintText(text).value == PrintText(text).value);
    while index < |text|
      invariant PrintedSoFar(text, index, canonical)
      decreases |text| - index
    {
      if !Quote(text[index]) && !Opener(text[index]) {
        PlainNext(text, index, canonical);
        canonical := canonical + [text[index]];
        index := index + 1;
      } else {
        var past := SkipSolid(text, index);
        if past.None? {
          CannotPrint(text, index, canonical);
          return None;
        }
        var printed := PrintSolid(text, index, past.value);
        if printed.None? {
          PrintFails(text, index, canonical, past.value);
          return None;
        }
        PrintNext(text, index, canonical, past.value, printed.value);
        canonical := canonical + printed.value;
        index := past.value;
      }
    }
    AllPrinted(text, canonical);
    return Some(Trim(canonical));
  }
}
