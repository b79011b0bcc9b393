/**
 Reading type text: quotes, brackets, and splitting at separators outside both.
 */
module TypeScan {
  import opened Wrappers

  predicate Quote(c: char) { c == '"' || c == '\'' || c == '`' }

  predicate Opener(c: char) { c == '{' || c == '<' || c == '(' || c == '[' }

  predicate Closer(c: char) { c == '}' || c == '>' || c == ')' || c == ']' }

  /** Three quotes, and four brackets with their own closing ones. */
  lemma CharacterClasses(c: char)
    ensures Quote(c) <==> c in "\"'`"
    ensures Opener(c) <==> c in "{<(["
    ensures Closer(c) <==> c in "}>)]"
    ensures Opener(c) ==> [c, CloserOf(c)] in ["{}", "<>", "()", "[]"]
  {
  }

  function CloserOf(open: char): char
    requires Opener(open)
  {
    match open
    case '{' => '}'
    case '<' => '>'
    case '(' => ')'
    case _ => ']'
  }

  predicate Opens(s: string) {
    s != "" && (Quote(s[0]) || Opener(s[0]))
  }

  /** The head of `=>` closes nothing. */
  predicate ArrowHead(s: string, i: int)
    requires 0 <= i < |s|
  {
    s[i] == '>' && i > 0 && s[i - 1] == '='
  }

  // ---------- one character at a time ----------

  /** In code at a bracket depth, inside a quoted text, or after a backslash in one. */
  datatype Mode = Code(depth: int) | Text(quote: char, depth: int) | Escaped(quote: char, depth: int)

  function Step(s: string, i: nat, mode: Mode): Mode
    requires i < |s|
  {
    match mode
    case Escaped(q, d) => Text(q, d)
    case Text(q, d) => if s[i] == q then Code(d) else if s[i] == '\\' then Escaped(q, d) else mode
    case Code(d) =>
      if Quote(s[i]) then Text(s[i], d)
      else if ArrowHead(s, i) then mode
      else if Opener(s[i]) then Code(d + 1)
      else if Closer(s[i]) then Code(d - 1)
      else mode
  }

  /** Where reading the first `n` characters leads. */
  function After(s: string, n: nat): Mode
    requires n <= |s|
  {
    if n == 0 then Code(0) else Step(s, n - 1, After(s, n - 1))
  }

  /** A quote or bracket opened at the start is closed again, for the first time, at `j`. */
  ghost predicate ClosesAt(s: string, j: nat) {
    j < |s| && After(s, j + 1) == Code(0) && forall n :: 0 < n <= j ==> After(s, n) != Code(0)
  }

  function CloseFrom(s: string, from: nat): (r: Option<nat>)
    requires from <= |s| && forall n :: 0 < n <= from ==> After(s, n) != Code(0)
    ensures r.Some? ==> ClosesAt(s, r.value) && After(s, r.value + 1) == Code(0)
    ensures r.None? ==> forall n :: 0 < n <= |s| ==> After(s, n) != Code(0)
    decreases |s| - from
  {
    if from == |s| then None
    else if After(s, from + 1) == Code(0) then Some(from)
    else CloseFrom(s, from + 1)
  }

  function FirstClose(s: string): (r: Option<nat>)
    ensures r.Some? ==> ClosesAt(s, r.value) && After(s, r.value + 1) == Code(0)
    ensures r.None? ==> forall n :: 0 < n <= |s| ==> After(s, n) != Code(0)
  {
    CloseFrom(s, 0)
  }

  lemma CloseIsFirst(s: string, j: nat)
    requires ClosesAt(s, j)
    ensures FirstClose(s) == Some(j)
  {
    var r := FirstClose(s);
    assert After(s, j + 1) == Code(0);
    if r.Some? {
      assert After(s, r.value + 1) == Code(0);
    }
  }

  /** Only the characters read matter. */
  lemma {:induction false} AfterIsLocal(s: string, u: string, n: nat)
    requires n <= |s| && n <= |u| && s[..n] == u[..n]
    ensures After(s, n) == After(u, n)
    decreases n
  {
    if n > 0 {
      assert s[..n - 1] == s[..n][..n - 1] && u[..n - 1] == u[..n][..n - 1];
      AfterIsLocal(s, u, n - 1);
      assert forall k :: 0 <= k < n ==> s[k] == s[..n][k] && u[k] == u[..n][k];
    }
  }

  lemma CloseIsLocal(s: string, rest: string, j: nat)
    requires ClosesAt(s, j)
    ensures ClosesAt(s + rest, j)
  {
    forall n: nat | n <= j + 1
      ensures After(s + rest, n) == After(s, n)
    {
      AfterIsLocal(s + rest, s, n);
    }
  }

  // ---------- the two scanners ----------

  /** The closing quote; at or past the end of the text when there is none. */
  method StringEnd(text: string, start: nat) returns (end: nat)
    requires start < |text| && Quote(text[start])
    ensures match FirstClose(text[start..])
            case Some(j) => end == start + j
            case None => end >= |text|
  {
    ghost var s := text[start..];
    var quote := text[start];
    end := start + 1;
    assert After(s, 1) == Text(quote, 0) by { assert After(s, 0) == Code(0); }
    while end < |text| && text[end] != quote
      invariant start < end
      invariant end <= |text| ==> After(s, end - start) == Text(quote, 0)
      invariant forall n :: 0 < n <= end - start && n <= |s| ==> After(s, n) != Code(0)
    {
      var skipped := if text[end] == '\\' then 2 else 1;
      assert After(s, end - start + 1) == Step(s, end - start, Text(quote, 0));
      if skipped == 2 && end + 2 <= |text| {
        assert After(s, end - start + 2) == Text(quote, 0);
      }
      end := end + skipped;
    }
    if end < |text| {
      assert After(s, end - start + 1) == Code(0);
      CloseIsFirst(s, end - start);
    }
  }

  /** The bracket that closes the one at `open`; None is the source's "unbalanced" error. */
  method MatchingClose(text: string, open: nat) returns (r: Option<nat>)
    requires open < |text| && Opener(text[open])
    ensures match FirstClose(text[open..])
            case Some(j) => r == Some(open + j)
            case None => r == None
  {
    ghost var s := text[open..];
    var depth := 0;
    var index := open;
    assert After(s, 0) == Code(0);
    while index < |text|
      invariant open <= index
      invariant index == open ==> depth == 0
      invariant index <= |text| ==> After(s, index - open) == Code(depth)
      invariant forall n :: 0 < n <= index - open && n <= |s| ==> After(s, n) != Code(0)
    {
      var c := text[index];
      if Quote(c) {
        var end := StringEnd(text, index);
        QuotedReading(s, index - open, depth);
        assert s[index - open..] == text[index..];
        index := end + 1;
        continue;
      }
      assert After(s, index - open + 1) == Step(s, index - open, Code(depth));
      if c == '>' && index > open && text[index - 1] == '=' {
        index := index + 1;
        continue;
      }
      if Opener(c) { depth := depth + 1; }
      if Closer(c) { depth := depth - 1; }
      if depth == 0 {
        CloseIsFirst(s, index - open);
        return Some(index);
      }
      index := index + 1;
    }
    return None;
  }

  function Deeper(mode: Mode, extra: int): Mode {
    mode.(depth := mode.depth + extra)
  }

  /** A quote or bracket reads the same within other brackets, only deeper. */
  lemma {:induction false} ReadsDeeper(s: string, i: nat, depth: int, n: nat)
    requires i < |s| && Opens(s[i..]) && After(s, i) == Code(depth) && n <= |s| - i
    ensures After(s, i + n) == Deeper(After(s[i..], n), depth)
    decreases n
  {
    if n > 0 {
      ReadsDeeper(s, i, depth, n - 1);
      var u := s[i..];
      assert u[n - 1] == s[i + n - 1] && u[0] == s[i];
      assert n > 1 ==> u[n - 2] == s[i + n - 2];
    }
  }

  /** Until it is closed, what is open is a quoted text or at least one bracket. */
  lemma {:induction false} StaysOpen(s: string, n: nat)
    requires Opens(s) && 0 < n <= |s| && forall m :: 0 < m <= n ==> After(s, m) != Code(0)
    ensures match After(s, n)
            case Code(d) => d > 0 && !Quote(s[0])
            case Text(q, d) => Quote(q) && if Quote(s[0]) then q == s[0] && d == 0 else d > 0
            case Escaped(q, d) => Quote(q) && if Quote(s[0]) then q == s[0] && d == 0 else d > 0
    decreases n
  {
    if n == 1 {
      assert After(s, 0) == Code(0);
    } else {
      StaysOpen(s, n - 1);
    }
  }

  /** Reading a quoted text within brackets leaves the depth alone. */
  lemma QuotedReading(s: string, i: nat, depth: int)
    requires i < |s| && Quote(s[i]) && After(s, i) == Code(depth)
    ensures match FirstClose(s[i..])
            case Some(j) =>
              && After(s, i + j + 1) == Code(depth)
              && forall n :: i < n <= i + j ==> !After(s, n).Code?
            case None => forall n :: i < n <= |s| ==> !After(s, n).Code?
  {
    var u := s[i..];
    var until := match FirstClose(u) case Some(j) => j case None => |u|;
    forall n | i < n <= i + until && n <= |s|
      ensures !After(s, n).Code?
    {
      StaysOpen(u, n - i);
      ReadsDeeper(s, i, depth, n - i);
    }
    if until < |u| { ReadsDeeper(s, i, depth, until + 1); }
  }

  // ---------- tokens ----------

  /** A character of code, or a whole quoted text or bracket group. */
  datatype Token = Plain(c: char) | Solid(s: string)

  ghost predicate Closed(tok: Token) {
    match tok
    case Plain(c) => !Quote(c) && !Opener(c)
    case Solid(s) => Opens(s) && ClosesAt(s, |s| - 1)
  }

  ghost predicate AllClosed(xs: seq<Token>) {
    forall x <- xs :: Closed(x)
  }

  function TextOf(tok: Token): string {
    match tok
    case Plain(c) => [c]
    case Solid(s) => s
  }

  function Flat(xs: seq<Token>): string {
    if xs == [] then "" else TextOf(xs[0]) + Flat(xs[1..])
  }

  function Prepend(tok: Token, rest: Option<seq<Token>>): Option<seq<Token>> {
    if rest.None? then None else Some([tok] + rest.value)
  }

  /** The top level of a text.  An open quote runs to the end; an open bracket is an error. */
  function Tokens(s: string): Option<seq<Token>> {
    if s == "" then Some([])
    else if !Opens(s) then Prepend(Plain(s[0]), Tokens(s[1..]))
    else
      match FirstClose(s)
      case Some(j) => Prepend(Solid(s[..j + 1]), Tokens(s[j + 1..]))
      case None => if Quote(s[0]) then Some([Solid(s)]) else None
  }

  lemma {:induction false} TokensAreText(s: string)
    ensures Tokens(s).Some? ==> Flat(Tokens(s).value) == s
    decreases |s|
  {
    if s != "" && !Opens(s) {
      TokensAreText(s[1..]);
      assert s == [s[0]] + s[1..];
    } else if s != "" {
      match FirstClose(s)
      case Some(j) =>
        TokensAreText(s[j + 1..]);
        assert s == s[..j + 1] + s[j + 1..];
      case None => assert Flat([Solid(s)]) == s by { assert [Solid(s)][1..] == []; }
    }
  }

  lemma {:induction false} FlatAppend(xs: seq<Token>, ys: seq<Token>)
    ensures Flat(xs + ys) == Flat(xs) + Flat(ys)
    decreases |xs|
  {
    if xs == [] {
      assert xs + ys == ys;
    } else {
      FlatAppend(xs[1..], ys);
      assert (xs + ys)[1..] == xs[1..] + ys;
    }
  }

  lemma Associative<T>(a: seq<T>, b: seq<T>, c: seq<T>)
    ensures (a + b) + c == a + (b + c)
  {
  }

  lemma TokenOfClosed(x: Token, tail: string)
    requires Closed(x)
    ensures Tokens(TextOf(x) + tail) == Prepend(x, Tokens(tail))
  {
    var s := TextOf(x);
    assert (s + tail)[|s|..] == tail && (s + tail)[..|s|] == s && (s + tail)[0] == s[0];
    if x.Solid? {
      CloseIsLocal(s, tail, |s| - 1);
      CloseIsFirst(s + tail, |s| - 1);
    }
  }

  /** Closed tokens are read back, whatever follows them. */
  lemma {:induction false} TokensOfClosed(xs: seq<Token>, rest: string)
    requires AllClosed(xs) && Tokens(rest).Some?
    ensures Tokens(Flat(xs) + rest) == Some(xs + Tokens(rest).value)
    decreases |xs|
  {
    if xs == [] {
      assert Flat(xs) + rest == rest && xs + Tokens(rest).value == Tokens(rest).value;
    } else {
      var tail := Flat(xs[1..]) + rest;
      TokensOfClosed(xs[1..], rest);
      TokenOfClosed(xs[0], tail);
      Associative(TextOf(xs[0]), Flat(xs[1..]), rest);
      Associative([xs[0]], xs[1..], Tokens(rest).value);
      assert [xs[0]] + xs[1..] == xs;
    }
  }

  // ---------- splitting ----------

  predicate Space(c: char) {
    c == ' ' || c == '\t' || c == '\n' || c == '\r' || c == '\U{000B}' || c == '\U{000C}' || c == '\U{00A0}' || c == '\U{FEFF}'
  }

  function TrimLeft(s: string): string {
    if s != "" && Space(s[0]) then TrimLeft(s[1..]) else s
  }

  function TrimRight(s: string): string {
    if s != "" && Space(s[|s| - 1]) then TrimRight(s[..|s| - 1]) else s
  }

  function Trim(s: string): string {
    TrimRight(TrimLeft(s))
  }

  function Plains(s: string): (r: seq<Token>)
    ensures |r| == |s|
  {
    seq(|s|, i requires 0 <= i < |s| => Plain(s[i]))
  }

  predicate Occurs(xs: seq<Token>, sep: string) {
    |sep| <= |xs| && forall i :: 0 <= i < |sep| ==> xs[i] == Plain(sep[i])
  }

  /** A separator is not empty and is code throughout. */
  predicate Separator(sep: string) {
    sep != "" && forall c <- sep :: !Quote(c) && !Opener(c)
  }

  /** Cut at every separator, left to right. */
  function Pieces(xs: seq<Token>, sep: string): (r: seq<seq<Token>>)
    requires sep != ""
    ensures r != []
    decreases |xs|
  {
    if xs == [] then [[]]
    else if Occurs(xs, sep) then [[]] + Pieces(xs[|sep|..], sep)
    else
      var ps := Pieces(xs[1..], sep);
      [[xs[0]] + ps[0]] + ps[1..]
  }

  /** What follows the first piece: a separator, if there is another piece. */
  function Next(ps: seq<seq<Token>>, sep: string): seq<Token> {
    if |ps| <= 1 then [] else Plains(sep)
  }

  function Joined(ps: seq<seq<Token>>, sep: string): seq<Token> {
    if ps == [] then [] else ps[0] + Next(ps, sep) + Joined(ps[1..], sep)
  }

  /** No separator starts within `p` when `next` follows it. */
  ghost predicate Uncut(p: seq<Token>, next: seq<Token>, sep: string) {
    forall k :: 0 <= k < |p| ==> !Occurs(p[k..] + next, sep)
  }

  ghost predicate AllUncut(ps: seq<seq<Token>>, sep: string) {
    ps != [] ==> Uncut(ps[0], Next(ps, sep), sep) && AllUncut(ps[1..], sep)
  }

  /** `ps` is what lies between the leftmost separators of `xs`. */
  ghost predicate Divides(ps: seq<seq<Token>>, xs: seq<Token>, sep: string) {
    ps != [] && Joined(ps, sep) == xs && AllUncut(ps, sep)
  }

  lemma OccursIsLocal(xs: seq<Token>, ys: seq<Token>, sep: string)
    ensures Occurs(xs, sep) ==> Occurs(xs + ys, sep)
    ensures |sep| <= |xs| && Occurs(xs + ys, sep) ==> Occurs(xs, sep)
  {
    assert forall i :: 0 <= i < |xs| ==> (xs + ys)[i] == xs[i];
  }

  lemma Regroup(x: Token, p: seq<Token>, next: seq<Token>, rest: seq<Token>)
    ensures [x] + (p + next + rest) == ([x] + p) + next + rest
    ensures (([x] + p) + next + rest)[1..] == p + next + rest
  {
  }

  lemma UncutPrepend(x: Token, p: seq<Token>, next: seq<Token>, sep: string)
    requires Uncut(p, next, sep) && !Occurs([x] + p + next, sep)
    ensures Uncut([x] + p, next, sep)
  {
    var q := [x] + p;
    forall k | 0 <= k < |q|
      ensures !Occurs(q[k..] + next, sep)
    {
      if k > 0 { assert q[k..] == p[k - 1..]; } else { assert q[k..] + next == [x] + p + next; }
    }
  }

  lemma UncutTail(p: seq<Token>, next: seq<Token>, sep: string)
    requires Uncut(p, next, sep) && p != []
    ensures Uncut(p[1..], next, sep) && !Occurs(p + next, sep)
  {
    forall k | 0 <= k < |p[1..]|
      ensures !Occurs(p[1..][k..] + next, sep)
    {
      assert p[1..][k..] == p[k + 1..];
    }
    assert p[0..] == p;
  }

  /** One more token in front, where no separator starts, joins the first piece. */
  lemma DividesPrepend(x: Token, p: seq<Token>, qs: seq<seq<Token>>, xs: seq<Token>, sep: string)
    requires Divides([p] + qs, xs, sep) && !Occurs([x] + xs, sep)
    ensures Divides([[x] + p] + qs, [x] + xs, sep)
  {
    var ps, r := [p] + qs, [[x] + p] + qs;
    var next := Next(ps, sep);
    assert r[1..] == qs && ps[1..] == qs && Next(r, sep) == next;
    Regroup(x, p, next, Joined(qs, sep));
    OccursIsLocal([x] + p + next, Joined(qs, sep), sep);
    UncutPrepend(x, p, next, sep);
  }

  lemma DividesAfter(ps: seq<seq<Token>>, xs: seq<Token>, sep: string)
    requires Divides(ps, xs, sep)
    ensures Divides([[]] + ps, Plains(sep) + xs, sep)
  {
    assert ([[]] + ps)[1..] == ps;
  }

  lemma OccursAtHead(xs: seq<Token>, sep: string)
    requires Occurs(xs, sep)
    ensures xs == Plains(sep) + xs[|sep|..]
  {
  }

  lemma {:induction false} PiecesDivide(xs: seq<Token>, sep: string)
    requires sep != ""
    ensures Divides(Pieces(xs, sep), xs, sep)
    decreases |xs|
  {
    if xs == [] {
      assert Pieces(xs, sep)[1..] == [] && Joined(Pieces(xs, sep), sep) == [];
    } else if Occurs(xs, sep) {
      var rest := xs[|sep|..];
      PiecesDivide(rest, sep);
      OccursAtHead(xs, sep);
      DividesAfter(Pieces(rest, sep), rest, sep);
    } else {
      var rest := xs[1..];
      var ps := Pieces(rest, sep);
      PiecesDivide(rest, sep);
      assert xs == [xs[0]] + rest && ps == [ps[0]] + ps[1..];
      DividesPrepend(xs[0], ps[0], ps[1..], rest, sep);
    }
  }

  lemma DividesTail(x: Token, p: seq<Token>, qs: seq<seq<Token>>, xs: seq<Token>, sep: string)
    requires Divides([[x] + p] + qs, xs, sep)
    ensures xs != [] && xs[0] == x && !Occurs(xs, sep) && Divides([p] + qs, xs[1..], sep)
  {
    var ps, r := [p] + qs, [[x] + p] + qs;
    var next := Next(ps, sep);
    assert r[1..] == qs && ps[1..] == qs && Next(r, sep) == next;
    Regroup(x, p, next, Joined(qs, sep));
    UncutTail([x] + p, next, sep);
    assert ([x] + p)[1..] == p;
    if qs == [] {
      assert [x] + p + next + Joined(qs, sep) == [x] + p + next;
    } else {
      OccursIsLocal([x] + p + next, Joined(qs, sep), sep);
    }
  }

  /** The division is unique: joining pieces and splitting again gives them back. */
  lemma {:induction false} DivisionIsUnique(ps: seq<seq<Token>>, xs: seq<Token>, sep: string)
    requires sep != "" && Divides(ps, xs, sep)
    ensures Pieces(xs, sep) == ps
    decreases |xs|, |ps|
  {
    var p, qs := ps[0], ps[1..];
    assert ps == [p] + qs;
    if p != [] {
      assert p == [p[0]] + p[1..];
      DividesTail(p[0], p[1..], qs, xs, sep);
      DivisionIsUnique([p[1..]] + qs, xs[1..], sep);
    } else if qs != [] {
      assert xs == Plains(sep) + Joined(qs, sep);
      assert xs[|sep|..] == Joined(qs, sep);
      DivisionIsUnique(qs, xs[|sep|..], sep);
    } else {
      assert xs == p + Next(ps, sep) + Joined(qs, sep);
    }
  }

  // ---------- the splitter ----------

  function TrimmedNonEmpty(parts: seq<string>): (r: seq<string>)
    ensures forall part <- r :: part != ""
  {
    if parts == [] then []
    else
      var part := Trim(parts[0]);
      (if part == "" then [] else [part]) + TrimmedNonEmpty(parts[1..])
  }

  function Texts(ps: seq<seq<Token>>): (r: seq<string>)
    ensures |r| == |ps|
  {
    seq(|ps|, i requires 0 <= i < |ps| => Flat(ps[i]))
  }

  /** None when a bracket is left open. */
  function RawPieces(text: string, sep: string): (r: Option<seq<string>>)
    requires sep != ""
    ensures r.Some? ==> r.value != []
  {
    match Tokens(text)
    case None => None
    case Some(xs) => Some(Texts(Pieces(xs, sep)))
  }

  function Split(text: string, sep: string): (r: Option<seq<string>>)
    requires sep != ""
    ensures r.Some? ==> forall part <- r.value :: part != ""
  {
    match RawPieces(text, sep)
    case None => None
    case Some(parts) => Some(TrimmedNonEmpty(parts))
  }

  lemma {:induction false} FlatPlains(s: string)
    ensures Flat(Plains(s)) == s
  {
    if s != "" {
      FlatPlains(s[1..]);
      assert Plains(s)[1..] == Plains(s[1..]);
    }
  }

  lemma {:induction false} CodePrefix(text: string, n: nat)
    requires n <= |text| && forall c <- text[..n] :: !Quote(c) && !Opener(c)
    ensures Tokens(text).Some? == Tokens(text[n..]).Some?
    decreases n
  {
    if n == 0 {
      assert text[0..] == text;
    } else {
      assert text[..n][0] == text[0] && text[1..][..n - 1] == text[..n][1..];
      CodePrefix(text[1..], n - 1);
      assert text[1..][n - 1..] == text[n..];
    }
  }

  /** A separator is read as itself. */
  lemma TokensOfSeparator(text: string, sep: string)
    requires Separator(sep) && sep <= text
    ensures match Tokens(text[|sep|..])
            case None => Tokens(text) == None
            case Some(ys) => Tokens(text) == Some(Plains(sep) + ys)
  {
    CodePrefix(text, |sep|);
    if Tokens(text).Some? {
      FlatPlains(sep);
      assert text == sep + text[|sep|..];
      TokensOfClosed(Plains(sep), text[|sep|..]);
    }
  }

  lemma OccursInText(text: string, sep: string)
    requires Separator(sep) && Tokens(text).Some?
    ensures Occurs(Tokens(text).value, sep) <==> sep <= text
  {
    var xs := Tokens(text).value;
    if sep <= text {
      TokensOfSeparator(text, sep);
    }
    if Occurs(xs, sep) {
      assert xs == Plains(sep) + xs[|sep|..];
      FlatAppend(Plains(sep), xs[|sep|..]);
      FlatPlains(sep);
      TokensAreText(text);
    }
  }

  /** `r` continues the piece begun by `open`, after `parts`. */
  function Attach(parts: seq<string>, open: string, r: Option<seq<string>>): Option<seq<string>>
    requires r.Some? ==> r.value != []
  {
    if r.None? then None else Some(parts + [open + r.value[0]] + r.value[1..])
  }

  lemma Attached(parts: seq<string>, open: string, more: string, r: Option<seq<string>>)
    requires r.Some? ==> r.value != []
    ensures Attach([], "", r) == r
    ensures Attach(parts, open, Attach([], more, r)) == Attach(parts, open + more, r)
    ensures Attach(parts, open, Attach([""], "", r)) == Attach(parts + [open], "", r)
  {
    if r.Some? {
      assert "" + r.value[0] == r.value[0] && [] + [r.value[0]] + r.value[1..] == r.value;
      assert open + (more + r.value[0]) == open + more + r.value[0];
      assert ([more + r.value[0]] + r.value[1..])[1..] == r.value[1..];
      var broken := [""] + [r.value[0]] + r.value[1..];
      assert Attach([""], "", r) == Some(broken) && open + broken[0] == open;
      assert parts + [open] + broken[1..] == (parts + [open]) + [r.value[0]] + r.value[1..];
    }
  }

  /** The length of the first token. */
  ghost predicate TokenLength(text: string, n: nat) {
    && 0 < n <= |text|
    && if Opens(text) then (match FirstClose(text) case Some(j) => n == j + 1 case None => Quote(text[0]) && n == |text|)
       else n == 1
  }

  function FirstOf(text: string, n: nat): Token
    requires 0 < n <= |text|
  {
    if Opens(text) then Solid(text[..n]) else Plain(text[0])
  }

  lemma FirstTokenIsPrepended(text: string, n: nat)
    requires TokenLength(text, n)
    ensures Tokens(text) == Prepend(FirstOf(text, n), Tokens(text[n..])) && TextOf(FirstOf(text, n)) == text[..n]
  {
    if Opens(text) && FirstClose(text).None? {
      assert text[n..] == "" && text[..n] == text;
      assert [Solid(text)] + [] == [Solid(text)];
    }
  }

  lemma FirstToken(text: string, sep: string, n: nat)
    requires Separator(sep) && TokenLength(text, n) && (Opens(text) || !(sep <= text))
    ensures RawPieces(text, sep) == Attach([], text[..n], RawPieces(text[n..], sep))
  {
    FirstTokenIsPrepended(text, n);
    if Tokens(text[n..]).Some? {
      var tok, xs := FirstOf(text, n), Tokens(text[n..]).value;
      if !Opens(text) { OccursInText(text, sep); }
      assert ([tok] + xs)[1..] == xs;
      var ps := Pieces(xs, sep);
      assert Pieces([tok] + xs, sep) == [[tok] + ps[0]] + ps[1..];
      assert ([tok] + ps[0])[1..] == ps[0];
      assert Texts([[tok] + ps[0]] + ps[1..]) == [] + [text[..n] + Texts(ps)[0]] + Texts(ps)[1..];
    }
  }

  lemma FirstSeparator(text: string, sep: string)
    requires Separator(sep) && sep <= text
    ensures RawPieces(text, sep) == Attach([""], "", RawPieces(text[|sep|..], sep))
  {
    TokensOfSeparator(text, sep);
    if Tokens(text[|sep|..]).Some? {
      var ys := Tokens(text[|sep|..]).value;
      OccursInText(text, sep);
      assert (Plains(sep) + ys)[|sep|..] == ys;
      var ps := Pieces(ys, sep);
      assert Pieces(Plains(sep) + ys, sep) == [[]] + ps;
      assert "" + Texts(ps)[0] == Texts(ps)[0];
      assert Texts([[]] + ps) == [""] + [Texts(ps)[0]] + Texts(ps)[1..];
    }
  }

  /** What the loop keeps: the pieces of the text are those so far, the open one, and those still to come. */
  ghost predicate SplitSoFar(text: string, sep: string, parts: seq<string>, start: nat, at: nat)
    requires sep != ""
  {
    start <= at <= |text| && RawPieces(text, sep) == Attach(parts, text[start..at], RawPieces(text[at..], sep))
  }

  lemma SkipToken(text: string, sep: string, parts: seq<string>, start: nat, at: nat, past: nat)
    requires Separator(sep) && SplitSoFar(text, sep, parts, start, at)
    requires at < past <= |text| && TokenLength(text[at..], past - at) && (Opens(text[at..]) || !(sep <= text[at..]))
    ensures SplitSoFar(text, sep, parts, start, past)
  {
    var rest, n := text[at..], past - at;
    FirstToken(rest, sep, n);
    assert rest[n..] == text[past..];
    assert text[start..past] == text[start..at] + rest[..n];
    Attached(parts, text[start..at], rest[..n], RawPieces(rest[n..], sep));
  }

  lemma CannotSplit(text: string, sep: string, parts: seq<string>, start: nat, at: nat)
    requires sep != "" && SplitSoFar(text, sep, parts, start, at) && Tokens(text[at..]) == None
    ensures Split(text, sep) == None
  {
  }

  lemma CutAtSeparator(text: string, sep: string, parts: seq<string>, start: nat, at: nat)
    requires Separator(sep) && SplitSoFar(text, sep, parts, start, at) && sep <= text[at..]
    ensures SplitSoFar(text, sep, parts + [text[start..at]], at + |sep|, at + |sep|)
  {
    var rest := text[at..];
    FirstSeparator(rest, sep);
    assert rest[|sep|..] == text[at + |sep|..];
    assert text[at + |sep|..at + |sep|] == "";
    Attached(parts, text[start..at], "", RawPieces(rest[|sep|..], sep));
  }

  lemma LastPiece(parts: seq<string>, last: string, sep: string)
    requires sep != ""
    ensures Attach(parts, last, RawPieces("", sep)) == Some(parts + [last])
  {
    var r := RawPieces("", sep);
    assert Pieces([], sep)[0] == [];
    assert r.value == [""];
    assert last + r.value[0] == last && parts + [last] + r.value[1..] == parts + [last];
  }

  method KeepNonEmpty(parts: seq<string>) returns (kept: seq<string>)
    ensures kept == TrimmedNonEmpty(parts)
  {
    kept := [];
    for i := 0 to |parts|
      invariant TrimmedNonEmpty(parts) == kept + TrimmedNonEmpty(parts[i..])
    {
      var part := Trim(parts[i]);
      assert parts[i..][1..] == parts[i + 1..];
      if part != "" { kept := kept + [part]; }
    }
  }

  /** Past the quoted text or the group at `index`; None when it is not balanced. */
  method SkipSolid(text: string, index: nat) returns (past: Option<nat>)
    requires index < |text| && Opens(text[index..])
    ensures past.None? ==> Tokens(text[index..]) == None
    ensures past.Some? ==> index < past.value <= |text| && TokenLength(text[index..], past.value - index)
  {
    if Quote(text[index]) {
      var end := StringEnd(text, index);
      return Some(if end < |text| then end + 1 else |text|);
    }
    var close := MatchingClose(text, index);
    return if close.None? then None else Some(close.value + 1);
  }

  method SplitTopLevel(text: string, sep: string) returns (r: Option<seq<string>>)
    requires Separator(sep)
    ensures r == Split(text, sep)
  {
    var parts: seq<string> := [];
    var start: nat, index: nat := 0, 0;
    assert text[0..] == text;
    Attached([], "", "", RawPieces(text, sep));
    while index < |text|
      invariant SplitSoFar(text, sep, parts, start, index)
      decreases |text| - index
    {
      if Quote(text[index]) || Opener(text[index]) {
        var past := SkipSolid(text, index);
        if past.None? {
          CannotSplit(text, sep, parts, start, index);
          return None;
        }
        SkipToken(text, sep, parts, start, index, past.value);
        index := past.value;
      } else if sep <= text[index..] {
        CutAtSeparator(text, sep, parts, start, index);
        parts := parts + [text[start..index]];
        start := index + |sep|;
        index := start;
      } else {
        SkipToken(text, sep, parts, start, index, index + 1);
        index := index + 1;
      }
    }
    AllSplit(text, sep, parts, start, index);
    var kept := KeepNonEmpty(parts + [text[start..]]);
    return Some(kept);
  }

  lemma AllSplit(text: string, sep: string, parts: seq<string>, start: nat, at: nat)
    requires sep != "" && SplitSoFar(text, sep, parts, start, at) && at == |text|
    ensures RawPieces(text, sep) == Some(parts + [text[start..]])
  {
    assert text[at..] == "" && text[start..at] == text[start..];
    LastPiece(parts, text[start..], sep);
  }

  // ---------- balanced text ----------

  /** A closed quote ends with its quote, a closed group with a closing bracket. */
  lemma SolidEnds(s: string)
    requires Closed(Solid(s))
    ensures |s| >= 2 && (if Quote(s[0]) then s[|s| - 1] == s[0] else Closer(s[|s| - 1]))
  {
    assert After(s, 1) == Step(s, 0, Code(0)) by { assert After(s, 0) == Code(0); }
    StaysOpen(s, |s| - 1);
  }

  /** Code without stray closing brackets; the head of an arrow is not one. */
  predicate Balanced(xs: seq<Token>) {
    forall i :: 0 <= i < |xs| && xs[i].Plain? && Closer(xs[i].c) ==> xs[i].c == '>' && i > 0 && xs[i - 1] == Plain('=')
  }

  lemma LastCharacter(xs: seq<Token>)
    requires AllClosed(xs) && xs != []
    ensures var last := TextOf(xs[|xs| - 1]);
            last != "" && Flat(xs) != "" && Flat(xs)[|Flat(xs)| - 1] == last[|last| - 1]
  {
    var n := |xs| - 1;
    assert Closed(xs[n]);
    assert xs == xs[..n] + [xs[n]];
    FlatAppend(xs[..n], [xs[n]]);
    assert Flat([xs[n]]) == TextOf(xs[n]);
  }

  lemma SolidInside(s: string, i: nat, x: string)
    requires i + |x| <= |s| && s[i..i + |x|] == x && Closed(Solid(x)) && After(s, i) == Code(1)
    ensures After(s, i + |x|) == Code(1) && forall m :: i < m <= i + |x| ==> After(s, m) != Code(0)
  {
    var u := s[i..];
    assert u[..|x|] == x && u[0] == x[0];
    forall n: nat | n <= |x|
      ensures After(u, n) == After(x, n) && After(s, i + n) == Deeper(After(x, n), 1)
    {
      assert u[..n] == x[..n] by { assert u[..n] == u[..|x|][..n]; }
      AfterIsLocal(u, x, n);
      ReadsDeeper(s, i, 1, n);
    }
    forall m | i < m <= i + |x|
      ensures After(s, m) != Code(0)
    {
      assert After(s, i + (m - i)) == Deeper(After(x, m - i), 1);
      if m - i < |x| { StaysOpen(x, m - i); }
    }
  }

  /** The first `n` characters opened one bracket, and it is still open. */
  ghost predicate Within(s: string, n: nat) {
    n <= |s| && After(s, n) == Code(1) && forall m :: 0 < m <= n ==> After(s, m) != Code(0)
  }

  /** Reading a closed token within one bracket stays within it. */
  lemma ReadsToken(s: string, i: nat, x: Token)
    requires Closed(x) && i + |TextOf(x)| <= |s| && s[i..i + |TextOf(x)|] == TextOf(x) && Within(s, i)
    requires x.Plain? && Closer(x.c) ==> x.c == '>' && i > 0 && s[i - 1] == '='
    ensures Within(s, i + |TextOf(x)|)
  {
    if x.Solid? {
      SolidInside(s, i, x.s);
    } else {
      assert s[i] == s[i..i + 1][0] == x.c;
      assert After(s, i + 1) == Step(s, i, Code(1)) == Code(1);
    }
  }

  function GroupText(open: char, xs: seq<Token>): string
    requires Opener(open)
  {
    [open] + Flat(xs) + [CloserOf(open)]
  }

  /** Where the first `k` tokens of a group end in its text. */
  function Offset(xs: seq<Token>, k: nat): nat
    requires k <= |xs|
  {
    1 + |Flat(xs[..k])|
  }

  lemma Halves(xs: seq<Token>, k: nat)
    requires k < |xs|
    ensures Flat(xs) == Flat(xs[..k]) + TextOf(xs[k]) + Flat(xs[k + 1..])
    ensures Offset(xs, k + 1) == Offset(xs, k) + |TextOf(xs[k])|
  {
    assert xs[..k + 1] == xs[..k] + [xs[k]] && xs == xs[..k + 1] + xs[k + 1..];
    FlatAppend(xs[..k], [xs[k]]);
    FlatAppend(xs[..k + 1], xs[k + 1..]);
    assert Flat([xs[k]]) == TextOf(xs[k]);
  }

  lemma TokenInGroup(open: char, xs: seq<Token>, k: nat)
    requires Opener(open) && AllClosed(xs) && k < |xs|
    ensures var s, i, past := GroupText(open, xs), Offset(xs, k), Offset(xs, k + 1);
      && past == i + |TextOf(xs[k])| < |s| && s[i..past] == TextOf(xs[k])
      && (k > 0 && xs[k - 1] == Plain('=') ==> s[i - 1] == '=')
  {
    Halves(xs, k);
    var s, before, x, after := GroupText(open, xs), Flat(xs[..k]), TextOf(xs[k]), Flat(xs[k + 1..]);
    assert s == ([open] + before) + x + (after + [CloserOf(open)]);
    if k > 0 {
      LastCharacter(xs[..k]);
      assert s[|before|] == before[|before| - 1];
    }
  }

  lemma {:induction false} ReadsBalanced(open: char, xs: seq<Token>, k: nat)
    requires Opener(open) && AllClosed(xs) && Balanced(xs) && k <= |xs|
    ensures Within(GroupText(open, xs), Offset(xs, k))
    decreases k
  {
    var s := GroupText(open, xs);
    if k == 0 {
      assert s[0] == open && After(s, 0) == Code(0) && After(s, 1) == Step(s, 0, Code(0));
    } else {
      ReadsBalanced(open, xs, k - 1);
      TokenInGroup(open, xs, k - 1);
      ReadsToken(s, Offset(xs, k - 1), xs[k - 1]);
    }
  }

  /** A bracket around balanced text is closed where it should be. */
  lemma BracketCloses(open: char, xs: seq<Token>)
    requires Opener(open) && AllClosed(xs) && Balanced(xs)
    requires open == '<' ==> xs == [] || xs[|xs| - 1] != Plain('=')
    ensures Closed(Solid(GroupText(open, xs)))
  {
    var s := GroupText(open, xs);
    var n := |s| - 1;
    ReadsBalanced(open, xs, |xs|);
    assert Offset(xs, |xs|) == n by { assert xs[..|xs|] == xs; }
    LastIsNoArrow(open, xs);
    LastStep(s, n, open);
  }

  lemma LastStep(s: string, n: nat, open: char)
    requires Opener(open) && Within(s, n) && |s| == n + 1 && s[n] == CloserOf(open) && s[0] == open && !ArrowHead(s, n)
    ensures ClosesAt(s, n)
  {
    assert After(s, n + 1) == Step(s, n, Code(1)) == Code(0);
  }

  lemma LastIsNoArrow(open: char, xs: seq<Token>)
    requires Opener(open) && AllClosed(xs) && (open == '<' ==> xs == [] || xs[|xs| - 1] != Plain('='))
    ensures var s := GroupText(open, xs); !ArrowHead(s, |s| - 1)
  {
    if xs != [] {
      var last := xs[|xs| - 1];
      LastCharacter(xs);
      assert Closed(last);
      if last.Solid? { SolidEnds(last.s); }
    }
  }
}
