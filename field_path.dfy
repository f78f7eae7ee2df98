/**
 * The field-path parser. A path is member segments separated by '.', each
 * member optionally followed by bracketed index literals:
 *
 *   path    := segment ('.' segment)*
 *   segment := name index*
 *   index   := '[' '-'? digit+ ']'
 *
 * A negative or non-integer index, an unclosed bracket and an empty name
 * are syntax errors, rejected before any object is looked at.
 */
module FieldPath {
  import opened Wrappers
  import opened Errors

  datatype Segment = Member(name: string) | Index(i: nat)

  predicate IsDelimiter(c: char)
  {
    c == '.' || c == '[' || c == ']'
  }

  /** A member name: non-empty, no delimiter in it. */
  predicate IsName(n: string)
  {
    |n| > 0 && forall k :: 0 <= k < |n| ==> !IsDelimiter(n[k])
  }

  predicate NamesValid(p: seq<Segment>)
  {
    forall k :: 0 <= k < |p| && p[k].Member? ==> IsName(p[k].name)
  }

  /** What the parser produces: a non-empty path that starts with a member. */
  predicate WellFormed(p: seq<Segment>)
  {
    |p| > 0 && p[0].Member? && NamesValid(p)
  }

  predicate IsDigit(c: char)
  {
    '0' <= c <= '9'
  }

  predicate AllDigits(t: string)
  {
    forall k :: 0 <= k < |t| ==> IsDigit(t[k])
  }

  /** The decimal value of a digit string. */
  function DigitsValue(t: string): nat
    requires AllDigits(t)
    decreases |t|
  {
    if t == [] then 0 else DigitsValue(t[..|t| - 1]) * 10 + (t[|t| - 1] as int - '0' as int)
  }

  /**
   * Parses the text between brackets as an integer literal '-'? digit+.
   * Only a value of at least zero is an index ("-0" is zero).
   */
  function ParseIndexLiteral(t: string): Option<nat>
  {
    if |t| > 0 && AllDigits(t) then Some(DigitsValue(t))
    else if |t| > 1 && t[0] == '-' && AllDigits(t[1..]) && DigitsValue(t[1..]) == 0 then Some(0)
    else None
  }

  /** The length of the longest prefix of s that holds no delimiter. */
  function NameLength(s: string): (n: nat)
    ensures n <= |s|
    ensures forall k :: 0 <= k < n ==> !IsDelimiter(s[k])
    ensures n < |s| ==> IsDelimiter(s[n])
  {
    if s == [] || IsDelimiter(s[0]) then 0 else 1 + NameLength(s[1..])
  }

  /** The position of the first ']' in s, or |s| when there is none. */
  function CloseAt(s: string): (j: nat)
    ensures j <= |s|
    ensures forall k :: 0 <= k < j ==> s[k] != ']'
    ensures j < |s| ==> s[j] == ']'
  {
    if s == [] || s[0] == ']' then 0 else 1 + CloseAt(s[1..])
  }

  /**
   * Parses index* at the front of s. The text left over is empty or starts
   * with the '.' of the next segment; anything else is a syntax error.
   */
  function ParseIndices(s: string): (r: Option<(seq<nat>, string)>)
    ensures r.Some? ==> |r.value.1| <= |s| && (r.value.1 == [] || r.value.1[0] == '.')
    decreases |s|
  {
    if s == [] || s[0] == '.' then Some(([], s))
    else if s[0] != '[' then None
    else
      var j := 1 + CloseAt(s[1..]);
      if j == |s| then None
      else match ParseIndexLiteral(s[1..j])
        case None => None
        case Some(i) =>
          match ParseIndices(s[j + 1..])
          case None => None
          case Some((more, rest)) => Some(([i] + more, rest))
  }

  function Indices(idx: seq<nat>): (p: seq<Segment>)
    ensures |p| == |idx|
    ensures forall k :: 0 <= k < |p| ==> p[k] == Index(idx[k])
  {
    if idx == [] then [] else [Index(idx[0])] + Indices(idx[1..])
  }

  /** Parses segment ('.' segment)*. */
  function ParseSegments(s: string): (r: Option<seq<Segment>>)
    ensures r.Some? ==> WellFormed(r.value)
    decreases |s|
  {
    var n := NameLength(s);
    if n == 0 then None
    else match ParseIndices(s[n..])
      case None => None
      case Some((idx, rest)) =>
        var head := [Member(s[..n])] + Indices(idx);
        if rest == [] then Some(head)
        else match ParseSegments(rest[1..])
          case None => None
          case Some(tail) => Some(head + tail)
  }

  /** Parses a field path; every syntax defect is a MalformedPath error. */
  function ParsePath(s: string): (r: Result<seq<Segment>, ModError>)
    ensures r.Ok? ==> WellFormed(r.value)
    ensures r.Err? ==> r.error == MalformedPath(s)
  {
    match ParseSegments(s)
    case None => Err(MalformedPath(s))
    case Some(p) => Ok(p)
  }

  // ----- Rendering: parsing a rendered path gives the path back -----

  function Digit(d: nat): (c: char)
    requires d < 10
    ensures IsDigit(c) && c as int - '0' as int == d
  {
    ('0' as int + d) as char
  }

  /** The decimal digits of n. */
  function NatToString(n: nat): (t: string)
    ensures |t| > 0 && AllDigits(t) && DigitsValue(t) == n
  {
    if n < 10 then [Digit(n)]
    else
      var t := NatToString(n / 10) + [Digit(n % 10)];
      assert t[..|t| - 1] == NatToString(n / 10);
      t
  }

  function RenderSegment(g: Segment): string
  {
    match g
    case Member(n) => "." + n
    case Index(i) => "[" + NatToString(i) + "]"
  }

  function RenderTail(p: seq<Segment>): string
  {
    if p == [] then "" else RenderSegment(p[0]) + RenderTail(p[1..])
  }

  /** The canonical text of a path. */
  function Render(p: seq<Segment>): string
    requires WellFormed(p)
  {
    p[0].name + RenderTail(p[1..])
  }

  /** The values of the Index segments at the front of q. */
  function LeadingIndices(q: seq<Segment>): seq<nat>
  {
    if q == [] || q[0].Member? then [] else [q[0].i] + LeadingIndices(q[1..])
  }

  /** q without the Index segments at its front. */
  function AfterIndices(q: seq<Segment>): (rest: seq<Segment>)
    ensures |rest| <= |q|
    ensures rest == [] || rest[0].Member?
  {
    if q == [] || q[0].Member? then q else AfterIndices(q[1..])
  }

  lemma {:induction false} SplitIndices(q: seq<Segment>)
    ensures q == Indices(LeadingIndices(q)) + AfterIndices(q)
  {
    if q != [] && q[0].Index? {
      SplitIndices(q[1..]);
    }
  }

  predicate NoClose(t: string)
  {
    forall k :: 0 <= k < |t| ==> t[k] != ']'
  }

  lemma CloseAtFirst(d: string, rest: string)
    requires NoClose(d)
    ensures CloseAt(d + "]" + rest) == |d|
  {
    var s := d + "]" + rest;
    assert s[|d|] == ']';
  }

  lemma NameLengthOf(n: string, rest: string)
    requires IsName(n)
    requires rest == [] || IsDelimiter(rest[0])
    ensures NameLength(n + rest) == |n|
  {
    var s := n + rest;
    assert forall k :: 0 <= k < |n| ==> s[k] == n[k];
    if rest != [] {
      assert s[|n|] == rest[0];
    }
  }

  /** One unfolding of ParseIndices at a rendered index. */
  lemma UnfoldIndex(i: nat, tail: string)
    ensures ParseIndices(RenderSegment(Index(i)) + tail)
         == match ParseIndices(tail)
            case None => None
            case Some((more, rest)) => Some(([i] + more, rest))
  {
    var d := NatToString(i);
    var s := RenderSegment(Index(i)) + tail;
    assert s == "[" + d + "]" + tail;
    assert s[1..] == d + "]" + tail;
    assert NoClose(d) by {
      forall k | 0 <= k < |d| ensures d[k] != ']' {
        assert IsDigit(d[k]);
      }
    }
    CloseAtFirst(d, tail);
    assert s[1..1 + |d|] == d;
    assert s[1 + |d| + 1..] == tail;
  }

  /** The index parser reads back exactly the leading Index segments of a rendered tail. */
  lemma {:induction false} ParseRenderedIndices(q: seq<Segment>)
    requires NamesValid(q)
    ensures ParseIndices(RenderTail(q)) == Some((LeadingIndices(q), RenderTail(AfterIndices(q))))
  {
    if q != [] && q[0].Index? {
      NamesValidSuffix(q, 1);
      ParseRenderedIndices(q[1..]);
      UnfoldIndex(q[0].i, RenderTail(q[1..]));
    }
  }

  /** Parsing inverts rendering: every well-formed path survives a round trip through its text. */
  lemma {:induction false} ParseRender(p: seq<Segment>)
    requires WellFormed(p)
    ensures ParsePath(Render(p)) == Ok(p)
    decreases |p|
  {
    ParseRenderedSegments(p);
  }

  /** One unfolding of ParseSegments, for a text whose first segment is known to parse. */
  lemma UnfoldSegments(s: string, n: nat, idx: seq<nat>, rest: string)
    requires 0 < n == NameLength(s)
    requires ParseIndices(s[n..]) == Some((idx, rest))
    ensures rest == [] ==> ParseSegments(s) == Some([Member(s[..n])] + Indices(idx))
    ensures rest != [] && ParseSegments(rest[1..]).Some? ==>
      ParseSegments(s) == Some([Member(s[..n])] + Indices(idx) + ParseSegments(rest[1..]).value)
  {
  }

  lemma NamesValidSuffix(p: seq<Segment>, from: nat)
    requires NamesValid(p) && from <= |p|
    ensures NamesValid(p[from..])
  {
    forall k | 0 <= k < |p[from..]| && p[from..][k].Member?
      ensures IsName(p[from..][k].name)
    {
      assert p[from..][k] == p[from + k];
    }
  }

  /** The first segment of a rendered path parses back to its name and leading indices. */
  lemma FirstSegmentParses(p: seq<Segment>)
    requires WellFormed(p)
    ensures NameLength(Render(p)) == |p[0].name| > 0
    ensures Render(p)[..|p[0].name|] == p[0].name
    ensures ParseIndices(Render(p)[|p[0].name|..])
         == Some((LeadingIndices(p[1..]), RenderTail(AfterIndices(p[1..]))))
  {
    var name := p[0].name;
    var s := Render(p);
    NamesValidSuffix(p, 1);
    var tail := RenderTail(p[1..]);
    NameLengthOf(name, tail);
    assert s[|name|..] == tail;
    assert s[..|name|] == name;
    ParseRenderedIndices(p[1..]);
  }

  /** A rendered tail that starts with a member is '.' followed by a rendered path. */
  lemma RenderTailAtMember(after: seq<Segment>)
    requires after != [] && after[0].Member? && NamesValid(after)
    ensures WellFormed(after)
    ensures |RenderTail(after)| > 0 && RenderTail(after)[1..] == Render(after)
  {
    assert RenderTail(after) == "." + Render(after);
  }

  /** A well-formed path is its first member, the indices after it, and the rest from the next member on. */
  lemma SplitPath(p: seq<Segment>)
    requires WellFormed(p)
    ensures p == [Member(p[0].name)] + Indices(LeadingIndices(p[1..])) + AfterIndices(p[1..])
  {
    var q := p[1..];
    var idx := Indices(LeadingIndices(q));
    var after := AfterIndices(q);
    SplitIndices(q);
    assert p == [p[0]] + q;
    assert [p[0]] + (idx + after) == [p[0]] + idx + after;
  }

  /** What follows the leading indices, when not empty, is itself a rendered well-formed path after a '.'. */
  lemma AfterIndicesRendered(p: seq<Segment>)
    requires WellFormed(p)
    ensures var after := AfterIndices(p[1..]);
      && |after| < |p|
      && (after != [] ==> WellFormed(after) && |RenderTail(after)| > 0 && RenderTail(after)[1..] == Render(after))
  {
    var q := p[1..];
    var after := AfterIndices(q);
    if after != [] {
      SplitIndices(q);
      NamesValidSuffix(p, 1);
      NamesValidSuffix(q, |LeadingIndices(q)|);
      assert after == q[|LeadingIndices(q)|..];
      RenderTailAtMember(after);
    }
  }

  lemma {:induction false} ParseRenderedSegments(p: seq<Segment>)
    requires WellFormed(p)
    ensures ParseSegments(Render(p)) == Some(p)
    decreases |p|
  {
    var q := p[1..];
    FirstSegmentParses(p);
    var idx := LeadingIndices(q);
    var after := AfterIndices(q);
    SplitPath(p);
    AfterIndicesRendered(p);
    if after != [] {
      ParseRenderedSegments(after);
    }
    UnfoldSegments(Render(p), |p[0].name|, idx, RenderTail(after));
    if after == [] {
      assert p == [Member(p[0].name)] + Indices(idx);
    }
  }

  /** A bracketed negative literal never becomes an index. */
  lemma NegativeIndexRejected(n: nat)
    requires n > 0
    ensures ParseIndexLiteral("-" + NatToString(n)) == None
  {
    var t := "-" + NatToString(n);
    assert t[1..] == NatToString(n);
    assert !IsDigit(t[0]);
  }

  /** A bracketed literal that is not an index stops the index parser. */
  lemma IndexLiteralRejected(lit: string, rest: string)
    requires NoClose(lit) && ParseIndexLiteral(lit) == None
    ensures ParseIndices("[" + lit + "]" + rest) == None
  {
    var u := "[" + lit + "]" + rest;
    assert u[1..] == lit + "]" + rest;
    CloseAtFirst(lit, rest);
    assert u[1..1 + |lit|] == lit;
  }

  /** ParseIndices' result with idx put in front of the indices it read. */
  function PrependIndices(idx: seq<nat>, r: Option<(seq<nat>, string)>): Option<(seq<nat>, string)>
  {
    match r
    case None => None
    case Some((more, rest)) => Some((idx + more, rest))
  }

  /** The index parser reads through the rendered indices at the front of a tail, whatever text follows. */
  lemma {:induction false} ParseIndicesThrough(q: seq<Segment>, s: string)
    ensures ParseIndices(RenderTail(q) + s)
         == PrependIndices(LeadingIndices(q), ParseIndices(RenderTail(AfterIndices(q)) + s))
  {
    if q == [] || q[0].Member? {
      PrependNothing(ParseIndices(RenderTail(q) + s));
    } else {
      var i := q[0].i;
      var tail := RenderTail(q[1..]) + s;
      assert RenderTail(q) + s == RenderSegment(Index(i)) + tail;
      UnfoldIndex(i, tail);
      ParseIndicesThrough(q[1..], s);
      PrependTwice([i], LeadingIndices(q[1..]), ParseIndices(RenderTail(AfterIndices(q[1..])) + s));
    }
  }

  lemma PrependNothing(r: Option<(seq<nat>, string)>)
    ensures PrependIndices([], r) == r
  {
    match r
    case None =>
    case Some((more, rest)) => assert [] + more == more;
  }

  lemma PrependTwice(a: seq<nat>, b: seq<nat>, r: Option<(seq<nat>, string)>)
    ensures PrependIndices(a, PrependIndices(b, r)) == PrependIndices(a + b, r)
  {
    match r
    case None =>
    case Some((more, rest)) => assert a + (b + more) == (a + b) + more;
  }

  /** The first name of a rendered path ends where the text after it begins, when that text starts with a delimiter. */
  lemma FirstNameThen(p: seq<Segment>, s: string)
    requires WellFormed(p) && |s| > 0 && IsDelimiter(s[0])
    ensures NameLength(Render(p) + s) == |p[0].name| > 0
    ensures (Render(p) + s)[|p[0].name|..] == RenderTail(p[1..]) + s
  {
    var name := p[0].name;
    var q := p[1..];
    var tail := RenderTail(q);
    assert Render(p) + s == name + (tail + s);
    if q != [] {
      assert (tail + s)[0] == RenderSegment(q[0])[0];
    }
    NameLengthOf(name, tail + s);
  }

  /** ParseSegments fails when the indices after the first name fail, or when the segments after them do. */
  lemma SegmentsRejected(t: string, n: nat)
    requires 0 < n == NameLength(t)
    requires match ParseIndices(t[n..])
             case None => true
             case Some((_, rest)) => rest != [] && ParseSegments(rest[1..]) == None
    ensures ParseSegments(t) == None
  {
  }

  /** When only indices follow the first name, the index parser reads them and then fails on s. */
  lemma IndicesThenFail(p: seq<Segment>, s: string)
    requires WellFormed(p) && |s| > 0 && IsDelimiter(s[0]) && ParseIndices(s) == None
    requires AfterIndices(p[1..]) == []
    ensures NameLength(Render(p) + s) == |p[0].name| > 0
    ensures ParseIndices((Render(p) + s)[|p[0].name|..]) == None
  {
    var q := p[1..];
    FirstNameThen(p, s);
    ParseIndicesThrough(q, s);
    assert RenderTail(AfterIndices(q)) + s == s;
  }

  /**
   * When a member follows the first name and its indices, the index parser
   * stops at the '.' before that member, and what follows the '.' is the
   * rest of the path rendered, then s.
   */
  lemma IndicesThenMore(p: seq<Segment>, s: string)
    requires WellFormed(p) && |s| > 0 && IsDelimiter(s[0])
    requires AfterIndices(p[1..]) != []
    ensures NameLength(Render(p) + s) == |p[0].name| > 0
    ensures var after := AfterIndices(p[1..]);
      && |after| < |p| && WellFormed(after)
      && ParseIndices((Render(p) + s)[|p[0].name|..]) == Some((LeadingIndices(p[1..]), RenderTail(after) + s))
      && (RenderTail(after) + s)[1..] == Render(after) + s
  {
    var q := p[1..];
    var after := AfterIndices(q);
    FirstNameThen(p, s);
    ParseIndicesThrough(q, s);
    AfterIndicesRendered(p);
    MemberThen(after, s);
    assert LeadingIndices(q) + [] == LeadingIndices(q);
  }

  /** Text that starts with a rendered member: the index parser reads no index and stops at its '.'. */
  lemma MemberThen(after: seq<Segment>, s: string)
    requires WellFormed(after)
    ensures ParseIndices(RenderTail(after) + s) == Some(([], RenderTail(after) + s))
    ensures (RenderTail(after) + s)[1..] == Render(after) + s
  {
    var u := RenderTail(after) + s;
    assert RenderTail(after) == "." + Render(after);
    assert u == "." + (Render(after) + s);
  }

  /** When only indices follow the first name and s starts with '.', the index parser reads them and stops at s. */
  lemma IndicesThenDot(p: seq<Segment>, s: string)
    requires WellFormed(p) && |s| > 0 && s[0] == '.'
    requires AfterIndices(p[1..]) == []
    ensures NameLength(Render(p) + s) == |p[0].name| > 0
    ensures ParseIndices((Render(p) + s)[|p[0].name|..]) == Some((LeadingIndices(p[1..]), s))
  {
    var q := p[1..];
    FirstNameThen(p, s);
    ParseIndicesThrough(q, s);
    assert RenderTail(AfterIndices(q)) + s == s;
    assert LeadingIndices(q) + [] == LeadingIndices(q);
  }

  /**
   * Text the parser rejects where a segment has just ended: text starting
   * with '[' or ']' that the index parser rejects, or a '.' followed by
   * text the segment parser rejects.
   */
  predicate RejectedContinuation(s: string)
  {
    |s| > 0 && IsDelimiter(s[0])
    && (if s[0] == '.' then ParseSegments(s[1..]) == None else ParseIndices(s) == None)
  }

  /**
   * A rejected continuation placed right after any well-formed path makes
   * the whole text unparsable: a defect is found at every position, not
   * only after the first name.
   */
  lemma {:induction false} SuffixRejected(p: seq<Segment>, s: string)
    requires WellFormed(p) && RejectedContinuation(s)
    ensures ParseSegments(Render(p) + s) == None
    decreases |p|
  {
    var after := AfterIndices(p[1..]);
    if after == [] {
      if s[0] == '.' {
        IndicesThenDot(p, s);
      } else {
        IndicesThenFail(p, s);
      }
    } else {
      IndicesThenMore(p, s);
      SuffixRejected(after, s);
    }
    SegmentsRejected(Render(p) + s, |p[0].name|);
  }

  /** A path that is empty or starts with a delimiter has no first name and is malformed. */
  lemma LeadingDelimiterRejected(s: string)
    requires s == [] || IsDelimiter(s[0])
    ensures ParsePath(s) == Err(MalformedPath(s))
  {
  }

  /** An empty segment (a '.' followed by nothing or by a delimiter) makes the whole path malformed, wherever it stands. */
  lemma EmptySegmentRejected(p: seq<Segment>, rest: string)
    requires WellFormed(p) && (rest == [] || IsDelimiter(rest[0]))
    ensures ParsePath(Render(p) + "." + rest) == Err(MalformedPath(Render(p) + "." + rest))
  {
    var s := "." + rest;
    assert Render(p) + "." + rest == Render(p) + s;
    assert s[1..] == rest && NameLength(rest) == 0;
    SuffixRejected(p, s);
  }

  /** A ']' with no '[' before it makes the whole path malformed, wherever it stands. */
  lemma StrayCloseRejected(p: seq<Segment>, rest: string)
    requires WellFormed(p)
    ensures ParsePath(Render(p) + "]" + rest) == Err(MalformedPath(Render(p) + "]" + rest))
  {
    var s := "]" + rest;
    assert Render(p) + "]" + rest == Render(p) + s;
    assert ParseIndices(s) == None;
    SuffixRejected(p, s);
  }

  /** After a closing ']' only '.', '[' or the end may follow. */
  lemma IndexThenTextRejected(lit: string, rest: string)
    requires NoClose(lit) && ParseIndexLiteral(lit).Some?
    requires |rest| > 0 && rest[0] != '.' && rest[0] != '['
    ensures ParseIndices("[" + lit + "]" + rest) == None
  {
    var u := "[" + lit + "]" + rest;
    assert u[1..] == lit + "]" + rest;
    CloseAtFirst(lit, rest);
    assert u[1..1 + |lit|] == lit;
    assert u[1 + |lit| + 1..] == rest;
  }

  /** Text glued to a closing ']' makes the whole path malformed, wherever the index stands. */
  lemma TextAfterIndexRejected(p: seq<Segment>, lit: string, rest: string)
    requires WellFormed(p) && NoClose(lit) && ParseIndexLiteral(lit).Some?
    requires |rest| > 0 && rest[0] != '.' && rest[0] != '['
    ensures ParsePath(Render(p) + "[" + lit + "]" + rest) == Err(MalformedPath(Render(p) + "[" + lit + "]" + rest))
  {
    var s := "[" + lit + "]" + rest;
    IndexThenTextRejected(lit, rest);
    SuffixRejected(p, s);
    Regroup(Render(p), lit, rest);
  }

  /**
   * An index literal that is not a non-negative integer makes the whole
   * path malformed, wherever the bracket stands.
   */
  lemma BadIndexRejected(p: seq<Segment>, lit: string, rest: string)
    requires WellFormed(p) && NoClose(lit) && ParseIndexLiteral(lit) == None
    ensures ParsePath(Render(p) + "[" + lit + "]" + rest) == Err(MalformedPath(Render(p) + "[" + lit + "]" + rest))
  {
    var s := "[" + lit + "]" + rest;
    IndexLiteralRejected(lit, rest);
    SuffixRejected(p, s);
    Regroup(Render(p), lit, rest);
  }

  lemma Regroup(r: string, lit: string, rest: string)
    ensures r + "[" + lit + "]" + rest == r + ("[" + lit + "]" + rest)
  {
  }

  /** A bracket that is never closed makes the whole path malformed, wherever it stands. */
  lemma UnclosedBracketRejected(p: seq<Segment>, rest: string)
    requires WellFormed(p) && NoClose(rest)
    ensures ParsePath(Render(p) + "[" + rest) == Err(MalformedPath(Render(p) + "[" + rest))
  {
    var s := "[" + rest;
    assert Render(p) + "[" + rest == Render(p) + s;
    assert s[1..] == rest && CloseAt(rest) == |rest|;
    assert ParseIndices(s) == None;
    SuffixRejected(p, s);
  }

  /** The one-member path `a`, rendered. */
  lemma MemberA()
    ensures WellFormed([Member("a")]) && Render([Member("a")]) == "a"
  {
    assert [Member("a")][1..] == [];
  }

  /** Empty segments are rejected: `a..b`, `a.` and `.a`. */
  lemma EmptySegmentsRejected()
    ensures ParsePath("a..b").Err? && ParsePath("a.").Err? && ParsePath(".a").Err?
  {
    MemberA();
    EmptySegmentRejected([Member("a")], ".b");
    assert "a" + "." + ".b" == "a..b";
    EmptySegmentRejected([Member("a")], "");
    assert "a" + "." + "" == "a.";
    LeadingDelimiterRejected(".a");
  }

  /** A stray ']' and text glued after an index are rejected: `a]` and `a[0]x`. */
  lemma StrayTextRejected()
    ensures ParsePath("a]").Err? && ParsePath("a[0]x").Err?
  {
    MemberA();
    StrayCloseRejected([Member("a")], "");
    assert "a" + "]" + "" == "a]";
    assert ParseIndexLiteral("0") == Some(0);
    TextAfterIndexRejected([Member("a")], "0", "x");
    assert "a" + "[" + "0" + "]" + "x" == "a[0]x";
  }
}
