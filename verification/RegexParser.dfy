/**
  The recursive-descent parser of the regex engine: as a function of the text still to
  be read, and as the class that advances through it.
 */
module RegexParser {
  import opened RegexModel
  import opened Wrappers
  import Decimal

  const MAX_COUNT: nat := 0xffff_ffff

  datatype ParseError =
    | UnexpectedCharacter(position: nat)
    | GroupFlags
    | UnclosedGroup
    | UnmatchedParenthesis
    | EndsWithBackslash
    | BoundTooLarge
    | BoundBackwards
    | UnclosedClass
    | UnclosedRange
    | NotInClass
    | BadEndpoint
    | RangeBackwards
    | EmptyClass

  /** What was parsed, the text left, and the groups opened so far. */
  datatype Parsed<T> = Parsed(value: T, rest: string, count: nat)

  // ---- escapes and classes ---------------------------------------------------------------------

  const DIGIT_RANGES: seq<(char, char)> := [('0', '9')]
  const WORD_RANGES: seq<(char, char)> := [('a', 'z'), ('A', 'Z'), ('0', '9'), ('_', '_')]
  const SPACE_RANGES: seq<(char, char)> := [(' ', ' '), ('\t', '\t'), ('\n', '\n'), ('\r', '\r'), ('\U{0b}', '\U{0c}')]

  /** The node for a backslash escape. */
  function EscapeNode(c: char): (n: Node)
    ensures n.Char? || n.Class? || n.WordBoundary?
  {
    if c == 'd' then Class(DIGIT_RANGES, false)
    else if c == 'D' then Class(DIGIT_RANGES, true)
    else if c == 'w' then Class(WORD_RANGES, false)
    else if c == 'W' then Class(WORD_RANGES, true)
    else if c == 's' then Class(SPACE_RANGES, false)
    else if c == 'S' then Class(SPACE_RANGES, true)
    else if c == 'b' then WordBoundary(false)
    else if c == 'B' then WordBoundary(true)
    else if c == 'n' then Char('\n')
    else if c == 't' then Char('\t')
    else if c == 'r' then Char('\r')
    else if c == '0' then Char('\0')
    else Char(c)
  }

  type Ranges = seq<(char, char)>

  /** The end of a range that starts with `low`, or `low` alone. */
  function RangeAt(low: char, rest: string): (r: Result<((char, char), string), ParseError>)
    ensures r.Ok? ==> |r.value.1| <= |rest| && r.value.0.0 <= r.value.0.1
  {
    if rest != "" && rest[0] == '-' && !(|rest| > 1 && rest[1] == ']') then
      if |rest| < 2 then Err(UnclosedRange)
      else if rest[1] == '\\' then
        if |rest| < 3 then Err(EndsWithBackslash)
        else
          var node := EscapeNode(rest[2]);
          if !node.Char? then Err(BadEndpoint)
          else if node.c < low then Err(RangeBackwards)
          else Ok(((low, node.c), rest[3..]))
      else if rest[1] < low then Err(RangeBackwards)
      else Ok(((low, rest[1]), rest[2..]))
    else Ok(((low, low), rest))
  }

  /** The members of a class, up to its closing bracket. */
  function ClassMembers(rest: string, first: bool, ranges: Ranges): (r: Result<(Ranges, string), ParseError>)
    ensures r.Ok? ==> |r.value.1| < |rest|
    decreases |rest|
  {
    if rest == "" then Err(UnclosedClass)
    else if rest[0] == ']' && !first then Ok((ranges, rest[1..]))
    else if rest[0] == '\\' then
      if |rest| < 2 then Err(EndsWithBackslash)
      else
        match EscapeNode(rest[1])
        case Char(low) => ClassGoesOn(RangeAt(low, rest[2..]), rest, ranges)
        case Class(nested, negated) => if negated then Err(NotInClass)
          else ClassMembers(rest[2..], false, ranges + nested)
        case _ => Err(NotInClass)
    else ClassGoesOn(RangeAt(rest[0], rest[1..]), rest, ranges)
  }

  function ClassGoesOn(
    member: Result<((char, char), string), ParseError>, before: string,
    ranges: Ranges): (r: Result<(Ranges, string), ParseError>)
    requires member.Ok? ==> |member.value.1| < |before|
    ensures r.Ok? ==> |r.value.1| < |before|
    decreases |before|, 0
  {
    match member
    case Err(e) => Err(e)
    case Ok(m) => ClassMembers(m.1, false, ranges + [m.0])
  }

  /** A bracketed class, after its opening bracket. */
  function ClassAt(rest: string): (r: Result<(Node, string), ParseError>)
    ensures r.Ok? ==> |r.value.1| < |rest|
  {
    var negated := rest != "" && rest[0] == '^';
    match ClassMembers(if negated then rest[1..] else rest, true, [])
    case Err(e) => Err(e)
    case Ok(m) => if m.0 == [] then Err(EmptyClass) else Ok((Class(m.0, negated), m.1))
  }

  // ---- quantifiers ---------------------------------------------------------------------------------

  /** The upper bound after the comma, and the text after the closing brace. */
  function UpperAt(min: nat, rest: string): (r: Result<Option<((nat, nat), string)>, ParseError>)
    ensures r.Ok? && r.value.Some?
            ==> |r.value.value.1| < |rest| && r.value.value.0.0 == min <= r.value.value.0.1 <= MAX_COUNT
  {
    var m := Decimal.DigitRun(rest);
    var end := rest[m..];
    if end == "" || end[0] != '}' then Ok(None)
    else
      var max: nat := if m == 0 then MAX_COUNT else Decimal.Value(rest[..m]);
      if max > MAX_COUNT then Err(BoundTooLarge)
      else if max < min then Err(BoundBackwards)
      else Ok(Some(((min, max), end[1..])))
  }

  /** Bounds after the opening brace, and the text after them; nothing when the braces do not form any. */
  function BoundsAt(rest: string): (r: Result<Option<((nat, nat), string)>, ParseError>)
    ensures r.Ok? && r.value.Some? ==> |r.value.value.1| < |rest| && r.value.value.0.0 <= r.value.value.0.1 <= MAX_COUNT
  {
    var n := Decimal.DigitRun(rest);
    if n == 0 then Ok(None)
    else
      var min := Decimal.Value(rest[..n]);
      if min > MAX_COUNT then Err(BoundTooLarge)
      else
        var after := rest[n..];
        if after != "" && after[0] == '}' then Ok(Some(((min, min), after[1..])))
        else if after != "" && after[0] == ',' then UpperAt(min, after[1..])
        else Ok(None)
  }

  /** The bounds a quantifier gives, if there is one. */
  function QuantifierAt(rest: string): (r: Result<Option<((nat, nat), string)>, ParseError>)
    ensures r.Ok? && r.value.Some? ==> |r.value.value.1| < |rest| && r.value.value.0.0 <= r.value.value.0.1 <= MAX_COUNT
  {
    if rest == "" then Ok(None)
    else if rest[0] == '*' then Ok(Some(((0, MAX_COUNT), rest[1..])))
    else if rest[0] == '+' then Ok(Some(((1, MAX_COUNT), rest[1..])))
    else if rest[0] == '?' then Ok(Some(((0, 1), rest[1..])))
    else if rest[0] == '{' then BoundsAt(rest[1..])
    else Ok(None)
  }

  /** A node with the quantifier that follows it; a trailing `?` makes it lazy. */
  function Quantified(node: Node, rest: string): (r: Result<(Node, string), ParseError>)
    ensures r.Ok? ==> |r.value.1| <= |rest|
  {
    match QuantifierAt(rest)
    case Err(e) => Err(e)
    case Ok(None) => Ok((node, rest))
    case Ok(Some(q)) =>
      var lazy := q.1 != "" && q.1[0] == '?';
      Ok((Repeat(node, q.0.0, q.0.1, !lazy), if lazy then q.1[1..] else q.1))
  }

  // ---- the grammar -------------------------------------------------------------------------------------

  function AlternativesAt(rest: string, count: nat): (r: Result<Parsed<seq<Branch>>, ParseError>)
    ensures r.Ok? ==> |r.value.rest| <= |rest|
    decreases |rest|, 2
  {
    match SequenceAt(rest, count)
    case Err(e) => Err(e)
    case Ok(p) =>
      if p.rest != "" && p.rest[0] == '|' then
        match AlternativesAt(p.rest[1..], p.count)
        case Err(e) => Err(e)
        case Ok(q) => Ok(Parsed([Branch(p.value)] + q.value, q.rest, q.count))
      else Ok(Parsed([Branch(p.value)], p.rest, p.count))
  }

  function SequenceAt(rest: string, count: nat): (r: Result<Parsed<seq<Node>>, ParseError>)
    ensures r.Ok? ==> |r.value.rest| <= |rest|
    decreases |rest|, 1
  {
    if rest == "" || rest[0] == '|' || rest[0] == ')' then Ok(Parsed([], rest, count))
    else
      match AtomAt(rest, count)
      case Err(e) => Err(e)
      case Ok(atom) =>
        match Quantified(atom.value, atom.rest)
        case Err(e) => Err(e)
        case Ok(q) =>
          match SequenceAt(q.1, atom.count)
          case Err(e) => Err(e)
          case Ok(p) => Ok(Parsed([q.0] + p.value, p.rest, p.count))
  }

  function AtomAt(rest: string, count: nat): (r: Result<Parsed<Node>, ParseError>)
    requires rest != ""
    ensures r.Ok? ==> |r.value.rest| < |rest|
    decreases |rest|, 0
  {
    var c := rest[0];
    if c == '.' then Ok(Parsed(Any, rest[1..], count))
    else if c == '^' then Ok(Parsed(Start, rest[1..], count))
    else if c == '$' then Ok(Parsed(End, rest[1..], count))
    else if c == '(' then
      if |rest| > 1 && rest[1] == '?' then
        if |rest| > 2 && rest[2] == ':' then GroupAt(rest[3..], None, count) else Err(GroupFlags)
      else GroupAt(rest[1..], Some(count + 1), count + 1)
    else if c == '[' then
      match ClassAt(rest[1..])
      case Err(e) => Err(e)
      case Ok(m) => Ok(Parsed(m.0, m.1, count))
    else if c == '\\' then
      if |rest| < 2 then Err(EndsWithBackslash) else Ok(Parsed(EscapeNode(rest[1]), rest[2..], count))
    else if c == ')' then Err(UnmatchedParenthesis)
    else Ok(Parsed(Char(c), rest[1..], count))
  }

  /** A group's body and its closing parenthesis. */
  function GroupAt(rest: string, index: Option<nat>, count: nat): (r: Result<Parsed<Node>, ParseError>)
    ensures r.Ok? ==> |r.value.rest| < |rest|
    decreases |rest|, 3
  {
    match AlternativesAt(rest, count)
    case Err(e) => Err(e)
    case Ok(p) =>
      if p.rest == "" || p.rest[0] != ')' then Err(UnclosedGroup)
      else Ok(Parsed(Group(p.value, index), p.rest[1..], p.count))
  }

  /** A whole pattern: its alternatives and how many groups it opens. */
  function PatternAt(pattern: string): Result<(seq<Branch>, nat), ParseError> {
    match AlternativesAt(pattern, 0)
    case Err(e) => Err(e)
    case Ok(p) => if p.rest != "" then Err(UnexpectedCharacter(|pattern| - |p.rest|)) else Ok((p.value, p.count))
  }

  /** From `a` on, the digits run to `b` and on from there. */
  ghost predicate Scanned(s: string, a: nat, b: nat) {
    a <= b <= |s| && Decimal.DigitRun(s[a..]) == b - a + Decimal.DigitRun(s[b..])
  }

  lemma {:induction false} ScanStarts(s: string, a: nat)
    requires a <= |s|
    ensures Scanned(s, a, a)
  {
  }

  lemma {:induction false} ScanGoesOn(s: string, a: nat, b: nat)
    requires Scanned(s, a, b) && b < |s| && Decimal.IsDigit(s[b])
    ensures Scanned(s, a, b + 1) && s[a..b + 1] == s[a..b] + [s[b]]
  {
    hide Decimal.IsDigit;
    assert s[b..][1..] == s[b + 1..];
  }

  lemma {:induction false} ScanEnds(s: string, a: nat, b: nat)
    requires Scanned(s, a, b) && (b < |s| ==> !Decimal.IsDigit(s[b]))
    ensures Decimal.DigitRun(s[a..]) <= |s| - a
    ensures s[a..b] == s[a..][..Decimal.DigitRun(s[a..])] && s[b..] == s[a..][Decimal.DigitRun(s[a..])..]
  {
    hide Decimal.IsDigit;
    assert Decimal.DigitRun(s[b..]) == 0;
  }

  // ---- the parser object --------------------------------------------------------------------------------

  function WithNodes(
    nodes: seq<Node>, r: Result<Parsed<seq<Node>>, ParseError>): Result<Parsed<seq<Node>>, ParseError> {
    match r
    case Err(e) => Err(e)
    case Ok(p) => Ok(Parsed(nodes + p.value, p.rest, p.count))
  }

  function WithBranches(
    branches: seq<Branch>, r: Result<Parsed<seq<Branch>>, ParseError>): Result<Parsed<seq<Branch>>, ParseError> {
    match r
    case Err(e) => Err(e)
    case Ok(p) => Ok(Parsed(branches + p.value, p.rest, p.count))
  }

  lemma {:induction false} WithMoreNodes(nodes: seq<Node>, node: Node, r: Result<Parsed<seq<Node>>, ParseError>)
    ensures WithNodes(nodes, WithNodes([node], r)) == WithNodes(nodes + [node], r)
    ensures WithNodes([], r) == r
  {
    if r.Ok? {
      assert nodes + ([node] + r.value.value) == nodes + [node] + r.value.value;
      assert [] + r.value.value == r.value.value;
    }
  }

  lemma {:induction false} WithMoreBranches(
    branches: seq<Branch>, branch: Branch, r: Result<Parsed<seq<Branch>>, ParseError>)
    ensures WithBranches(branches, WithBranches([branch], r)) == WithBranches(branches + [branch], r)
  {
    if r.Ok? {
      assert branches + ([branch] + r.value.value) == branches + [branch] + r.value.value;
    }
  }

  class Parser {
    const chars: string
    var position: nat
    var groupCount: nat

    constructor (pattern: string)
      ensures Valid() && chars == pattern && Left() == pattern && groupCount == 0
    {
      chars, position, groupCount := pattern, 0, 0;
      new;
      assert chars[0..] == chars;
    }

    ghost predicate Valid()
      reads this
    {
      position <= |chars|
    }

    /** The text still to be read. */
    ghost function Left(): string
      requires Valid()
      reads this
    {
      chars[position..]
    }

    lemma {:induction false} Remaining()
      requires Valid()
      ensures position + |Left()| == |chars| && (Left() == "" <==> position == |chars|)
    {
    }

    method Peek() returns (c: Option<char>)
      requires Valid()
      ensures c == if Left() == "" then None else Some(Left()[0])
    {
      c := if position < |chars| then Some(chars[position]) else None;
    }

    method Advance(n: nat)
      requires Valid() && n <= |Left()|
      modifies this`position
      ensures Valid() && Left() == old(Left())[n..] && position == old(position) + n
    {
      position := position + n;
      assert chars[old(position)..][n..] == chars[position..];
    }

    method Next() returns (c: Option<char>)
      requires Valid()
      modifies this`position
      ensures Valid() && c == if old(Left()) == "" then None else Some(old(Left())[0])
      ensures Left() == if old(Left()) == "" then "" else old(Left())[1..]
      ensures |Left()| <= |old(Left())|
    {
      c := Peek();
      if c.Some? {
        Advance(1);
      }
    }

    method ParseDigits() returns (digits: string)
      requires Valid()
      modifies this`position
      ensures Valid() && digits == old(Left())[..Decimal.DigitRun(old(Left()))]
              && Left() == old(Left())[Decimal.DigitRun(old(Left()))..]
    {
      hide Decimal.DigitRun, Decimal.IsDigit, Scanned;
      digits := "";
      ghost var start := position;
      ScanStarts(chars, start);
      while position < |chars| && Decimal.IsDigit(chars[position])
        invariant start <= position <= |chars| && digits == chars[start..position]
        invariant Scanned(chars, start, position)
      {
        ScanGoesOn(chars, start, position);
        digits := digits + [chars[position]];
        position := position + 1;
      }
      ScanEnds(chars, start, position);
    }

    /** Bounds in braces; when the braces do not form any, nothing is consumed. */
    method ParseBounds() returns (bounds: Result<Option<(nat, nat)>, ParseError>)
      requires Valid() && Left() != "" && Left()[0] == '{'
      modifies this`position
      ensures Valid()
      ensures match BoundsAt(old(Left())[1..])
              case Err(e) => bounds == Err(e)
              case Ok(None) => bounds == Ok(None) && Left() == old(Left())
              case Ok(Some(b)) => bounds == Ok(Some(b.0)) && Left() == b.1
    {
      hide Decimal.Value, Decimal.DigitRun, UpperAt;
      var start := position;
      Advance(1);
      var minimum := ParseDigits();
      if minimum == "" {
        position := start;
        return Ok(None);
      }
      var min := Decimal.Value(minimum);
      if min > MAX_COUNT {
        return Err(BoundTooLarge);
      }
      var c := Peek();
      if c == Some('}') {
        Advance(1);
        return Ok(Some((min, min)));
      }
      if c != Some(',') {
        position := start;
        return Ok(None);
      }
      Advance(1);
      var upper := ParseUpper(min);
      match upper
      case Err(e) => return Err(e);
      case Ok(None) =>
        position := start;
        return Ok(None);
      case Ok(Some(max)) => return Ok(Some((min, max)));
    }

    method ParseUpper(min: nat) returns (upper: Result<Option<nat>, ParseError>)
      requires Valid()
      modifies this`position
      ensures Valid()
      ensures match UpperAt(min, old(Left()))
              case Err(e) => upper == Err(e)
              case Ok(None) => upper == Ok(None)
              case Ok(Some(b)) => upper == Ok(Some(b.0.1)) && b.0.0 == min && Left() == b.1
    {
      hide Decimal.Value, Decimal.DigitRun;
      var maximum := ParseDigits();
      var c := Peek();
      if c != Some('}') {
        return Ok(None);
      }
      Advance(1);
      var max: nat := MAX_COUNT;
      if maximum != "" {
        max := Decimal.Value(maximum);
      }
      if max > MAX_COUNT {
        return Err(BoundTooLarge);
      }
      if max < min {
        return Err(BoundBackwards);
      }
      upper := Ok(Some(max));
    }

    method ParseQuantifier(node: Node) returns (result: Result<Node, ParseError>)
      requires Valid()
      modifies this`position
      ensures Valid()
      ensures match Quantified(node, old(Left()))
              case Err(e) => result == Err(e)
              case Ok(q) => result == Ok(q.0) && Left() == q.1
    {
      hide BoundsAt;
      var min: nat, max: nat;
      var c := Peek();
      if c == Some('*') {
        Advance(1);
        min, max := 0, MAX_COUNT;
      } else if c == Some('+') {
        Advance(1);
        min, max := 1, MAX_COUNT;
      } else if c == Some('?') {
        Advance(1);
        min, max := 0, 1;
      } else if c == Some('{') {
        var bounds := ParseBounds();
        if bounds.Err? {
          return Err(bounds.error);
        }
        if bounds.value == None {
          return Ok(node);
        }
        min, max := bounds.value.value.0, bounds.value.value.1;
      } else {
        return Ok(node);
      }
      var greedy := true;
      c := Peek();
      if c == Some('?') {
        Advance(1);
        greedy := false;
      }
      result := Ok(Repeat(node, min, max, greedy));
    }

    /** The end of a range in a class. */
    method ParseRange(low: char) returns (result: Result<(char, char), ParseError>)
      requires Valid()
      modifies this`position
      ensures Valid()
      ensures match RangeAt(low, old(Left()))
              case Err(e) => result == Err(e)
              case Ok(m) => result == Ok(m.0) && Left() == m.1
    {
      ghost var before := Left();
      if !(position < |chars| && chars[position] == '-') || (position + 1 < |chars| && chars[position + 1] == ']') {
        return Ok((low, low));
      }
      Advance(1);
      var highRaw := Next();
      if highRaw == None {
        return Err(UnclosedRange);
      }
      var high := highRaw.value;
      if high == '\\' {
        assert Left() == before[2..];
        var escaped := Next();
        if escaped == None {
          return Err(EndsWithBackslash);
        }
        var node := EscapeNode(escaped.value);
        if !node.Char? {
          return Err(BadEndpoint);
        }
        assert Left() == before[3..];
        high := node.c;
      } else {
        assert Left() == before[2..];
      }
      if high < low {
        return Err(RangeBackwards);
      }
      result := Ok((low, high));
    }

    method ParseClass() returns (result: Result<Node, ParseError>)
      requires Valid()
      modifies this`position
      ensures Valid()
      ensures match ClassAt(old(Left()))
              case Err(e) => result == Err(e)
              case Ok(m) => result == Ok(m.0) && Left() == m.1
    {
      hide RangeAt, EscapeNode;
      var negated := false;
      var c := Peek();
      if c == Some('^') {
        Advance(1);
        negated := true;
      }
      ghost var inside := Left();
      var ranges: Ranges := [];
      var first := true;
      while true
        invariant Valid() && ClassMembers(Left(), first, ranges) == ClassMembers(inside, true, [])
        decreases |Left()|
      {
        ghost var before := Left();
        c := Next();
        if c == None {
          return Err(UnclosedClass);
        }
        if c == Some(']') && !first {
          break;
        }
        first := false;
        var low := c.value;
        if low == '\\' {
          var escaped := Next();
          if escaped == None {
            return Err(EndsWithBackslash);
          }
          assert Left() == before[2..];
          match EscapeNode(escaped.value) {
            case Char(literal) => low := literal;
            case Class(nested, inverted) =>
              if inverted {
                return Err(NotInClass);
              }
              ranges := ranges + nested;
              continue;
            case _ => return Err(NotInClass);
          }
        }
        ghost var after := Left();
        var member := ParseRange(low);
        RangeShrinks(low, after);
        if member.Err? {
          return Err(member.error);
        }
        ranges := ranges + [member.value];
      }
      if ranges == [] {
        return Err(EmptyClass);
      }
      result := Ok(Class(ranges, negated));
    }

    static lemma {:induction false} RangeShrinks(low: char, rest: string)
      ensures RangeAt(low, rest).Ok? ==> |RangeAt(low, rest).value.1| <= |rest|
    {
    }

    method ParseAlternatives() returns (result: Result<seq<Branch>, ParseError>)
      requires Valid()
      modifies this
      ensures Valid()
      ensures match AlternativesAt(old(Left()), old(groupCount))
              case Err(e) => result == Err(e)
              case Ok(p) => result == Ok(p.value) && Left() == p.rest && groupCount == p.count
      decreases |Left()|, 2
    {
      hide AlternativesAt, SequenceAt, Following;
      ghost var whole := AlternativesAt(Left(), groupCount);
      FirstBranch(Left(), groupCount);
      SequenceShrinks(Left(), groupCount);
      ghost var bound := |Left()|;
      var nodes := ParseSequence();
      if nodes.Err? {
        return Err(nodes.error);
      }
      var branches := [Branch(nodes.value)];
      while position < |chars| && chars[position] == '|'
        invariant Valid() && |Left()| <= bound && whole == Following(branches, Left(), groupCount)
        decreases |Left()|
      {
        NextBranch(branches, Left(), groupCount);
        Advance(1);
        SequenceShrinks(Left(), groupCount);
        nodes := ParseSequence();
        if nodes.Err? {
          return Err(nodes.error);
        }
        branches := branches + [Branch(nodes.value)];
      }
      NoMoreBranches(branches, Left(), groupCount);
      result := Ok(branches);
    }

    method ParseSequence() returns (result: Result<seq<Node>, ParseError>)
      requires Valid()
      modifies this
      ensures Valid()
      ensures match SequenceAt(old(Left()), old(groupCount))
              case Err(e) => result == Err(e)
              case Ok(p) => result == Ok(p.value) && Left() == p.rest && groupCount == p.count
      decreases |Left()|, 1
    {
      hide AtomAt, Quantified;
      ghost var whole := SequenceAt(Left(), groupCount);
      var nodes: seq<Node> := [];
      WithMoreNodes([], Any, whole);
      ghost var bound := |Left()|;
      while position < |chars| && chars[position] != '|' && chars[position] != ')'
        invariant Valid() && |Left()| <= bound
        invariant whole == WithNodes(nodes, SequenceAt(Left(), groupCount))
        decreases |Left()|
      {
        ghost var before, count := Left(), groupCount;
        var atom := ParseAtom();
        if atom.Err? {
          return Err(atom.error);
        }
        ghost var middle := Left();
        var node := ParseQuantifier(atom.value);
        if node.Err? {
          return Err(node.error);
        }
        AtomShrinks(before, count);
        QuantifierShrinks(atom.value, middle);
        WithMoreNodes(nodes, node.value, SequenceAt(Left(), groupCount));
        nodes := nodes + [node.value];
      }
      assert nodes + [] == nodes;
      result := Ok(nodes);
    }

    method ParseAtom() returns (result: Result<Node, ParseError>)
      requires Valid() && Left() != ""
      modifies this
      ensures Valid()
      ensures match AtomAt(old(Left()), old(groupCount))
              case Err(e) => result == Err(e)
              case Ok(p) => result == Ok(p.value) && Left() == p.rest && groupCount == p.count
      decreases |Left()|, 0
    {
      hide AlternativesAt, ClassAt, EscapeNode;
      ghost var before := Left();
      var next := Next();
      var c := next.value;
      if c == '.' {
        return Ok(Any);
      } else if c == '^' {
        return Ok(Start);
      } else if c == '$' {
        return Ok(End);
      } else if c == '(' {
        var index: Option<nat> := None;
        var flag := Peek();
        if flag == Some('?') {
          if position + 1 < |chars| && chars[position + 1] == ':' {
            Advance(2);
            assert Left() == before[3..];
          } else {
            return Err(GroupFlags);
          }
        } else {
          groupCount := groupCount + 1;
          index := Some(groupCount);
        }
        var body := ParseAlternatives();
        if body.Err? {
          return Err(body.error);
        }
        var close := Next();
        if close != Some(')') {
          return Err(UnclosedGroup);
        }
        return Ok(Group(body.value, index));
      } else if c == '[' {
        result := ParseClass();
      } else if c == '\\' {
        var escaped := Next();
        if escaped == None {
          return Err(EndsWithBackslash);
        }
        assert Left() == before[2..];
        return Ok(EscapeNode(escaped.value));
      } else if c == ')' {
        return Err(UnmatchedParenthesis);
      } else {
        return Ok(Char(c));
      }
    }
  }

  /** What comes of the alternatives read so far and the text after them. */
  function Following(branches: seq<Branch>, rest: string, count: nat): Result<Parsed<seq<Branch>>, ParseError> {
    if rest != "" && rest[0] == '|' then WithBranches(branches, AlternativesAt(rest[1..], count))
    else Ok(Parsed(branches, rest, count))
  }

  lemma {:induction false} FirstBranch(rest: string, count: nat)
    ensures AlternativesAt(rest, count) ==
            match SequenceAt(rest, count)
            case Err(e) => Err(e)
            case Ok(p) => Following([Branch(p.value)], p.rest, p.count)
  {
    hide SequenceAt;
  }

  lemma {:induction false} NextBranch(branches: seq<Branch>, rest: string, count: nat)
    requires rest != "" && rest[0] == '|'
    ensures Following(branches, rest, count) ==
            match SequenceAt(rest[1..], count)
            case Err(e) => Err(e)
            case Ok(p) => Following(branches + [Branch(p.value)], p.rest, p.count)
  {
    hide SequenceAt, AlternativesAt;
    FirstBranch(rest[1..], count);
    var next := SequenceAt(rest[1..], count);
    if next.Ok? {
      var p := next.value;
      if p.rest != "" && p.rest[0] == '|' {
        WithMoreBranches(branches, Branch(p.value), AlternativesAt(p.rest[1..], p.count));
      }
    }
  }

  lemma {:induction false} NoMoreBranches(branches: seq<Branch>, rest: string, count: nat)
    requires rest == "" || rest[0] != '|'
    ensures Following(branches, rest, count) == Ok(Parsed(branches, rest, count))
  {
  }

  lemma {:induction false} SequenceShrinks(rest: string, count: nat)
    ensures SequenceAt(rest, count).Ok? ==> |SequenceAt(rest, count).value.rest| <= |rest|
  {
  }

  lemma {:induction false} AtomShrinks(rest: string, count: nat)
    requires rest != ""
    ensures AtomAt(rest, count).Ok? ==> |AtomAt(rest, count).value.rest| < |rest|
  {
  }

  lemma {:induction false} QuantifierShrinks(node: Node, rest: string)
    ensures Quantified(node, rest).Ok? ==> |Quantified(node, rest).value.1| <= |rest|
  {
  }

  /** Compiling a pattern: it parses to the end, or the first thing wrong with it is reported. */
  method ParsePattern(pattern: string) returns (result: Result<(seq<Branch>, nat), ParseError>)
    ensures result == PatternAt(pattern)
  {
    hide *;
    var parser := new Parser(pattern);
    var alternatives := parser.ParseAlternatives();
    parser.Remaining();
    PatternIs(pattern);
    if alternatives.Err? {
      return Err(alternatives.error);
    }
    if parser.position < |parser.chars| {
      return Err(UnexpectedCharacter(parser.position));
    }
    result := Ok((alternatives.value, parser.groupCount));
  }

  lemma {:induction false} PatternIs(pattern: string)
    ensures PatternAt(pattern) ==
            match AlternativesAt(pattern, 0)
            case Err(e) => Err(e)
            case Ok(p) => if p.rest != "" then Err(UnexpectedCharacter(|pattern| - |p.rest|))
              else Ok((p.value, p.count))
    ensures AlternativesAt(pattern, 0).Ok? ==> |AlternativesAt(pattern, 0).value.rest| <= |pattern|
  {
    hide AlternativesAt;
  }
}
