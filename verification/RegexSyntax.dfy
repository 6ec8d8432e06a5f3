/**
  Which trees patterns parse to: exactly those numbered in the order their groups
  open, with sensible bounds and ranges.
 */
module RegexSyntax {
  import opened RegexModel
  import opened RegexParser
  import opened Wrappers
  import Groups = RegexGroups
  import Decimal

  // ---- groups in the order they open -------------------------------------------------------------

  function NodeGroups(n: Node): nat
    decreases NodeSize(n), 0
  {
    match n
    case Group(alternatives, index) => (if index.Some? then 1 else 0) + AltsGroups(alternatives)
    case Repeat(node, _, _, _) => NodeGroups(node)
    case _ => 0
  }

  function SeqGroups(nodes: seq<Node>): nat
    decreases SeqSize(nodes), 1
  {
    if nodes == [] then 0
    else
      HeadSmaller(nodes);
      NodeGroups(nodes[0]) + SeqGroups(nodes[1..])
  }

  function AltsGroups(alts: seq<Branch>): nat
    decreases AltsSize(alts), 2
  {
    if alts == [] then 0 else SeqGroups(alts[0].nodes) + AltsGroups(alts[1..])
  }

  lemma {:induction false} HeadSmaller(nodes: seq<Node>)
    requires nodes != []
    ensures NodeSize(nodes[0]) <= SeqSize(nodes) && SeqSize(nodes[1..]) < SeqSize(nodes)
  {
  }

  predicate SoundRanges(ranges: Ranges) {
    forall k :: 0 <= k < |ranges| ==> ranges[k].0 <= ranges[k].1
  }

  /** The groups of a node are numbered from `from + 1` in the order they open; bounds do not count backwards. */
  predicate CanonNode(n: Node, from: nat)
    decreases NodeSize(n), 0
  {
    match n
    case Class(ranges, _) => ranges != [] && SoundRanges(ranges)
    case Group(alternatives, Some(index)) => index == from + 1 && alternatives != []
      && CanonAlts(alternatives, from + 1)
    case Group(alternatives, None) => alternatives != [] && CanonAlts(alternatives, from)
    case Repeat(node, min, max, _) => !node.Repeat? && min <= max <= MAX_COUNT && CanonNode(node, from)
    case _ => true
  }

  predicate CanonSeq(nodes: seq<Node>, from: nat)
    decreases SeqSize(nodes), 1
  {
    nodes == [] || (HeadSmaller(nodes); CanonNode(nodes[0], from) && CanonSeq(nodes[1..], from + NodeGroups(nodes[0])))
  }

  predicate CanonAlts(alts: seq<Branch>, from: nat)
    decreases AltsSize(alts), 2
  {
    alts == [] || (CanonSeq(alts[0].nodes, from) && CanonAlts(alts[1..], from + SeqGroups(alts[0].nodes)))
  }

  // ---- every parse is such a tree --------------------------------------------------------------------

  lemma {:induction false} SoundAppend(a: Ranges, b: Ranges)
    requires SoundRanges(a) && SoundRanges(b)
    ensures SoundRanges(a + b)
  {
  }

  lemma {:induction false} EscapesSound(c: char)
    ensures EscapeNode(c).Class? ==> EscapeNode(c).ranges != [] && SoundRanges(EscapeNode(c).ranges)
  {
  }

  lemma {:induction false} MembersSound(rest: string, first: bool, ranges: Ranges)
    requires SoundRanges(ranges)
    ensures ClassMembers(rest, first, ranges).Ok? ==> SoundRanges(ClassMembers(rest, first, ranges).value.0)
    decreases |rest|
  {
    hide RangeAt, EscapeNode;
    if rest == "" || (rest[0] == ']' && !first) {
    } else if rest[0] == '\\' {
      if |rest| >= 2 {
        EscapesSound(rest[1]);
        match EscapeNode(rest[1])
        case Char(low) => MemberSound(low, rest[2..], rest, ranges);
        case Class(nested, negated) =>
          if !negated {
            SoundAppend(ranges, nested);
            MembersSound(rest[2..], false, ranges + nested);
          }
        case _ =>
      }
    } else {
      MemberSound(rest[0], rest[1..], rest, ranges);
    }
  }

  lemma {:induction false} MemberSound(low: char, tail: string, before: string, ranges: Ranges)
    requires SoundRanges(ranges) && |tail| < |before|
    ensures RangeAt(low, tail).Ok? ==> |RangeAt(low, tail).value.1| < |before|
    ensures var r := ClassGoesOn(RangeAt(low, tail), before, ranges); r.Ok? ==> SoundRanges(r.value.0)
    decreases |before|, 0
  {
    var member := RangeAt(low, tail);
    if member.Ok? {
      SoundAppend(ranges, [member.value.0]);
      MembersSound(member.value.1, false, ranges + [member.value.0]);
    }
  }

  lemma {:induction false} ClassCanon(rest: string, from: nat)
    ensures ClassAt(rest).Ok? ==> ClassAt(rest).value.0.Class? && CanonNode(ClassAt(rest).value.0, from)
  {
    var negated := rest != "" && rest[0] == '^';
    MembersSound(if negated then rest[1..] else rest, true, []);
  }

  lemma {:induction false} QuantifiedCanon(node: Node, rest: string, from: nat)
    requires CanonNode(node, from) && !node.Repeat?
    ensures Quantified(node, rest).Ok? ==>
              CanonNode(Quantified(node, rest).value.0, from)
                && NodeGroups(Quantified(node, rest).value.0) == NodeGroups(node)
  {
  }

  lemma {:induction false} AlternativesCanon(rest: string, count: nat)
    ensures AlternativesAt(rest, count).Ok? ==>
              var p := AlternativesAt(rest, count).value;
              p.value != [] && CanonAlts(p.value, count) && p.count == count + AltsGroups(p.value)
    decreases |rest|, 2
  {
    hide SequenceAt, AtomAt;
    SequenceCanon(rest, count);
    SequenceShrinks(rest, count);
    var s := SequenceAt(rest, count);
    if s.Ok? && s.value.rest != "" && s.value.rest[0] == '|' {
      AlternativesCanon(s.value.rest[1..], s.value.count);
      var q := AlternativesAt(s.value.rest[1..], s.value.count);
      if q.Ok? {
        assert ([Branch(s.value.value)] + q.value.value)[1..] == q.value.value;
      }
    } else if s.Ok? {
      assert [Branch(s.value.value)][1..] == [];
    }
  }

  lemma {:induction false} SequenceCanon(rest: string, count: nat)
    ensures SequenceAt(rest, count).Ok? ==>
              var p := SequenceAt(rest, count).value;
              CanonSeq(p.value, count) && p.count == count + SeqGroups(p.value)
    decreases |rest|, 1
  {
    hide AtomAt, Quantified;
    if rest != "" && rest[0] != '|' && rest[0] != ')' {
      AtomCanon(rest, count);
      AtomShrinks(rest, count);
      var atom := AtomAt(rest, count);
      if atom.Ok? {
        QuantifiedCanon(atom.value.value, atom.value.rest, count);
        QuantifierShrinks(atom.value.value, atom.value.rest);
        var q := Quantified(atom.value.value, atom.value.rest);
        if q.Ok? {
          SequenceCanon(q.value.1, atom.value.count);
          var p := SequenceAt(q.value.1, atom.value.count);
          if p.Ok? {
            assert ([q.value.0] + p.value.value)[1..] == p.value.value;
          }
        }
      }
    }
  }

  lemma {:induction false} AtomCanon(rest: string, count: nat)
    requires rest != ""
    ensures AtomAt(rest, count).Ok? ==>
              var p := AtomAt(rest, count).value;
              !p.value.Repeat? && CanonNode(p.value, count) && p.count == count + NodeGroups(p.value)
    decreases |rest|, 0
  {
    hide ClassAt, AlternativesAt, SequenceAt, EscapeNode;
    if rest[0] == '(' {
      if |rest| > 1 && rest[1] == '?' {
        if |rest| > 2 && rest[2] == ':' {
          AlternativesCanon(rest[3..], count);
        }
      } else {
        AlternativesCanon(rest[1..], count + 1);
      }
    } else if rest[0] == '[' {
      ClassCanon(rest[1..], count);
    } else if rest[0] == '\\' && |rest| >= 2 {
      EscapesSound(rest[1]);
      EscapeKinds(rest[1]);
    }
  }

  lemma {:induction false} EscapeKinds(c: char)
    ensures EscapeNode(c).Char? || EscapeNode(c).Class? || EscapeNode(c).WordBoundary?
  {
  }

  /** Parsing numbers groups in the order they open, counts them all, and gives no backward bound or range. */
  lemma {:induction false} ParsesAreCanonical(pattern: string)
    ensures PatternAt(pattern).Ok? ==>
              var (alts, count) := PatternAt(pattern).value;
              alts != [] && CanonAlts(alts, 0) && count == AltsGroups(alts)
  {
    hide AlternativesAt;
    AlternativesCanon(pattern, 0);
  }

  // ---- a pattern for every such tree --------------------------------------------------------------------

  /** The characters an escape does not make literal. */
  predicate IsShorthand(c: char) {
    c in {'d', 'D', 'w', 'W', 's', 'S', 'b', 'B', 'n', 't', 'r', '0'}
  }

  /** The characters that mean something outside a class, and inside one. */
  predicate IsSpecial(c: char) {
    c in {'\\', '.', '^', '$', '(', ')', '[', '|', '*', '+', '?', '{'}
  }

  predicate IsSpecialInside(c: char) {
    c in {'\\', ']', '^', '-'}
  }

  /** The letter that a control character is written with. */
  function ControlLetter(c: char): (letter: Option<char>) {
    if c == '\n' then Some('n') else if c == '\t' then Some('t')
    else if c == '\r' then Some('r') else if c == '\0' then Some('0') else None
  }

  /**
    A literal character: in short as it is or as a control escape, in full behind a
    backslash where that is literal.
   */
  function Escaped(c: char, short: bool): (s: string)
    ensures 1 <= |s| <= 2
  {
    if short && ControlLetter(c).Some? then ['\\', ControlLetter(c).value]
    else if IsShorthand(c) || (short && !IsSpecial(c)) then [c]
    else ['\\', c]
  }

  function EscapedInside(c: char, short: bool): (s: string)
    ensures 1 <= |s| <= 2
  {
    if short && ControlLetter(c).Some? then ['\\', ControlLetter(c).value]
    else if IsShorthand(c) || (short && !IsSpecialInside(c)) then [c]
    else ['\\', c]
  }

  function ShowRange(low: char, high: char, short: bool): (s: string)
    ensures s != ""
  {
    if short && low == '0' && high == '9' then "\\d"
    else if short && low == high then EscapedInside(low, short)
    else EscapedInside(low, short) + ("-" + EscapedInside(high, short))
  }

  function ShowRanges(ranges: Ranges, short: bool): string {
    if ranges == [] then "" else ShowRange(ranges[0].0, ranges[0].1, short) + ShowRanges(ranges[1..], short)
  }

  /** The letter of a class that has an escape of its own. */
  function ClassLetter(ranges: Ranges, negated: bool): (letter: Option<char>) {
    if ranges == DIGIT_RANGES then Some(if negated then 'D' else 'd')
    else if ranges == WORD_RANGES then Some(if negated then 'W' else 'w')
    else if ranges == SPACE_RANGES then Some(if negated then 'S' else 's')
    else None
  }

  function ShowClass(ranges: Ranges, negated: bool, short: bool): (s: string)
    ensures s != ""
  {
    if short && ClassLetter(ranges, negated).Some? then ['\\', ClassLetter(ranges, negated).value]
    else "[" + ((if negated then "^" else "") + (ShowRanges(ranges, short) + "]"))
  }

  function ShowCount(min: nat, max: nat, short: bool): string {
    if short && min == 0 && max == MAX_COUNT then "*"
    else if short && min == 1 && max == MAX_COUNT then "+"
    else if short && min == 0 && max == 1 then "?"
    else if short && min == max then "{" + (Decimal.Digits(min) + "}")
    else if short && max == MAX_COUNT then "{" + (Decimal.Digits(min) + ",}")
    else "{" + (Decimal.Digits(min) + ("," + (Decimal.Digits(max) + "}")))
  }

  function ShowBounds(min: nat, max: nat, greedy: bool, short: bool): string {
    ShowCount(min, max, short) + if greedy then "" else "?"
  }

  function ShowNode(n: Node, short: bool): (s: string)
    ensures s != ""
    decreases NodeSize(n), 0
  {
    match n
    case Char(c) => Escaped(c, short)
    case Any => "."
    case Class(ranges, negated) => ShowClass(ranges, negated, short)
    case Start => "^"
    case End => "$"
    case WordBoundary(inverted) => if inverted then "\\B" else "\\b"
    case Group(alternatives, index) => (if index.Some? then "(" else "(?:") + (ShowAlts(alternatives, short) + ")")
    case Repeat(node, min, max, greedy) => ShowNode(node, short) + ShowBounds(min, max, greedy, short)
  }

  function ShowSeq(nodes: seq<Node>, short: bool): string
    decreases SeqSize(nodes), 1
  {
    if nodes == [] then ""
    else
      HeadSmaller(nodes);
      ShowNode(nodes[0], short) + ShowSeq(nodes[1..], short)
  }

  function ShowAlts(alts: seq<Branch>, short: bool): string
    decreases AltsSize(alts), 2
  {
    if alts == [] then ""
    else if |alts| == 1 then ShowSeq(alts[0].nodes, short)
    else ShowSeq(alts[0].nodes, short) + ("|" + ShowAlts(alts[1..], short))
  }

  // ---- reading them back ----------------------------------------------------------------------------------

  lemma {:induction false} Assoc(a: string, b: string, c: string)
    ensures (a + b) + c == a + (b + c)
  {
  }

  /** Nothing that would quantify what comes before. */
  predicate NoQuantifier(rest: string) {
    rest == "" || !(rest[0] in {'*', '+', '?', '{'})
  }

  predicate Stops(rest: string) {
    rest == "" || rest[0] == '|' || rest[0] == ')'
  }

  lemma {:induction false} EscapeOfOther(c: char)
    requires !IsShorthand(c)
    ensures EscapeNode(c) == Char(c)
  {
  }

  lemma {:induction false} ControlReads(c: char)
    requires ControlLetter(c).Some?
    ensures EscapeNode(ControlLetter(c).value) == Char(c)
  {
  }

  /** An escape is read as what it stands for. */
  lemma {:induction false} EscapeAtom(letter: char, tail: string, count: nat)
    ensures AtomAt(['\\', letter] + tail, count) == Ok(Parsed(EscapeNode(letter), tail, count))
  {
    var text := ['\\', letter] + tail;
    assert text[0] == '\\' && text[1] == letter && text[2..] == tail;
  }

  lemma {:induction false} CharReads(c: char, tail: string, count: nat, short: bool)
    ensures AtomAt(Escaped(c, short) + tail, count) == Ok(Parsed(Char(c), tail, count))
  {
    hide EscapeNode;
    if short && ControlLetter(c).Some? {
      ControlReads(c);
      EscapeAtom(ControlLetter(c).value, tail, count);
    } else if IsShorthand(c) || (short && !IsSpecial(c)) {
      assert ([c] + tail)[0] == c && ([c] + tail)[1..] == tail;
    } else {
      EscapeOfOther(c);
      EscapeAtom(c, tail, count);
    }
  }

  /** How a class member can begin: as it is, or as an escape. */
  ghost predicate ReadsAs(text: string, c: char) {
    if |text| == 1 then text[0] == c && c != ']' && c != '\\'
    else |text| == 2 && text[0] == '\\' && EscapeNode(text[1]) == Char(c)
  }

  lemma {:induction false} InsideReads(c: char, short: bool)
    ensures ReadsAs(EscapedInside(c, short), c) && EscapedInside(c, short)[0] != '^'
            && EscapedInside(c, short)[0] != '-'
  {
    hide EscapeNode;
    if short && ControlLetter(c).Some? {
      ControlReads(c);
    } else if !IsShorthand(c) && !(short && !IsSpecialInside(c)) {
      EscapeOfOther(c);
    }
  }

  lemma {:induction false} RangeReads(low: char, high: char, shown: string, tail: string)
    requires low <= high && ReadsAs(shown, high)
    ensures RangeAt(low, "-" + (shown + tail)) == Ok(((low, high), tail))
  {
    hide EscapeNode;
    var text := "-" + (shown + tail);
    if |shown| == 1 {
      assert text[1] == high && text[2..] == tail;
    } else {
      assert text[1] == '\\' && text[2] == shown[1] && text[3..] == tail;
    }
  }

  lemma {:induction false} MemberReads(c: char, shown: string, rest: string, first: bool, before: Ranges)
    requires ReadsAs(shown, c)
    ensures ClassMembers(shown + rest, first, before) == ClassGoesOn(RangeAt(c, rest), shown + rest, before)
  {
    hide EscapeNode, RangeAt;
    var text := shown + rest;
    if |shown| == 1 {
      assert text[0] == c && text[1..] == rest;
    } else {
      assert text[0] == '\\' && text[1] == shown[1] && text[2..] == rest;
    }
  }

  /** What follows a class member: another, or the bracket. */
  predicate MemberEnds(rest: string) {
    rest != "" && rest[0] != '-'
  }

  lemma {:induction false} ShownRangeReads(
    low: char, high: char, short: bool, tail: string, first: bool, before: Ranges)
    requires low <= high && MemberEnds(tail)
    ensures ClassMembers(ShowRange(low, high, short) + tail, first, before)
            == ClassMembers(tail, false, before + [(low, high)])
  {
    hide EscapeNode, EscapedInside, RangeAt, ClassMembers, ReadsAs;
    InsideReads(low, short);
    InsideReads(high, short);
    if short && low == '0' && high == '9' {
      DigitsInside(tail, first, before);
    } else if short && low == high {
      MemberReads(low, EscapedInside(low, short), tail, first, before);
      AloneReads(low, tail);
    } else {
      var rest := "-" + (EscapedInside(high, short) + tail);
      RangeReads(low, high, EscapedInside(high, short), tail);
      MemberReads(low, EscapedInside(low, short), rest, first, before);
      assert ShowRange(low, high, short) + tail == EscapedInside(low, short) + rest;
    }
  }

  lemma {:induction false} AloneReads(low: char, tail: string)
    requires MemberEnds(tail)
    ensures RangeAt(low, tail) == Ok(((low, low), tail))
  {
  }

  lemma {:induction false} DigitsInside(tail: string, first: bool, before: Ranges)
    ensures ClassMembers("\\d" + tail, first, before) == ClassMembers(tail, false, before + [('0', '9')])
  {
    var text := "\\d" + tail;
    assert text[0] == '\\' && text[1] == 'd' && text[2..] == tail;
  }

  lemma {:induction false} RangesRead(ranges: Ranges, tail: string, first: bool, before: Ranges, short: bool)
    requires SoundRanges(ranges) && (ranges == [] ==> !first)
    ensures ClassMembers(ShowRanges(ranges, short) + ("]" + tail), first, before) == Ok((before + ranges, tail))
    decreases |ranges|
  {
    hide *;
    if ranges == [] {
      CloseReads(tail, first, before);
      NoRanges("]" + tail, short);
      assert before + [] == before;
    } else {
      var low, high := ranges[0].0, ranges[0].1;
      var later := ShowRanges(ranges[1..], short) + ("]" + tail);
      RangeShown(ranges, "]" + tail, short);
      NextMember(ranges[1..], tail, short);
      ShownRangeReads(low, high, short, later, first, before);
      RangesRead(ranges[1..], tail, false, before + [(low, high)], short);
      assert before + [(low, high)] + ranges[1..] == before + ranges;
    }
  }

  lemma {:induction false} NoRanges(tail: string, short: bool)
    ensures ShowRanges([], short) + tail == tail
  {
  }

  lemma {:induction false} NextMember(ranges: Ranges, tail: string, short: bool)
    ensures MemberEnds(ShowRanges(ranges, short) + ("]" + tail))
  {
    hide EscapedInside;
    if ranges != [] {
      RangeStart(ranges[0].0, ranges[0].1, short);
    }
  }

  lemma {:induction false} RangeStart(low: char, high: char, short: bool)
    ensures ShowRange(low, high, short)[0] != '^' && ShowRange(low, high, short)[0] != '-'
  {
    hide EscapedInside;
    InsideReads(low, short);
  }

  lemma {:induction false} CloseReads(tail: string, first: bool, before: Ranges)
    requires !first
    ensures ClassMembers("]" + tail, first, before) == Ok((before, tail))
  {
    assert ("]" + tail)[1..] == tail;
  }

  lemma {:induction false} RangeShown(ranges: Ranges, tail: string, short: bool)
    requires ranges != [] && SoundRanges(ranges)
    ensures ranges[0].0 <= ranges[0].1 && SoundRanges(ranges[1..])
    ensures ShowRanges(ranges, short) + tail
            == ShowRange(ranges[0].0, ranges[0].1, short) + (ShowRanges(ranges[1..], short) + tail)
  {
    hide ShowRange;
    Assoc(ShowRange(ranges[0].0, ranges[0].1, short), ShowRanges(ranges[1..], short), tail);
  }

  lemma {:induction false} FirstMember(ranges: Ranges, short: bool)
    requires ranges != []
    ensures ShowRanges(ranges, short) != "" && ShowRanges(ranges, short)[0] != '^'
  {
    hide ShowRange;
    RangeStart(ranges[0].0, ranges[0].1, short);
  }

  lemma {:induction false} ClassReads(ranges: Ranges, negated: bool, tail: string, short: bool)
    requires ranges != [] && SoundRanges(ranges)
    ensures ClassAt((if negated then "^" else "") + (ShowRanges(ranges, short) + ("]" + tail)))
            == Ok((Class(ranges, negated), tail))
  {
    hide ClassMembers, ShowRanges;
    var inside := ShowRanges(ranges, short) + ("]" + tail);
    FirstMember(ranges, short);
    RangesRead(ranges, tail, true, [], short);
    assert [] + ranges == ranges;
    if negated {
      assert ("^" + inside)[0] == '^' && ("^" + inside)[1..] == inside;
    } else {
      assert "" + inside == inside && inside[0] == ShowRanges(ranges, short)[0];
    }
  }

  lemma {:induction false} DigitsRun(digits: string, tail: string)
    requires Decimal.AllDigits(digits) && tail != "" && !Decimal.IsDigit(tail[0])
    ensures Decimal.DigitRun(digits + tail) == |digits| && (digits + tail)[..|digits|] == digits
            && (digits + tail)[|digits|..] == tail
  {
    if digits == "" {
      assert digits + tail == tail;
    } else {
      assert (digits + tail)[1..] == digits[1..] + tail;
      DigitsRun(digits[1..], tail);
    }
  }

  lemma {:induction false} BoundsRead(min: nat, max: nat, tail: string)
    requires min <= max <= MAX_COUNT
    ensures BoundsAt(Decimal.Digits(min) + ("," + (Decimal.Digits(max) + ("}" + tail)))) == Ok(Some(((min, max), tail)))
  {
    hide Decimal.Digits, Decimal.Value, Decimal.DigitRun;
    var close := "}" + tail;
    var second := Decimal.Digits(max) + close;
    var comma := "," + second;
    DigitsShown(min);
    DigitsShown(max);
    DigitsRun(Decimal.Digits(min), comma);
    DigitsRun(Decimal.Digits(max), close);
    assert comma[1..] == second;
    assert close[1..] == tail;
    assert comma[1 + |Decimal.Digits(max)|..] == close;
  }

  lemma {:induction false} DigitsShown(n: nat)
    ensures Decimal.Digits(n) != "" && Decimal.AllDigits(Decimal.Digits(n)) && Decimal.Value(Decimal.Digits(n)) == n
  {
    Decimal.DigitsValue(n);
  }

  lemma {:induction false} ExactBoundRead(n: nat, tail: string)
    requires n <= MAX_COUNT
    ensures BoundsAt(Decimal.Digits(n) + ("}" + tail)) == Ok(Some(((n, n), tail)))
  {
    hide Decimal.Digits, Decimal.Value, Decimal.DigitRun;
    var close := "}" + tail;
    DigitsShown(n);
    DigitsRun(Decimal.Digits(n), close);
    assert close[1..] == tail;
  }

  lemma {:induction false} LowerBoundRead(min: nat, tail: string)
    requires min <= MAX_COUNT
    ensures BoundsAt(Decimal.Digits(min) + (",}" + tail)) == Ok(Some(((min, MAX_COUNT), tail)))
  {
    hide Decimal.Digits, Decimal.Value, Decimal.DigitRun;
    var comma, close := ",}" + tail, "}" + tail;
    DigitsShown(min);
    DigitsRun(Decimal.Digits(min), comma);
    DigitsRun("", close);
    assert "" + close == close && comma[1..] == close && close[1..] == tail && close[0..] == close;
  }

  /** Every way to write a count: `*`, `+`, `?`, and one or two bounds in braces. */
  lemma {:induction false} CountReads(min: nat, max: nat, tail: string, short: bool)
    requires min <= max <= MAX_COUNT
    ensures QuantifierAt(ShowCount(min, max, short) + tail) == Ok(Some(((min, max), tail)))
  {
    hide BoundsAt, Decimal.Digits;
    var text := ShowCount(min, max, short) + tail;
    if short && ((min <= 1 && max == MAX_COUNT) || (min == 0 && max == 1)) {
      assert text[1..] == tail;
    } else if short && min == max {
      BracesRead(Decimal.Digits(min) + "}", tail);
      Assoc(Decimal.Digits(min), "}", tail);
      ExactBoundRead(min, tail);
    } else if short && max == MAX_COUNT {
      BracesRead(Decimal.Digits(min) + ",}", tail);
      Assoc(Decimal.Digits(min), ",}", tail);
      LowerBoundRead(min, tail);
    } else {
      var upper := Decimal.Digits(max) + "}";
      BracesRead(Decimal.Digits(min) + ("," + upper), tail);
      Assoc(Decimal.Digits(min), "," + upper, tail);
      Assoc(",", upper, tail);
      Assoc(Decimal.Digits(max), "}", tail);
      BoundsRead(min, max, tail);
    }
  }

  lemma {:induction false} BracesRead(inside: string, tail: string)
    ensures QuantifierAt(("{" + inside) + tail) == BoundsAt(inside + tail)
  {
    hide BoundsAt;
    assert (("{" + inside) + tail)[1..] == inside + tail;
  }

  lemma {:induction false} QuantifierReads(
    node: Node, min: nat, max: nat, greedy: bool, tail: string, short: bool)
    requires min <= max <= MAX_COUNT && NoQuantifier(tail)
    ensures Quantified(node, ShowBounds(min, max, greedy, short) + tail) == Ok((Repeat(node, min, max, greedy), tail))
  {
    hide QuantifierAt, ShowCount;
    var lazy := if greedy then "" else "?";
    CountReads(min, max, lazy + tail, short);
    Assoc(ShowCount(min, max, short), lazy, tail);
    assert greedy ==> lazy + tail == tail;
    assert !greedy ==> (lazy + tail)[0] == '?' && (lazy + tail)[1..] == tail;
  }

  lemma {:induction false} NotQuantified(node: Node, tail: string)
    requires NoQuantifier(tail)
    ensures Quantified(node, tail) == Ok((node, tail))
  {
  }

  /** No shown node begins like a quantifier, an alternation or the end of a group. */
  lemma {:induction false} ShownStart(n: Node, tail: string, short: bool)
    ensures var text := ShowNode(n, short) + tail; text != "" && NoQuantifier(text) && !Stops(text)
    decreases NodeSize(n)
  {
    hide ShowAlts, ShowRanges, ShowBounds;
    if n.Repeat? {
      ShownStart(n.node, ShowBounds(n.min, n.max, n.greedy, short) + tail, short);
      Assoc(ShowNode(n.node, short), ShowBounds(n.min, n.max, n.greedy, short), tail);
    }
  }

  lemma {:induction false} SeqStart(nodes: seq<Node>, tail: string, short: bool)
    requires NoQuantifier(tail)
    ensures NoQuantifier(ShowSeq(nodes, short) + tail)
  {
    hide ShowNode;
    if nodes == [] {
      assert "" + tail == tail;
    } else {
      ShownStart(nodes[0], ShowSeq(nodes[1..], short) + tail, short);
      Assoc(ShowNode(nodes[0], short), ShowSeq(nodes[1..], short), tail);
    }
  }

  lemma {:induction false} AtomReads(n: Node, tail: string, count: nat, short: bool)
    requires CanonNode(n, count) && !n.Repeat?
    ensures ShowNode(n, short) + tail != ""
            && AtomAt(ShowNode(n, short) + tail, count) == Ok(Parsed(n, tail, count + NodeGroups(n)))
    decreases NodeSize(n), 0
  {
    match n
    case Char(c) => CharReads(c, tail, count, short);
    case Any => assert ("." + tail)[1..] == tail;
    case Start => assert ("^" + tail)[1..] == tail;
    case End => assert ("$" + tail)[1..] == tail;
    case WordBoundary(inverted) => BoundaryReads(inverted, tail, count, short);
    case Class(ranges, negated) => ClassAtomReads(ranges, negated, tail, count, short);
    case Group(alternatives, index) => GroupReads(alternatives, index, tail, count, short);
    case Repeat(_, _, _, _) =>
  }

  lemma {:induction false} BoundaryReads(inverted: bool, tail: string, count: nat, short: bool)
    ensures AtomAt(ShowNode(WordBoundary(inverted), short) + tail, count)
            == Ok(Parsed(WordBoundary(inverted), tail, count))
  {
    var text := ShowNode(WordBoundary(inverted), short) + tail;
    assert text[0] == '\\' && text[1] == (if inverted then 'B' else 'b') && text[2..] == tail;
  }

  lemma {:induction false} ClassAtomReads(ranges: Ranges, negated: bool, tail: string, count: nat, short: bool)
    requires ranges != [] && SoundRanges(ranges)
    ensures AtomAt(ShowClass(ranges, negated, short) + tail, count) == Ok(Parsed(Class(ranges, negated), tail, count))
  {
    hide ClassAt, ShowRanges, EscapeNode;
    if short && ClassLetter(ranges, negated).Some? {
      LetterMeans(ranges, negated);
      EscapeAtom(ClassLetter(ranges, negated).value, tail, count);
    } else {
      var caret := if negated then "^" else "";
      var inside := caret + (ShowRanges(ranges, short) + ("]" + tail));
      var text := ShowClass(ranges, negated, short) + tail;
      assert text == "[" + inside;
      assert text[0] == '[' && text[1..] == inside;
      ClassReads(ranges, negated, tail, short);
    }
  }

  lemma {:induction false} LetterMeans(ranges: Ranges, negated: bool)
    requires ClassLetter(ranges, negated).Some?
    ensures EscapeNode(ClassLetter(ranges, negated).value) == Class(ranges, negated)
  {
  }

  lemma {:induction false} GroupReads(
    alternatives: seq<Branch>, index: Option<nat>, tail: string, count: nat, short: bool)
    requires CanonNode(Group(alternatives, index), count)
    ensures AtomAt(ShowNode(Group(alternatives, index), short) + tail, count)
            == Ok(Parsed(Group(alternatives, index), tail, count + NodeGroups(Group(alternatives, index))))
    decreases AltsSize(alternatives), 3
  {
    hide AlternativesAt, SequenceAt, ShowAlts, CanonAlts;
    var inside := ShowAlts(alternatives, short) + (")" + tail);
    var text := ShowNode(Group(alternatives, index), short) + tail;
    assert (")" + tail)[1..] == tail;
    if index.Some? {
      AltsRead(alternatives, ")" + tail, count + 1, short);
      AltsStart(alternatives, ")" + tail, short);
      assert text == "(" + inside;
      assert text[0] == '(' && text[1..] == inside;
    } else {
      AltsRead(alternatives, ")" + tail, count, short);
      assert text == "(?:" + inside;
      assert text[0] == '(' && text[1] == '?' && text[2] == ':' && text[3..] == inside;
    }
  }

  lemma {:induction false} AltsStart(alts: seq<Branch>, tail: string, short: bool)
    requires alts != [] && NoQuantifier(tail)
    ensures NoQuantifier(ShowAlts(alts, short) + tail)
  {
    hide ShowSeq;
    if |alts| == 1 {
      SeqStart(alts[0].nodes, tail, short);
    } else {
      SeqStart(alts[0].nodes, "|" + ShowAlts(alts[1..], short) + tail, short);
      assert ShowAlts(alts, short) + tail == ShowSeq(alts[0].nodes, short) + ("|" + ShowAlts(alts[1..], short) + tail);
    }
  }

  lemma {:induction false} SeqReads(nodes: seq<Node>, tail: string, count: nat, short: bool)
    requires CanonSeq(nodes, count) && Stops(tail)
    ensures SequenceAt(ShowSeq(nodes, short) + tail, count) == Ok(Parsed(nodes, tail, count + SeqGroups(nodes)))
    decreases SeqSize(nodes), 2
  {
    hide *;
    if nodes == [] {
      NoNodes(tail, count, short);
    } else {
      var n, shown := nodes[0], ShowSeq(nodes[1..], short) + tail;
      SeqParts(nodes, count, short);
      Assoc(ShowNode(n, short), ShowSeq(nodes[1..], short), tail);
      ShownStart(n, shown, short);
      StopsQuantify(tail);
      SeqStart(nodes[1..], tail, short);
      ItemReads(n, shown, count, short);
      SeqReads(nodes[1..], tail, count + NodeGroups(n), short);
      SequenceUnfolds(ShowNode(n, short) + shown, count, n, shown, count + NodeGroups(n), nodes[1..], tail,
        count + SeqGroups(nodes));
      assert [n] + nodes[1..] == nodes;
    }
  }

  lemma {:induction false} NoNodes(tail: string, count: nat, short: bool)
    requires Stops(tail)
    ensures ShowSeq([], short) + tail == tail && SequenceAt(tail, count) == Ok(Parsed([], tail, count + SeqGroups([])))
  {
    hide AtomAt;
    assert "" + tail == tail;
  }

  lemma {:induction false} StopsQuantify(tail: string)
    requires Stops(tail)
    ensures NoQuantifier(tail)
  {
  }

  lemma {:induction false} SeqParts(nodes: seq<Node>, count: nat, short: bool)
    requires nodes != [] && CanonSeq(nodes, count)
    ensures ShowSeq(nodes, short) == ShowNode(nodes[0], short) + ShowSeq(nodes[1..], short)
    ensures SeqGroups(nodes) == NodeGroups(nodes[0]) + SeqGroups(nodes[1..])
    ensures CanonNode(nodes[0], count) && CanonSeq(nodes[1..], count + NodeGroups(nodes[0]))
    ensures NodeSize(nodes[0]) <= SeqSize(nodes) && SeqSize(nodes[1..]) < SeqSize(nodes)
  {
    hide ShowNode, CanonNode, NodeGroups;
    HeadSmaller(nodes);
  }

  lemma {:induction false} SequenceUnfolds(
    rest: string, count: nat, n: Node, after: string, mid: nat, more: seq<Node>, tail: string, end: nat)
    requires rest != "" && !Stops(rest)
    requires AtomAt(rest, count).Ok? && AtomAt(rest, count).value.count == mid
    requires Quantified(AtomAt(rest, count).value.value, AtomAt(rest, count).value.rest) == Ok((n, after))
    requires SequenceAt(after, mid) == Ok(Parsed(more, tail, end))
    ensures SequenceAt(rest, count) == Ok(Parsed([n] + more, tail, end))
  {
    hide AtomAt, Quantified;
  }

  /** A node with its quantifier, if it has one. */
  lemma {:induction false} ItemReads(n: Node, tail: string, count: nat, short: bool)
    requires CanonNode(n, count) && NoQuantifier(tail)
    ensures ShowNode(n, short) + tail != ""
    ensures var atom := AtomAt(ShowNode(n, short) + tail, count);
            && atom.Ok? && atom.value.count == count + NodeGroups(n)
            && Quantified(atom.value.value, atom.value.rest) == Ok((n, tail))
    decreases NodeSize(n), 1
  {
    hide AtomAt, Quantified;
    if n.Repeat? {
      var after := ShowBounds(n.min, n.max, n.greedy, short) + tail;
      Assoc(ShowNode(n.node, short), ShowBounds(n.min, n.max, n.greedy, short), tail);
      AtomReads(n.node, after, count, short);
      QuantifierReads(n.node, n.min, n.max, n.greedy, tail, short);
    } else {
      AtomReads(n, tail, count, short);
      NotQuantified(n, tail);
    }
  }

  lemma {:induction false} AltsRead(alts: seq<Branch>, tail: string, count: nat, short: bool)
    requires alts != [] && CanonAlts(alts, count) && Stops(tail) && (tail == "" || tail[0] == ')')
    ensures AlternativesAt(ShowAlts(alts, short) + tail, count) == Ok(Parsed(alts, tail, count + AltsGroups(alts)))
    decreases AltsSize(alts), 2
  {
    hide *;
    AltsParts(alts, count, short);
    if |alts| == 1 {
      SeqReads(alts[0].nodes, tail, count, short);
      OneAlternative(ShowSeq(alts[0].nodes, short) + tail, count, alts[0], tail, count + SeqGroups(alts[0].nodes));
      assert alts == [alts[0]];
    } else {
      var rest := ShowAlts(alts[1..], short) + tail;
      ShownBar(alts, tail, short);
      BarStops(rest);
      SeqReads(alts[0].nodes, "|" + rest, count, short);
      AltsRead(alts[1..], tail, count + SeqGroups(alts[0].nodes), short);
      MoreAlternatives(ShowSeq(alts[0].nodes, short) + ("|" + rest), count, alts[0], rest,
        count + SeqGroups(alts[0].nodes),
                       alts[1..], tail, count + AltsGroups(alts));
      assert [alts[0]] + alts[1..] == alts;
    }
  }

  lemma {:induction false} AltsParts(alts: seq<Branch>, count: nat, short: bool)
    requires alts != [] && CanonAlts(alts, count)
    ensures ShowAlts(alts, short) == if |alts| == 1 then ShowSeq(alts[0].nodes, short)
            else ShowSeq(alts[0].nodes, short) + ("|" + ShowAlts(alts[1..], short))
    ensures AltsGroups(alts) == SeqGroups(alts[0].nodes) + AltsGroups(alts[1..])
            && (|alts| == 1 ==> AltsGroups(alts[1..]) == 0)
    ensures CanonSeq(alts[0].nodes, count) && CanonAlts(alts[1..], count + SeqGroups(alts[0].nodes))
    ensures SeqSize(alts[0].nodes) < AltsSize(alts) && AltsSize(alts[1..]) < AltsSize(alts)
  {
    hide ShowSeq, CanonSeq, SeqGroups;
  }

  lemma {:induction false} ShownBar(alts: seq<Branch>, tail: string, short: bool)
    requires |alts| > 1
    ensures ShowAlts(alts, short) + tail
            == ShowSeq(alts[0].nodes, short) + ("|" + (ShowAlts(alts[1..], short) + tail))
  {
    hide ShowSeq;
    Assoc(ShowSeq(alts[0].nodes, short), "|" + ShowAlts(alts[1..], short), tail);
    Assoc("|", ShowAlts(alts[1..], short), tail);
  }

  lemma {:induction false} BarStops(rest: string)
    ensures Stops("|" + rest)
  {
  }

  lemma {:induction false} OneAlternative(text: string, count: nat, branch: Branch, tail: string, end: nat)
    requires SequenceAt(text, count) == Ok(Parsed(branch.nodes, tail, end)) && (tail == "" || tail[0] == ')')
    ensures AlternativesAt(text, count) == Ok(Parsed([branch], tail, end))
  {
    hide SequenceAt;
  }

  lemma {:induction false} MoreAlternatives(text: string, count: nat, branch: Branch, rest: string, mid: nat,
                                            more: seq<Branch>, tail: string, end: nat)
    requires SequenceAt(text, count) == Ok(Parsed(branch.nodes, "|" + rest, mid))
    requires AlternativesAt(rest, mid) == Ok(Parsed(more, tail, end))
    ensures AlternativesAt(text, count) == Ok(Parsed([branch] + more, tail, end))
  {
    hide SequenceAt;
    assert ("|" + rest)[1..] == rest;
  }

  /** Showing a tree, in short or in full, and parsing it gives the tree back. */
  lemma {:induction false} ParsingUndoesShowing(alts: seq<Branch>, short: bool)
    requires alts != [] && CanonAlts(alts, 0)
    ensures PatternAt(ShowAlts(alts, short)) == Ok((alts, AltsGroups(alts)))
  {
    hide AlternativesAt, ShowAlts;
    AltsRead(alts, "", 0, short);
    assert ShowAlts(alts, short) + "" == ShowAlts(alts, short);
  }

  /** The trees patterns parse to are exactly the canonical ones. */
  lemma {:induction false} ParsedIffCanonical(alts: seq<Branch>)
    ensures (exists pattern :: PatternAt(pattern) == Ok((alts, AltsGroups(alts)))) <==> alts != [] && CanonAlts(alts, 0)
  {
    hide PatternAt;
    if exists pattern :: PatternAt(pattern) == Ok((alts, AltsGroups(alts))) {
      var pattern :| PatternAt(pattern) == Ok((alts, AltsGroups(alts)));
      ParsesAreCanonical(pattern);
    }
    if alts != [] && CanonAlts(alts, 0) {
      ParsingUndoesShowing(alts, true);
    }
  }

  // ---- every group has a slot -----------------------------------------------------------------------------

  /** Every capturing group is numbered above `low` and at most `high`. */
  predicate NodeBetween(n: Node, low: nat, high: nat)
    decreases NodeSize(n), 0
  {
    match n
    case Group(alternatives, index) => (index.Some? ==> low < index.value <= high)
      && AltsBetween(alternatives, low, high)
    case Repeat(node, _, _, _) => NodeBetween(node, low, high)
    case _ => true
  }

  predicate SeqBetween(nodes: seq<Node>, low: nat, high: nat)
    decreases SeqSize(nodes), 1
  {
    nodes == [] || (HeadSmaller(nodes); NodeBetween(nodes[0], low, high) && SeqBetween(nodes[1..], low, high))
  }

  predicate AltsBetween(alts: seq<Branch>, low: nat, high: nat)
    decreases AltsSize(alts), 2
  {
    alts == [] || (SeqBetween(alts[0].nodes, low, high) && AltsBetween(alts[1..], low, high))
  }

  lemma {:induction false} NodeNumbered(n: Node, from: nat, low: nat, high: nat)
    requires CanonNode(n, from) && low <= from && from + NodeGroups(n) <= high
    ensures NodeBetween(n, low, high)
    decreases NodeSize(n), 0
  {
    match n
    case Group(alternatives, index) => AltsNumbered(alternatives, if index.Some? then from + 1 else from, low, high);
    case Repeat(node, _, _, _) => NodeNumbered(node, from, low, high);
    case _ =>
  }

  lemma {:induction false} SeqNumbered(nodes: seq<Node>, from: nat, low: nat, high: nat)
    requires CanonSeq(nodes, from) && low <= from && from + SeqGroups(nodes) <= high
    ensures SeqBetween(nodes, low, high)
    decreases SeqSize(nodes), 1
  {
    hide NodeBetween, CanonNode, NodeGroups;
    if nodes != [] {
      HeadSmaller(nodes);
      NodeNumbered(nodes[0], from, low, high);
      SeqNumbered(nodes[1..], from + NodeGroups(nodes[0]), low, high);
    }
  }

  lemma {:induction false} AltsNumbered(alts: seq<Branch>, from: nat, low: nat, high: nat)
    requires CanonAlts(alts, from) && low <= from && from + AltsGroups(alts) <= high
    ensures AltsBetween(alts, low, high)
    decreases AltsSize(alts), 2
  {
    hide SeqBetween, CanonSeq, SeqGroups;
    if alts != [] {
      SeqNumbered(alts[0].nodes, from, low, high);
      AltsNumbered(alts[1..], from + SeqGroups(alts[0].nodes), low, high);
    }
  }

  /** In a parsed pattern every group is numbered within the count, so each has its slot among the captures. */
  lemma {:induction false} EveryGroupHasASlot(pattern: string)
    ensures PatternAt(pattern).Ok? ==> AltsBetween(PatternAt(pattern).value.0, 0, PatternAt(pattern).value.1)
  {
    hide PatternAt, AltsBetween, CanonAlts;
    ParsesAreCanonical(pattern);
    if PatternAt(pattern).Ok? {
      AltsNumbered(PatternAt(pattern).value.0, 0, 0, PatternAt(pattern).value.1);
    }
  }

  // ---- no number is used twice ------------------------------------------------------------------------------

  lemma {:induction false} NumbersAbove(nodes: seq<Node>, from: nat)
    requires CanonSeq(nodes, from)
    ensures forall k :: k in Groups.Numbers(nodes) ==> from < k <= from + SeqGroups(nodes)
    decreases SeqSize(nodes), 1
  {
    hide NodeGroups, CanonNode, Groups.NumbersIn;
    if nodes != [] {
      HeadSmaller(nodes);
      NodeNumbersAbove(nodes[0], from);
      NumbersAbove(nodes[1..], from + NodeGroups(nodes[0]));
    }
  }

  lemma {:induction false} NodeNumbersAbove(n: Node, from: nat)
    requires CanonNode(n, from)
    ensures forall k :: k in Groups.NumbersIn(n) ==> from < k <= from + NodeGroups(n)
    decreases NodeSize(n), 0
  {
    match n
    case Group(alternatives, index) => AltsNumbersAbove(alternatives, if index.Some? then from + 1 else from);
    case Repeat(node, _, _, _) => NodeNumbersAbove(node, from);
    case _ =>
  }

  lemma {:induction false} AltsNumbersAbove(alts: seq<Branch>, from: nat)
    requires CanonAlts(alts, from)
    ensures forall k :: k in Groups.AltsNumbers(alts) ==> from < k <= from + AltsGroups(alts)
    decreases AltsSize(alts), 2
  {
    hide SeqGroups, CanonSeq, Groups.Numbers;
    if alts != [] {
      NumbersAbove(alts[0].nodes, from);
      AltsNumbersAbove(alts[1..], from + SeqGroups(alts[0].nodes));
    }
  }

  lemma {:induction false} CanonAfter(before: seq<Node>, after: seq<Node>, from: nat) returns (mid: nat)
    requires CanonSeq(before + after, from)
    ensures mid >= from && CanonSeq(after, mid)
    decreases |before|
  {
    hide CanonNode, NodeGroups;
    if before == [] {
      assert before + after == after;
      mid := from;
    } else {
      assert (before + after)[1..] == before[1..] + after;
      mid := CanonAfter(before[1..], after, from + NodeGroups(before[0]));
    }
  }

  /** In a parsed pattern no group has the number of a group before it. */
  lemma {:induction false} LaterNumbersDiffer(
    before: seq<Node>, alts: seq<Branch>, k: nat, after: seq<Node>, from: nat)
    requires CanonSeq(before + [Group(alts, Some(k))] + after, from)
    ensures k !in Groups.Numbers(after)
  {
    var group := Group(alts, Some(k));
    assert before + [group] + after == before + ([group] + after);
    var mid := CanonAfter(before, [group] + after, from);
    assert ([group] + after)[1..] == after;
    NumbersAbove(after, mid + NodeGroups(group));
  }
}
