/**
  Patches anchored to hashes of lines: finding where a hunk lands, and splicing it in.
  The hash of a normalized line is a parameter.
 */
module Hashline {
  import opened HashlineText
  import opened Wrappers
  import Utf

  /** The hash of a normalized line. */
  datatype Hash = Hash(digest: string -> string)

  datatype Op = Keep(text: string) | Del(text: string) | Add(text: string)

  datatype Hunk = Hunk(anchor: string, anchorText: Option<string>, ops: seq<Op>)

  datatype Resolution = Exact | Disambiguated | RecoveredByText | RecoveredByContext

  datatype ApplyError =
    | AnchorNotFound(anchor: string, anchorText: Option<string>)
    | ContextMismatch(anchor: string, line: nat, expected: string, found: Option<string>)
    | AmbiguousAnchor(anchor: string, matches: seq<nat>)

  /** An error the caller is given, or a slice taken inside a character, which stops the program. */
  datatype Failure = Refused(error: ApplyError) | Panics

  function AnchorOf(hash: Hash, line: string): string {
    hash.digest(Normalized(line))
  }

  // ---- what a hunk demands of the lines it lands on ---------------------------------------------

  /** The context and deletions of a hunk. */
  function Required(ops: seq<Op>): seq<string> {
    if ops == [] then []
    else if ops[0].Add? then Required(ops[1..])
    else [ops[0].text] + Required(ops[1..])
  }

  predicate SameWords(x: string, y: string) {
    Normalized(x) == Normalized(y)
  }

  /** The head of `rest` is what the hunk demands, up to white space. */
  predicate Fits(rest: seq<string>, ops: seq<Op>) {
    |Required(ops)| <= |rest| && forall k :: 0 <= k < |Required(ops)| ==> SameWords(rest[k], Required(ops)[k])
  }

  predicate FitsAt(lines: seq<string>, start: nat, ops: seq<Op>) {
    start <= |lines| && Fits(lines[start..], ops)
  }

  lemma {:induction false} FitsFirst(rest: seq<string>, ops: seq<Op>)
    requires ops != []
    ensures Fits(rest, ops) <==>
            if ops[0].Add? then Fits(rest, ops[1..])
            else rest != [] && SameWords(rest[0], ops[0].text) && Fits(rest[1..], ops[1..])
  {
    hide SameWords;
    if !ops[0].Add? {
      var tail := Required(ops[1..]);
      assert Required(ops) == [ops[0].text] + tail;
      if rest != [] && Fits(rest[1..], ops[1..]) && SameWords(rest[0], ops[0].text) {
        assert forall k :: 0 < k < |Required(ops)| ==> rest[k] == rest[1..][k - 1] && Required(ops)[k] == tail[k - 1];
      }
      if Fits(rest, ops) {
        assert Required(ops)[0] == ops[0].text;
        assert forall k :: 0 <= k < |tail| ==> rest[1..][k] == rest[k + 1] && tail[k] == Required(ops)[k + 1];
      }
    }
  }

  method Verify(current: seq<string>, start: nat, hunk: Hunk) returns (fits: bool)
    requires start <= |current|
    ensures fits == FitsAt(current, start, hunk.ops)
  {
    hide Fits, SameWords, Required;
    var cursor := start;
    for k := 0 to |hunk.ops|
      invariant start <= cursor <= |current|
      invariant Fits(current[cursor..], hunk.ops[k..]) == Fits(current[start..], hunk.ops)
    {
      FitsFirst(current[cursor..], hunk.ops[k..]);
      assert hunk.ops[k..][1..] == hunk.ops[k + 1..];
      if !hunk.ops[k].Add? {
        if cursor >= |current| {
          return false;
        }
        assert current[cursor..][1..] == current[cursor + 1..];
        if !SameWords(current[cursor], hunk.ops[k].text) {
          return false;
        }
        cursor := cursor + 1;
      }
    }
    NothingFits(current[cursor..]);
    assert hunk.ops[|hunk.ops|..] == [];
    return true;
  }

  lemma {:induction false} NothingFits(rest: seq<string>)
    ensures Required([]) == [] && Fits(rest, [])
  {
  }

  // ---- indentation ---------------------------------------------------------------------------------

  datatype Reindent = NoChange | Prefix(indent: string) | Strip(count: nat)

  function LeadingLength(line: string): (n: nat)
    ensures n <= |line| && forall k :: 0 <= k < n ==> Utf.IsWhitespace(line[k])
    ensures n < |line| ==> !Utf.IsWhitespace(line[n])
  {
    if line != "" && Utf.IsWhitespace(line[0]) then 1 + LeadingLength(line[1..]) else 0
  }

  function LeadingWs(line: string): string {
    line[..LeadingLength(line)]
  }

  /** The indentation of the first line the hunk demands. */
  function PatchIndent(ops: seq<Op>): string {
    if Required(ops) == [] then "" else LeadingWs(Required(ops)[0])
  }

  lemma {:induction false} PrefixBytes(x: string, y: string)
    requires x <= y
    ensures Utf.ByteLen(x) <= Utf.ByteLen(y)
  {
    Utf.OffsetOfPrefix(y, |x|, |x|);
    assert y[..|x|] == x;
    if |x| < |y| {
      Utf.OffsetIncreases(y, |x|, |y|);
    }
  }

  /**
    The indentation actually in the file, against the one the hunk was written
    with. What is to be stripped is counted in bytes.
   */
  function IndentDelta(rest: seq<string>, ops: seq<Op>): Reindent {
    var patch := PatchIndent(ops);
    var file := if rest == [] then "" else LeadingWs(rest[0]);
    if patch == file then NoChange
    else if patch <= file then Prefix(file[|patch|..])
    else if file <= patch then PrefixBytes(file, patch); Strip(Utf.ByteLen(patch) - Utf.ByteLen(file))
    else NoChange
  }

  predicate Blank(text: string) {
    LeadingLength(text) == |text|
  }

  /** How many bytes stripping takes off: no more than the indentation there is. */
  function CutBytes(text: string, count: nat): nat {
    var indent := Utf.ByteLen(LeadingWs(text));
    if indent < count then indent else count
  }

  /** The slice is taken between two characters. */
  predicate Cuts(text: string, reindent: Reindent) {
    reindent.Strip? && !Blank(text) ==> Utf.IsBoundary(text, CutBytes(text, reindent.count))
  }

  predicate CutsAll(ops: seq<Op>, reindent: Reindent) {
    forall k :: 0 <= k < |ops| && ops[k].Add? ==> Cuts(ops[k].text, reindent)
  }

  function CutIndex(text: string, count: nat): (k: nat)
    ensures k <= LeadingLength(text)
    ensures Utf.IsBoundary(text, CutBytes(text, count)) ==> Utf.Offset(text, k) == CutBytes(text, count)
  {
    var n, bytes := LeadingLength(text), CutBytes(text, count);
    Utf.OffsetOfPrefix(text, n, n);
    CutAt(text, bytes);
    Utf.FirstAt(text, bytes)
  }

  lemma {:induction false} CutAt(text: string, bytes: nat)
    ensures Utf.IsBoundary(text, bytes) ==> Utf.Offset(text, Utf.FirstAt(text, bytes)) == bytes
  {
    if Utf.IsBoundary(text, bytes) {
      var k :| 0 <= k <= |text| && Utf.Offset(text, k) == bytes;
      Utf.FirstAtBoundary(text, k);
    }
  }

  /** An inserted line, where the slice it takes is one that can be taken. */
  function ApplyIndent(text: string, reindent: Reindent): string {
    if Blank(text) then text
    else
      match reindent
      case NoChange => text
      case Prefix(indent) => indent + text
      case Strip(count) => text[CutIndex(text, count)..]
  }

  /** Stripping takes off white space from the front, the given number of bytes where there is that much. */
  lemma {:induction false} StripRemoves(text: string, count: nat)
    requires !Blank(text) && Cuts(text, Strip(count))
    ensures var stripped, k := ApplyIndent(text, Strip(count)), CutIndex(text, count);
            && text == text[..k] + stripped && (forall i :: 0 <= i < k ==> Utf.IsWhitespace(text[i]))
            && Utf.ByteLen(text) == CutBytes(text, count) + Utf.ByteLen(stripped)
  {
    hide Utf.Offset, CutBytes;
    BytesSplit(text, CutIndex(text, count));
  }

  lemma {:induction false} BytesSplit(text: string, k: nat)
    requires k <= |text|
    ensures Utf.ByteLen(text) == Utf.Offset(text, k) + Utf.ByteLen(text[k..]) && text == text[..k] + text[k..]
  {
    hide Utf.Offset;
    Utf.OffsetOfPrefix(text, k, k);
    Utf.OffsetOfConcat(text[..k], text[k..], |text| - k);
    assert text == text[..k] + text[k..];
  }

  /** Indentation of one-byte characters can be cut anywhere. */
  lemma {:induction false} AsciiCuts(text: string, reindent: Reindent)
    requires forall k :: 0 <= k < LeadingLength(text) ==> text[k] as int < 0x80
    ensures Cuts(text, reindent)
  {
    if reindent.Strip? && !Blank(text) {
      var n := LeadingLength(text);
      AsciiOffset(text, n);
      Utf.OffsetOfPrefix(text, n, n);
      var bytes := CutBytes(text, reindent.count);
      AsciiOffset(text, bytes);
      assert Utf.Offset(text, bytes) == bytes;
    }
  }

  lemma {:induction false} AsciiOffset(text: string, k: nat)
    requires k <= |text| && forall i :: 0 <= i < k ==> text[i] as int < 0x80
    ensures Utf.Offset(text, k) == k
  {
    if k > 0 {
      AsciiOffset(text, k - 1);
    }
  }

  // ---- splicing ----------------------------------------------------------------------------------------

  /** What replaces the demanded lines: kept lines as the file has them, insertions re-indented. */
  function Rebuilt(rest: seq<string>, ops: seq<Op>, reindent: Reindent): seq<string>
    requires Fits(rest, ops)
  {
    if ops == [] then []
    else
      FitsFirst(rest, ops);
      match ops[0]
      case Keep(_) => [rest[0]] + Rebuilt(rest[1..], ops[1..], reindent)
      case Del(_) => Rebuilt(rest[1..], ops[1..], reindent)
      case Add(text) => [ApplyIndent(text, reindent)] + Rebuilt(rest, ops[1..], reindent)
  }

  /** The lines after a hunk that fits at `start`. */
  function Spliced(lines: seq<string>, start: nat, ops: seq<Op>): seq<string>
    requires FitsAt(lines, start, ops)
  {
    var rest := lines[start..];
    lines[..start] + Rebuilt(rest, ops, IndentDelta(rest, ops)) + rest[|Required(ops)|..]
  }

  /** The splice goes through: the hunk fits, and every slice it takes can be taken. */
  predicate Splices(lines: seq<string>, start: nat, ops: seq<Op>) {
    FitsAt(lines, start, ops) && CutsAll(ops, IndentDelta(lines[start..], ops))
  }

  function Adds(ops: seq<Op>): nat {
    if ops == [] then 0 else (if ops[0].Add? then 1 else 0) + Adds(ops[1..])
  }

  function Dels(ops: seq<Op>): nat {
    if ops == [] then 0 else (if ops[0].Del? then 1 else 0) + Dels(ops[1..])
  }

  lemma {:induction false} RebuiltLength(rest: seq<string>, ops: seq<Op>, reindent: Reindent)
    requires Fits(rest, ops)
    ensures |Rebuilt(rest, ops, reindent)| - |Required(ops)| == Adds(ops) - Dels(ops)
  {
    if ops != [] {
      FitsFirst(rest, ops);
      RebuiltLength(if ops[0].Add? then rest else rest[1..], ops[1..], reindent);
    }
  }

  /** A hunk of context only changes nothing. */
  lemma {:induction false} ContextChangesNothing(rest: seq<string>, ops: seq<Op>, reindent: Reindent)
    requires Fits(rest, ops) && forall k :: 0 <= k < |ops| ==> ops[k].Keep?
    ensures |Required(ops)| == |ops| <= |rest| && Rebuilt(rest, ops, reindent) == rest[..|ops|]
  {
    hide SameWords, ApplyIndent;
    if ops != [] {
      FitsFirst(rest, ops);
      ContextChangesNothing(rest[1..], ops[1..], reindent);
      assert rest[..|ops|] == [rest[0]] + rest[1..][..|ops| - 1];
    }
  }

  /** The working copy of the file's lines. */
  class Buffer {
    var lines: seq<string>

    constructor (lines: seq<string>)
      ensures this.lines == lines
    {
      this.lines := lines;
    }

    /** Splices a hunk in; lines that are not what it demands leave the buffer as it is. */
    method Splice(start: nat, hunk: Hunk) returns (failure: Option<Failure>)
      requires start <= |lines|
      modifies this
      ensures failure == None <==> Splices(old(lines), start, hunk.ops)
      ensures failure == Some(Panics) ==> !CutsAll(hunk.ops, IndentDelta(old(lines)[start..], hunk.ops))
      ensures failure.Some? && failure.value.Refused? ==>
                failure.value.error.ContextMismatch? && !FitsAt(old(lines), start, hunk.ops)
      ensures lines == if failure == None then Spliced(old(lines), start, hunk.ops) else old(lines)
    {
      hide Fits, SameWords, Required, IndentDelta, Cuts;
      ghost var ops, rest := hunk.ops, lines[start..];
      var reindent := IndentDelta(lines[start..], hunk.ops);
      var out: seq<string> := [];
      var cursor := start;
      for k := 0 to |hunk.ops|
        invariant lines == old(lines) && CutsAll(ops[..k], reindent)
        invariant start <= cursor <= |lines| && cursor - start + |Required(ops[k..])| == |Required(ops)|
        invariant Fits(lines[cursor..], ops[k..]) == Fits(rest, ops)
        invariant Fits(rest, ops) ==> out + Rebuilt(lines[cursor..], ops[k..], reindent) == Rebuilt(rest, ops, reindent)
      {
        var op := hunk.ops[k];
        SpliceStep(lines, cursor, ops, k, reindent, out);
        if op.Add? {
          if !Cuts(op.text, reindent) {
            return Some(Panics);
          }
          out := out + [ApplyIndent(op.text, reindent)];
        } else {
          if cursor >= |lines| {
            return Some(Refused(ContextMismatch(hunk.anchor, cursor, op.text, None)));
          }
          var have := lines[cursor];
          if !SameWords(have, op.text) {
            return Some(Refused(ContextMismatch(hunk.anchor, cursor, op.text, Some(have))));
          }
          if op.Keep? {
            out := out + [have];
          }
          cursor := cursor + 1;
        }
      }
      NothingFits(lines[cursor..]);
      assert ops[|ops|..] == [];
      assert out + [] == out;
      assert rest[cursor - start..] == lines[cursor..];
      lines := lines[..start] + out + lines[cursor..];
      failure := None;
    }

    static lemma {:induction false} SpliceStep(
      lines: seq<string>, cursor: nat, ops: seq<Op>, k: nat, reindent: Reindent, out: seq<string>)
      requires cursor <= |lines| && k < |ops|
      ensures ops[k].Add? ==>
                && Fits(lines[cursor..], ops[k..]) == Fits(lines[cursor..], ops[k + 1..])
                && |Required(ops[k..])| == |Required(ops[k + 1..])|
                && (Fits(lines[cursor..], ops[k..]) ==>
                    out + Rebuilt(lines[cursor..], ops[k..], reindent)
                    == out + [ApplyIndent(ops[k].text, reindent)] + Rebuilt(lines[cursor..], ops[k + 1..], reindent))
      ensures !ops[k].Add? ==>
                && |Required(ops[k..])| == 1 + |Required(ops[k + 1..])|
                && (Fits(lines[cursor..], ops[k..]) <==>
                    cursor < |lines| && SameWords(lines[cursor], ops[k].text)
                      && Fits(lines[cursor + 1..], ops[k + 1..]))
                && (Fits(lines[cursor..], ops[k..]) ==>
                    out + Rebuilt(lines[cursor..], ops[k..], reindent)
                    == (if ops[k].Keep? then out + [lines[cursor]] else out)
                      + Rebuilt(lines[cursor + 1..], ops[k + 1..], reindent))
    {
      hide Fits, SameWords, ApplyIndent;
      FitsFirst(lines[cursor..], ops[k..]);
      assert ops[k..][1..] == ops[k + 1..];
      if cursor < |lines| {
        assert lines[cursor..][1..] == lines[cursor + 1..];
      }
    }
  }
}
