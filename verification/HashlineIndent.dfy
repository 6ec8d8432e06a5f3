/** Where the lines of a spliced hunk stand, and how the inserted ones are indented. */
module HashlineIndent {
  import opened Hashline
  import Utf

  /** How many lines a hunk leaves: its context and its insertions. */
  function Left(ops: seq<Op>): nat {
    if ops == [] then 0 else (if ops[0].Del? then 0 else 1) + Left(ops[1..])
  }

  /** How many lines a hunk takes: its context and its deletions. */
  function Taken(ops: seq<Op>): nat {
    if ops == [] then 0 else (if ops[0].Add? then 0 else 1) + Taken(ops[1..])
  }

  function FileIndent(lines: seq<string>, start: nat): string {
    if start < |lines| then LeadingWs(lines[start]) else ""
  }

  /**
    `text`, written for lines indented by `patch`, as it stands among lines
    indented by `file`: with what the file has more in front, or without as many
    bytes of its own indentation as the file has less.
   */
  ghost predicate Reindented(text: string, patch: string, file: string, out: string) {
    if Blank(text) then out == text
    else if patch <= file then out == file[|patch|..] + text
    else if file <= patch then
      exists cut ::
        && 0 <= cut <= LeadingLength(text) && out == text[cut..]
        && Utf.ByteLen(text[..cut])
           == Least(Utf.ByteLen(LeadingWs(text)), Utf.ByteLen(patch) - Utf.ByteLen(file))
    else out == text
  }

  function Least(a: int, b: int): int {
    if a < b then a else b
  }

  lemma {:induction false} InsertionIsReindented(lines: seq<string>, start: nat, ops: seq<Op>, text: string)
    requires start <= |lines| && Cuts(text, IndentDelta(lines[start..], ops))
    ensures Reindented(text, PatchIndent(ops), FileIndent(lines, start),
                       ApplyIndent(text, IndentDelta(lines[start..], ops)))
  {
    hide LeadingLength, PatchIndent, Reindented, ApplyIndent, Cuts;
    var patch, file := PatchIndent(ops), FileIndent(lines, start);
    assert file == if lines[start..] == [] then "" else LeadingWs(lines[start..][0]);
    if patch == file {
      AsWritten(text, patch, file);
    } else if patch <= file {
      PutInFront(text, patch, file);
    } else if file <= patch {
      PrefixBytes(file, patch);
      CutOff(text, patch, file, Utf.ByteLen(patch) - Utf.ByteLen(file));
    } else {
      AsWritten(text, patch, file);
    }
  }

  lemma {:induction false} AsWritten(text: string, patch: string, file: string)
    requires patch == file || (!(patch <= file) && !(file <= patch))
    ensures Reindented(text, patch, file, ApplyIndent(text, NoChange))
  {
    hide LeadingLength;
    if patch == file {
      assert file[|patch|..] + text == text;
    }
  }

  lemma {:induction false} PutInFront(text: string, patch: string, file: string)
    requires patch <= file
    ensures Reindented(text, patch, file, ApplyIndent(text, Prefix(file[|patch|..])))
  {
    hide LeadingLength;
  }

  lemma {:induction false} CutOff(text: string, patch: string, file: string, count: nat)
    requires !(patch <= file) && file <= patch && count == Utf.ByteLen(patch) - Utf.ByteLen(file)
    requires Cuts(text, Strip(count))
    ensures Reindented(text, patch, file, ApplyIndent(text, Strip(count)))
  {
    hide LeadingLength;
    if !Blank(text) {
      var cut := CutIndex(text, count);
      Utf.OffsetOfPrefix(text, cut, cut);
    }
  }

  lemma {:induction false} TakenIsRequired(ops: seq<Op>)
    ensures Taken(ops) == |Required(ops)|
  {
    if ops != [] {
      TakenIsRequired(ops[1..]);
    }
  }

  /** The `k`-th line of a hunk, where it stands among the rebuilt lines. */
  lemma {:induction false} RebuiltAt(rest: seq<string>, ops: seq<Op>, reindent: Reindent, k: nat)
    requires Fits(rest, ops) && k < |ops| && !ops[k].Del?
    ensures Left(ops[..k]) < |Rebuilt(rest, ops, reindent)| && Taken(ops[..k]) <= |rest|
    ensures ops[k].Keep? ==>
              Taken(ops[..k]) < |rest| && Rebuilt(rest, ops, reindent)[Left(ops[..k])] == rest[Taken(ops[..k])]
    ensures ops[k].Add? ==>
              Rebuilt(rest, ops, reindent)[Left(ops[..k])] == ApplyIndent(ops[k].text, reindent)
    decreases |ops|
  {
    hide ApplyIndent, SameWords, Fits;
    FitsFirst(rest, ops);
    if k > 0 {
      var later := if ops[0].Add? then rest else rest[1..];
      RebuiltAt(later, ops[1..], reindent, k - 1);
      assert ops[..k][1..] == ops[1..][..k - 1];
    } else {
      assert ops[..0] == [];
    }
  }

  /**
    The lines of a hunk in the result, each in its place: context as the file has
    it, insertions re-indented; and the lines before and after the hunk untouched.
   */
  lemma {:induction false} SplicedLines(lines: seq<string>, start: nat, ops: seq<Op>, k: nat)
    requires Splices(lines, start, ops) && k < |ops| && !ops[k].Del?
    ensures var out, at := Spliced(lines, start, ops), start + Left(ops[..k]);
            && at < |out| && start + Taken(ops[..k]) <= |lines|
            && (ops[k].Keep? ==> start + Taken(ops[..k]) < |lines| && out[at] == lines[start + Taken(ops[..k])])
            && (ops[k].Add? ==> Reindented(ops[k].text, PatchIndent(ops), FileIndent(lines, start), out[at]))
  {
    hide Reindented, Fits, IndentDelta, PatchIndent, ApplyIndent, Cuts;
    var rest := lines[start..];
    RebuiltAt(rest, ops, IndentDelta(rest, ops), k);
    if ops[k].Add? {
      InsertionIsReindented(lines, start, ops, ops[k].text);
    }
  }

  lemma {:induction false} SplicedAround(lines: seq<string>, start: nat, ops: seq<Op>)
    requires Splices(lines, start, ops)
    ensures var out := Spliced(lines, start, ops);
            && start + Taken(ops) <= |lines| && |out| == |lines| - Taken(ops) + Left(ops)
            && out[..start] == lines[..start] && out[start + Left(ops)..] == lines[start + Taken(ops)..]
  {
    hide Fits, IndentDelta;
    var rest := lines[start..];
    var reindent := IndentDelta(rest, ops);
    TakenIsRequired(ops);
    RequiredFits(rest, ops);
    RebuiltLeft(rest, ops, reindent);
    assert rest[Taken(ops)..] == lines[start + Taken(ops)..];
  }

  lemma {:induction false} RequiredFits(rest: seq<string>, ops: seq<Op>)
    requires Fits(rest, ops)
    ensures |Required(ops)| <= |rest|
  {
  }

  lemma {:induction false} RebuiltLeft(rest: seq<string>, ops: seq<Op>, reindent: Reindent)
    requires Fits(rest, ops)
    ensures |Rebuilt(rest, ops, reindent)| == Left(ops)
    decreases |ops|
  {
    hide ApplyIndent, SameWords, Fits;
    if ops != [] {
      FitsFirst(rest, ops);
      RebuiltLeft(if ops[0].Add? then rest else rest[1..], ops[1..], reindent);
    }
  }

  // ---- one blank throughout ------------------------------------------------------------------

  function Blanks(c: char, n: nat): (s: string)
    ensures |s| == n && forall k :: 0 <= k < n ==> s[k] == c
  {
    seq(n, _ => c)
  }

  /** A line with something on it. */
  predicate Body(text: string) {
    text != "" && !Utf.IsWhitespace(text[0])
  }

  lemma {:induction false} BlanksLead(c: char, n: nat, body: string)
    requires Utf.IsWhitespace(c) && Body(body)
    ensures LeadingLength(Blanks(c, n) + body) == n && LeadingWs(Blanks(c, n) + body) == Blanks(c, n)
  {
    var line := Blanks(c, n) + body;
    if n == 0 {
      assert line == body;
    } else {
      BlanksLead(c, n - 1, body);
      assert line[0] == c && line[1..] == Blanks(c, n - 1) + body;
    }
    assert line[..n] == Blanks(c, n);
  }

  lemma {:induction false} BlankBytes(c: char, n: nat)
    requires c as int < 0x80
    ensures Utf.ByteLen(Blanks(c, n)) == n
  {
    AsciiOffset(Blanks(c, n), n);
  }

  /**
    Where everything is indented with one and the same one-byte blank, an
    insertion is as much deeper or less deep than in the patch as the lines it
    stands among are, down to the margin.
   */
  lemma {:induction false} InsertionMovesAlong(
    c: char, patch: nat, file: nat, own: nat, body: string, out: string)
    requires Utf.IsWhitespace(c) && c as int < 0x80 && Body(body)
    requires Reindented(Blanks(c, own) + body, Blanks(c, patch), Blanks(c, file), out)
    ensures out == Blanks(c, if own + file > patch then own + file - patch else 0) + body
  {
    hide Reindented;
    if patch <= file {
      Deeper(c, patch, file, own, body, out);
    } else {
      LessDeep(c, patch, file, own, body, out);
    }
  }

  lemma {:induction false} BlanksJoin(c: char, a: nat, b: nat)
    ensures Blanks(c, a) + Blanks(c, b) == Blanks(c, a + b)
    ensures Blanks(c, a + b)[a..] == Blanks(c, b) && Blanks(c, a) <= Blanks(c, a + b)
  {
  }

  lemma {:induction false} PutOf(text: string, patch: string, file: string, out: string)
    requires Reindented(text, patch, file, out) && !Blank(text) && patch <= file
    ensures out == file[|patch|..] + text
  {
    hide LeadingLength;
  }

  lemma {:induction false} Deeper(c: char, patch: nat, file: nat, own: nat, body: string, out: string)
    requires Utf.IsWhitespace(c) && Body(body) && patch <= file
    requires Reindented(Blanks(c, own) + body, Blanks(c, patch), Blanks(c, file), out)
    ensures out == Blanks(c, own + file - patch) + body
  {
    hide LeadingLength, Utf.IsWhitespace, Reindented;
    BlanksLead(c, own, body);
    BlanksJoin(c, patch, file - patch);
    PutOf(Blanks(c, own) + body, Blanks(c, patch), Blanks(c, file), out);
    BlanksJoin(c, file - patch, own);
    assert Blanks(c, file - patch) + (Blanks(c, own) + body) == Blanks(c, file - patch) + Blanks(c, own) + body;
  }

  lemma {:induction false} CutOf(text: string, patch: string, file: string, out: string) returns (cut: nat)
    requires Reindented(text, patch, file, out) && !Blank(text) && !(patch <= file) && file <= patch
    ensures cut <= LeadingLength(text) && out == text[cut..]
    ensures Utf.ByteLen(text[..cut])
            == Least(Utf.ByteLen(LeadingWs(text)), Utf.ByteLen(patch) - Utf.ByteLen(file))
  {
    hide LeadingLength, Utf.Offset;
    cut :| cut <= LeadingLength(text) && out == text[cut..]
      && Utf.ByteLen(text[..cut])
         == Least(Utf.ByteLen(LeadingWs(text)), Utf.ByteLen(patch) - Utf.ByteLen(file));
  }

  lemma {:induction false} BlanksSplit(c: char, n: nat, body: string, cut: nat)
    requires cut <= n
    ensures (Blanks(c, n) + body)[..cut] == Blanks(c, cut)
    ensures (Blanks(c, n) + body)[cut..] == Blanks(c, n - cut) + body
  {
  }

  lemma {:induction false} LessDeep(c: char, patch: nat, file: nat, own: nat, body: string, out: string)
    requires Utf.IsWhitespace(c) && c as int < 0x80 && Body(body) && file < patch
    requires Reindented(Blanks(c, own) + body, Blanks(c, patch), Blanks(c, file), out)
    ensures out == Blanks(c, if own + file > patch then own + file - patch else 0) + body
  {
    hide Reindented, LeadingLength, Utf.IsWhitespace, Utf.ByteLen;
    BlanksLead(c, own, body);
    BlanksJoin(c, file, patch - file);
    var cut := CutOf(Blanks(c, own) + body, Blanks(c, patch), Blanks(c, file), out);
    BlankBytes(c, own);
    BlankBytes(c, patch);
    BlankBytes(c, file);
    BlankBytes(c, cut);
    BlanksSplit(c, own, body, cut);
  }

  /** The same for a hunk: it demands and lands on lines indented with one blank. */
  lemma {:induction false} InsertedWithIndentation(
    lines: seq<string>, start: nat, ops: seq<Op>, k: nat, c: char, patch: nat, demanded: string, file: nat,
    found: string, own: nat, body: string)
    requires Splices(lines, start, ops) && k < |ops| && ops[k] == Add(Blanks(c, own) + body)
    requires Utf.IsWhitespace(c) && c as int < 0x80 && Body(body) && Body(demanded) && Body(found)
    requires Required(ops) != [] && Required(ops)[0] == Blanks(c, patch) + demanded
    requires start < |lines| && lines[start] == Blanks(c, file) + found
    ensures var out, at := Spliced(lines, start, ops), start + Left(ops[..k]);
            at < |out| && out[at] == Blanks(c, if own + file > patch then own + file - patch else 0) + body
  {
    hide Fits, CutsAll, IndentDelta, Rebuilt, Reindented, LeadingLength;
    SplicedLines(lines, start, ops, k);
    BlanksLead(c, patch, demanded);
    BlanksLead(c, file, found);
    InsertionMovesAlong(c, patch, file, own, body, Spliced(lines, start, ops)[start + Left(ops[..k])]);
  }
}
