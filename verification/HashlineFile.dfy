/** From the text of a file to its lines and back. */
module HashlineFile {
  import opened HashlineApply
  import opened TextLines

  lemma {:induction false} JoinedStep(first: string, rest: seq<string>)
    requires rest != []
    ensures Joined([first] + rest) == first + "\n" + Joined(rest)
  {
    assert ([first] + rest)[1..] == rest;
  }

  /** Joining the pieces between newlines gives the text. */
  lemma {:induction false} SplitJoins(text: string)
    ensures Joined(Split(text)) == text
  {
    if text != "" {
      var rest := Split(text[1..]);
      SplitJoins(text[1..]);
      if text[0] == '\n' {
        JoinedStep("", rest);
      } else {
        FirstLonger(text[0], rest);
      }
    }
  }

  lemma {:induction false} FirstLonger(c: char, rest: seq<string>)
    requires rest != []
    ensures Joined([[c] + rest[0]] + rest[1..]) == [c] + Joined(rest)
  {
    var longer := [[c] + rest[0]] + rest[1..];
    if |rest| > 1 {
      assert longer[1..] == rest[1..];
      assert [c] + rest[0] + "\n" + Joined(rest[1..]) == [c] + (rest[0] + "\n" + Joined(rest[1..]));
    } else {
      assert longer == [[c] + rest[0]];
    }
  }

  lemma {:induction false} NothingStripped(lines: seq<string>)
    requires forall k :: 0 <= k < |lines| ==> '\r' !in lines[k]
    ensures StripAll(lines) == lines
  {
  }

  lemma {:induction false} SplitOnlySplits(text: string, c: char)
    requires c !in text
    ensures forall k :: 0 <= k < |Split(text)| ==> c !in Split(text)[k]
  {
    if text != "" {
      SplitOnlySplits(text[1..], c);
    }
  }

  /** A text without carriage returns is rendered from its lines as it was. */
  lemma {:induction false} LinesRender(content: string)
    requires '\r' !in content
    ensures Joined(LinesOf(content)) + (if EndsWithNewline(content) then "\n" else "") == content
  {
    hide Split;
    var body := if EndsWithNewline(content) then content[..|content| - 1] else content;
    if body != "" {
      SplitOnlySplits(body, '\r');
      NothingStripped(Split(body));
      SplitJoins(body);
    }
  }

  // ---- carriage returns --------------------------------------------------------------------

  /** The text with a carriage return in front of every newline. */
  function WithReturns(text: string): string {
    if text == "" then ""
    else (if text[0] == '\n' then "\r\n" else [text[0]]) + WithReturns(text[1..])
  }

  /** Every line but the last with a carriage return behind it. */
  function Returned(lines: seq<string>): (returned: seq<string>)
    ensures |returned| == |lines|
  {
    seq(|lines|, k requires 0 <= k < |lines| => if k + 1 < |lines| then lines[k] + "\r" else lines[k])
  }

  lemma {:induction false} LetterSplits(c: char, after: string)
    requires c != '\n'
    ensures Split([c] + after) == [[c] + Split(after)[0]] + Split(after)[1..]
  {
    assert ([c] + after)[1..] == after;
  }

  lemma {:induction false} ReturnedCons(first: string, rest: seq<string>)
    requires rest != []
    ensures Returned([first] + rest) == [first + "\r"] + Returned(rest)
  {
  }

  lemma {:induction false} ReturnedLonger(c: char, rest: seq<string>)
    requires rest != []
    ensures Returned([[c] + rest[0]] + rest[1..]) == [[c] + Returned(rest)[0]] + Returned(rest)[1..]
  {
    assert [c] + rest[0] + "\r" == [c] + (rest[0] + "\r");
  }

  lemma {:induction false} SplitReturns(text: string)
    ensures Split(WithReturns(text)) == Returned(Split(text))
  {
    hide Returned;
    if text == "" {
      OneReturned("");
    } else {
      SplitReturns(text[1..]);
      var rest, after := Split(text[1..]), WithReturns(text[1..]);
      if text[0] == '\n' {
        ReturnSplits(after);
        ReturnedCons("", rest);
        assert "" + "\r" == "\r";
      } else {
        LetterSplits(text[0], after);
        ReturnedLonger(text[0], rest);
      }
    }
  }

  lemma {:induction false} OneReturned(line: string)
    ensures Returned([line]) == [line]
  {
  }

  lemma {:induction false} ReturnSplits(after: string)
    ensures Split("\r\n" + after) == ["\r"] + Split(after)
  {
    SplitLine("\r", after);
    assert "\r" + "\n" + after == "\r\n" + after;
  }

  lemma {:induction false} ReturnsJoin(a: string, b: string)
    ensures WithReturns(a + b) == WithReturns(a) + WithReturns(b)
  {
    if a == "" {
      assert a + b == b;
    } else {
      ReturnsJoin(a[1..], b);
      assert (a + b)[1..] == a[1..] + b && (a + b)[0] == a[0];
      Assoc(if a[0] == '\n' then "\r\n" else [a[0]], WithReturns(a[1..]), WithReturns(b));
    }
  }

  lemma {:induction false} Assoc(a: string, b: string, c: string)
    ensures (a + b) + c == a + (b + c)
  {
  }

  lemma {:induction false} StripReturned(lines: seq<string>)
    requires forall k :: 0 <= k < |lines| ==> '\r' !in lines[k]
    ensures StripAll(Returned(lines)) == lines
  {
    forall k | 0 <= k < |lines|
      ensures StripCr(Returned(lines)[k]) == lines[k]
    {
      assert (lines[k] + "\r")[..|lines[k]|] == lines[k];
    }
  }

  lemma {:induction false} SplitEndsReturned(text: string)
    ensures Split(text + "\r") == Split(text)[..|Split(text)| - 1] + [Split(text)[|Split(text)| - 1] + "\r"]
  {
    if text == "" {
      LetterSplits('\r', "");
      assert "" + "\r" == ['\r'] + "";
    } else {
      SplitEndsReturned(text[1..]);
      var rest := Split(text[1..]);
      assert (text + "\r")[1..] == text[1..] + "\r" && (text + "\r")[0] == text[0];
      if text[0] != '\n' && |rest| == 1 {
        assert [text[0]] + (rest[0] + "\r") == [text[0]] + rest[0] + "\r";
      }
    }
  }

  /** The lines of a text do not depend on whether its newlines have carriage returns in front of them. */
  lemma {:induction false} ReturnsMakeNoDifference(content: string)
    requires '\r' !in content
    ensures LinesOf(WithReturns(content)) == LinesOf(content)
    ensures EndsWithNewline(WithReturns(content)) == EndsWithNewline(content)
  {
    hide Split;
    if EndsWithNewline(content) {
      var body := content[..|content| - 1];
      assert content == body + "\n" && "\n"[1..] == "";
      ReturnsJoin(body, "\n");
      assert WithReturns("\n") == "\r\n";
      var inner := WithReturns(body) + "\r";
      assert WithReturns(content) == inner + "\n" && (inner + "\n")[..|inner|] == inner;
      LastReturned(body);
      if body == "" {
        EmptyLine();
      } else {
        SplitOnlySplits(body, '\r');
        NothingStripped(Split(body));
      }
    } else if content != "" {
      NoNewlineAdded(content);
      SplitReturns(content);
      SplitOnlySplits(content, '\r');
      StripReturned(Split(content));
    }
  }

  lemma {:induction false} LastReturned(body: string)
    requires '\r' !in body
    ensures StripAll(Split(WithReturns(body) + "\r")) == Split(body)
  {
    SplitReturns(body);
    SplitOnlySplits(body, '\r');
    SplitEndsReturned(WithReturns(body));
    var lines, pieces := Split(body), Split(WithReturns(body) + "\r");
    forall k | 0 <= k < |lines|
      ensures StripCr(pieces[k]) == lines[k]
    {
      assert pieces[k] == lines[k] + "\r";
      assert (lines[k] + "\r")[..|lines[k]|] == lines[k];
    }
  }

  lemma {:induction false} EmptyLine()
    ensures Split("") == [""]
  {
  }

  lemma {:induction false} NoNewlineAdded(content: string)
    requires content != "" && !EndsWithNewline(content)
    ensures WithReturns(content) != "" && !EndsWithNewline(WithReturns(content))
  {
    var n := |content| - 1;
    assert content == content[..n] + [content[n]];
    ReturnsJoin(content[..n], [content[n]]);
    assert [content[n]][1..] == "";
    assert WithReturns([content[n]]) == [content[n]];
  }
}
