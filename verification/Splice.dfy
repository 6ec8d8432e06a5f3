/**
  Replacing several spans of one sequence, a text's characters or a file's lines: the
  single left-to-right pass, and what it amounts to when the replacements are made one
  at a time.
 */
module Splice {
  import Utf

  type Span = (nat, nat)

  /** The spans lie in `i..n`, in order, and do not overlap. */
  ghost predicate Apart(spans: seq<Span>, i: nat, n: nat) {
    if spans == [] then i <= n
    else i <= spans[0].0 <= spans[0].1 && Apart(spans[1..], spans[0].1, n)
  }

  lemma {:induction false} ApartBounds(spans: seq<Span>, i: nat, n: nat)
    requires Apart(spans, i, n)
    ensures i <= n && forall k :: 0 <= k < |spans| ==> i <= spans[k].0 <= spans[k].1 <= n
  {
    if spans != [] {
      ApartBounds(spans[1..], spans[0].1, n);
    }
  }

  lemma {:induction false} ApartFromPairs(spans: seq<Span>, i: nat, n: nat)
    requires i <= n && forall k :: 0 <= k < |spans| ==> i <= spans[k].0 <= spans[k].1 <= n
    requires forall a, b :: 0 <= a < b < |spans| ==> spans[a].1 <= spans[b].0
    ensures Apart(spans, i, n)
  {
    if spans != [] {
      ApartFromPairs(spans[1..], spans[0].1, n);
    }
  }

  /** `text` from `i` on, with each span replaced: one pass from left to right. */
  ghost function Woven<T>(text: seq<T>, spans: seq<Span>, news: seq<seq<T>>, i: nat): seq<T>
    requires |spans| == |news| && Apart(spans, i, |text|)
    decreases |spans|
  {
    ApartBounds(spans, i, |text|);
    if spans == [] then text[i..]
    else text[i..spans[0].0] + news[0] + Woven(text, spans[1..], news[1..], spans[0].1)
  }

  /** One replacement on its own. */
  function ReplaceOne<T>(text: seq<T>, span: Span, replacement: seq<T>): seq<T>
    requires span.0 <= span.1 <= |text|
  {
    text[..span.0] + replacement + text[span.1..]
  }

  /** The replacements made one at a time, from the last to the first: no span moves before its turn. */
  ghost function BackToFront<T>(text: seq<T>, spans: seq<Span>, news: seq<seq<T>>): seq<T>
    requires |spans| == |news| && Apart(spans, 0, |text|)
    decreases |spans|
  {
    if spans == [] then text
    else
      var last := |spans| - 1;
      ApartBounds(spans, 0, |text|);
      ApartInit(spans, 0, |text|);
      var next := ReplaceOne(text, spans[last], news[last]);
      ApartWiden(spans[..last], 0, spans[last].0, |next|);
      BackToFront(next, spans[..last], news[..last])
  }

  lemma {:induction false} ApartInit(spans: seq<Span>, i: nat, n: nat)
    requires Apart(spans, i, n) && spans != []
    ensures Apart(spans[..|spans| - 1], i, spans[|spans| - 1].0)
  {
    if |spans| > 1 {
      ApartInit(spans[1..], spans[0].1, n);
      assert spans[1..][..|spans| - 2] == spans[..|spans| - 1][1..];
    }
  }

  lemma {:induction false} ApartWiden(spans: seq<Span>, i: nat, n: nat, m: nat)
    requires Apart(spans, i, n) && n <= m
    ensures Apart(spans, i, m)
  {
    if spans != [] {
      ApartWiden(spans[1..], spans[0].1, n, m);
    }
  }

  /** The last replacement can be taken out of the pass and made first. */
  lemma {:induction false} LastFirst<T>(text: seq<T>, spans: seq<Span>, news: seq<seq<T>>, i: nat)
    requires |spans| == |news| && spans != [] && Apart(spans, i, |text|)
    ensures var last := |spans| - 1;
            spans[last].0 <= spans[last].1 <= |text| &&
            var next := ReplaceOne(text, spans[last], news[last]);
            Apart(spans[..last], i, |next|)
              && Woven(text, spans, news, i) == Woven(next, spans[..last], news[..last], i)
    decreases |spans|
  {
    hide Apart, ReplaceOne, Woven;
    ApartBounds(spans, i, |text|);
    var last := |spans| - 1;
    var next := ReplaceOne(text, spans[last], news[last]);
    ReplacedAround(text, spans[last], news[last], i);
    ApartInit(spans, i, |text|);
    ApartWiden(spans[..last], i, spans[last].0, |next|);
    ApartTail(spans, i, |text|);
    WovenFirst(text, spans, news, i);
    if last == 0 {
      WovenNone(text, spans[1..], news[1..], spans[0].1);
      WovenNone(next, spans[..last], news[..last], i);
    } else {
      ApartTail(spans[..last], i, |next|);
      WovenFirst(next, spans[..last], news[..last], i);
      LastFirst(text, spans[1..], news[1..], spans[0].1);
      assert spans[1..][..last - 1] == spans[..last][1..] && news[1..][..last - 1] == news[..last][1..];
      assert spans[1..][last - 1] == spans[last] && news[1..][last - 1] == news[last];
      FirstStartsBefore(spans, i, |text|);
    }
  }

  lemma {:induction false} ReplacedAround<T>(text: seq<T>, span: Span, replacement: seq<T>, i: nat)
    requires i <= span.0 <= span.1 <= |text|
    ensures var next := ReplaceOne(text, span, replacement);
            |next| >= span.0 && next[i..] == text[i..span.0] + replacement + text[span.1..] &&
            forall j :: i <= j <= span.0 ==> next[i..j] == text[i..j]
  {
  }

  lemma {:induction false} WovenFirst<T>(text: seq<T>, spans: seq<Span>, news: seq<seq<T>>, i: nat)
    requires |spans| == |news| && spans != [] && Apart(spans, i, |text|)
    ensures i <= spans[0].0 <= spans[0].1 <= |text| && Apart(spans[1..], spans[0].1, |text|)
    ensures Woven(text, spans, news, i)
            == text[i..spans[0].0] + news[0] + Woven(text, spans[1..], news[1..], spans[0].1)
  {
    ApartBounds(spans, i, |text|);
  }

  lemma {:induction false} WovenNone<T>(text: seq<T>, spans: seq<Span>, news: seq<seq<T>>, i: nat)
    requires spans == [] && news == [] && i <= |text|
    ensures Apart(spans, i, |text|) && Woven(text, spans, news, i) == text[i..]
  {
  }

  lemma {:induction false} ApartTail(spans: seq<Span>, i: nat, n: nat)
    requires Apart(spans, i, n) && spans != []
    ensures i <= spans[0].0 <= spans[0].1 && Apart(spans[1..], spans[0].1, n)
  {
  }

  lemma {:induction false} FirstStartsBefore(spans: seq<Span>, i: nat, n: nat)
    requires Apart(spans, i, n) && |spans| > 1
    ensures spans[0].0 <= spans[|spans| - 1].0
  {
    ApartBounds(spans[1..], spans[0].1, n);
    assert spans[1..][|spans| - 2] == spans[|spans| - 1];
  }

  lemma {:induction false} PassIsBackToFront<T>(text: seq<T>, spans: seq<Span>, news: seq<seq<T>>)
    requires |spans| == |news| && Apart(spans, 0, |text|)
    ensures Woven(text, spans, news, 0) == BackToFront(text, spans, news)
    decreases |spans|
  {
    if spans != [] {
      var last := |spans| - 1;
      LastFirst(text, spans, news, 0);
      PassIsBackToFront(ReplaceOne(text, spans[last], news[last]), spans[..last], news[..last]);
    }
  }

  /** Replacing every span by what it holds changes nothing. */
  lemma {:induction false} WeavingItself<T>(text: seq<T>, spans: seq<Span>, news: seq<seq<T>>, i: nat)
    requires |spans| == |news| && Apart(spans, i, |text|)
    requires forall k :: 0 <= k < |spans|
                         ==> spans[k].0 <= spans[k].1 <= |text| && news[k] == text[spans[k].0..spans[k].1]
    ensures i <= |text| && Woven(text, spans, news, i) == text[i..]
    decreases |spans|
  {
    ApartBounds(spans, i, |text|);
    if spans != [] {
      WeavingItself(text, spans[1..], news[1..], spans[0].1);
      assert text[i..] == text[i..spans[0].0] + text[spans[0].0..spans[0].1] + text[spans[0].1..];
    }
  }

  // ---- the state of the loop that makes the pass ------------------------------------

  /** The first `k` spans are woven into `out`, and the text is copied up to character `i`. */
  ghost predicate Weaving<T>(text: seq<T>, spans: seq<Span>, news: seq<seq<T>>, k: nat, i: nat, out: seq<T>)
    requires |spans| == |news| && k <= |spans| && Apart(spans, 0, |text|)
  {
    Apart(spans[k..], i, |text|) && out + Woven(text, spans[k..], news[k..], i) == Woven(text, spans, news, 0)
  }

  lemma {:induction false} WeavingStarts<T>(text: seq<T>, spans: seq<Span>, news: seq<seq<T>>)
    requires |spans| == |news| && Apart(spans, 0, |text|)
    ensures Weaving(text, spans, news, 0, 0, [])
  {
    assert spans[0..] == spans && news[0..] == news;
  }

  lemma {:induction false} WeavingStep<T>(
    text: seq<T>, spans: seq<Span>, news: seq<seq<T>>, k: nat, i: nat, out: seq<T>)
    requires |spans| == |news| && k < |spans| && Apart(spans, 0, |text|) && Weaving(text, spans, news, k, i, out)
    ensures i <= spans[k].0 <= spans[k].1 <= |text|
    ensures Weaving(text, spans, news, k + 1, spans[k].1, out + text[i..spans[k].0] + news[k])
  {
    var s, n := spans[k..], news[k..];
    assert s[0] == spans[k] && n[0] == news[k] && s[1..] == spans[k + 1..] && n[1..] == news[k + 1..];
    ApartBounds(s, i, |text|);
    Associates(out, text[i..s[0].0], n[0], Woven(text, s[1..], n[1..], s[0].1));
  }

  lemma {:induction false} Associates<T>(a: seq<T>, b: seq<T>, c: seq<T>, d: seq<T>)
    ensures a + (b + c + d) == a + b + c + d
  {
  }

  lemma {:induction false} WeavingEnds<T>(text: seq<T>, spans: seq<Span>, news: seq<seq<T>>, i: nat, out: seq<T>)
    requires |spans| == |news| && Apart(spans, 0, |text|) && Weaving(text, spans, news, |spans|, i, out)
    ensures i <= |text| && out + text[i..] == Woven(text, spans, news, 0)
  {
  }

  /** `&text[from..to]`, when both ends are known as characters. */
  method Between(text: string, from: nat, upTo: nat, ghost i: nat, ghost j: nat) returns (slice: string)
    requires i <= j <= |text| && from == Utf.Offset(text, i) && upTo == Utf.Offset(text, j)
    ensures slice == text[i..j]
  {
    Utf.SliceIsChars(text, i, j);
    slice := Utf.ByteSlice(text, from, upTo);
  }
}
