/** The order of strings, and sorted listings of sets of them. */
module TextOrder {
  import Sorting

  /** Lexicographic order of code points, which is the byte order of the encodings. */
  predicate Less(a: string, b: string) {
    b != "" && (a == "" || a[0] < b[0] || (a[0] == b[0] && Less(a[1..], b[1..])))
  }

  /** `a` is a proper beginning of `b`, or has the lower character where they first differ. */
  ghost predicate Precedes(a: string, b: string) {
    exists k :: 0 <= k <= |a| && PrecedesAt(a, b, k)
  }

  ghost predicate PrecedesAt(a: string, b: string, k: nat) {
    k <= |a| && k < |b| && a[..k] == b[..k] && (k < |a| ==> a[k] < b[k])
  }

  lemma {:induction false} LessMeans(a: string, b: string)
    ensures Less(a, b) <==> Precedes(a, b)
  {
    if a != "" && b != "" && a[0] == b[0] {
      LessMeans(a[1..], b[1..]);
      if Less(a, b) {
        var k :| 0 <= k <= |a[1..]| && PrecedesAt(a[1..], b[1..], k);
        DifferLater(a, b, k);
      }
      if Precedes(a, b) {
        var k :| 0 <= k <= |a| && PrecedesAt(a, b, k);
        assert k > 0;
        DifferEarlier(a, b, k);
      }
    } else if Less(a, b) {
      assert PrecedesAt(a, b, 0);
    } else if Precedes(a, b) {
      var k :| 0 <= k <= |a| && PrecedesAt(a, b, k);
      FirstDiffers(a, b, k);
    }
  }

  lemma {:induction false} DifferLater(a: string, b: string, k: nat)
    requires a != "" && b != "" && a[0] == b[0] && PrecedesAt(a[1..], b[1..], k)
    ensures k + 1 <= |a| && PrecedesAt(a, b, k + 1)
  {
    assert a[..k + 1] == [a[0]] + a[1..][..k] && b[..k + 1] == [b[0]] + b[1..][..k];
  }

  lemma {:induction false} DifferEarlier(a: string, b: string, k: nat)
    requires a != "" && b != "" && k > 0 && PrecedesAt(a, b, k)
    ensures PrecedesAt(a[1..], b[1..], k - 1)
  {
    assert a[1..][..k - 1] == a[..k][1..] && b[1..][..k - 1] == b[..k][1..];
  }

  lemma {:induction false} FirstDiffers(a: string, b: string, k: nat)
    requires PrecedesAt(a, b, k) && !(a != "" && b != "" && a[0] == b[0])
    ensures Less(a, b)
  {
    if k > 0 {
      SameBeginning(a, b, k);
    }
  }

  lemma {:induction false} SameBeginning(a: string, b: string, k: nat)
    requires 0 < k <= |a| && k <= |b| && a[..k] == b[..k]
    ensures a[0] == b[0]
  {
    assert a[..k][0] == a[0] && b[..k][0] == b[0];
  }

  lemma {:induction false} LessIsStrict(a: string, b: string)
    requires Less(a, b)
    ensures a != b && !Less(b, a)
  {
    if a != "" && a[0] == b[0] {
      LessIsStrict(a[1..], b[1..]);
    }
  }

  lemma {:induction false} LessTransitive(a: string, b: string, c: string)
    requires Less(a, b) && Less(b, c)
    ensures Less(a, c)
  {
    if a != "" && a[0] == b[0] && b[0] == c[0] {
      LessTransitive(a[1..], b[1..], c[1..]);
    }
  }

  lemma {:induction false} LessTotal(a: string, b: string)
    ensures a == b || Less(a, b) || Less(b, a)
  {
    if a != "" && b != "" && a[0] == b[0] {
      LessTotal(a[1..], b[1..]);
      assert a == [a[0]] + a[1..] && b == [b[0]] + b[1..];
    }
  }

  ghost predicate Ascends(s: seq<string>) {
    forall i, j :: 0 <= i < j < |s| ==> Less(s[i], s[j])
  }

  lemma {:induction false} AscendingIsDistinct(s: seq<string>)
    requires Ascends(s)
    ensures Sorting.Distinct(s)
  {
    forall i, j | 0 <= i < j < |s|
      ensures s[i] != s[j]
    {
      LessIsStrict(s[i], s[j]);
    }
  }

  predicate IsLeast(keys: set<string>, first: string) {
    first in keys && forall k :: k in keys ==> k == first || Less(first, k)
  }

  lemma {:induction false} SomeLeast(keys: set<string>) returns (first: string)
    requires keys != {}
    ensures IsLeast(keys, first)
  {
    var k :| k in keys;
    if keys == {k} {
      first := k;
    } else {
      var rest := SomeLeast(keys - {k});
      LessTotal(k, rest);
      if Less(k, rest) {
        forall other | other in keys
          ensures other == k || Less(k, other)
        {
          if other != k && other != rest {
            LessTransitive(k, rest, other);
          }
        }
        first := k;
      } else {
        first := rest;
      }
    }
  }

  lemma {:induction false} LeastIsLess(keys: set<string>, first: string, b: string)
    requires IsLeast(keys, first) && b in keys && b != first
    ensures Less(first, b)
  {
  }

  /** The keys of an ordered map, in its order. */
  method Listed(keys: set<string>) returns (listing: seq<string>)
    ensures Ascends(listing) && forall k :: k in listing <==> k in keys
  {
    listing := [];
    var rest := keys;
    while rest != {}
      invariant rest <= keys && Ascends(listing)
      invariant forall k :: k in keys <==> k in rest || k in listing
      invariant forall a, b :: a in listing && b in rest ==> Less(a, b)
      decreases |rest|
    {
      ghost var some := SomeLeast(rest);
      var first :| first in rest && IsLeast(rest, first);
      forall b | b in rest - {first}
        ensures Less(first, b)
      {
        LeastIsLess(rest, first, b);
      }
      listing := listing + [first];
      rest := rest - {first};
    }
  }
}
