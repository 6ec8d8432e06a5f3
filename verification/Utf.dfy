/** Encoded lengths of characters, and the byte offsets Rust's string slices are taken at. */
module Utf {
  function Utf8Len(c: char): (n: nat)
    ensures 1 <= n <= 4
  {
    var code := c as int;
    if code < 0x80 then 1 else if code < 0x800 then 2 else if code < 0x1_0000 then 3 else 4
  }

  /** What `n` bytes can carry: seven bits in one, and of more bytes six bits in each but the first. */
  function Payload(n: nat): nat {
    if n <= 1 then 0x80 else if n == 2 then 32 * 64 else if n == 3 then 16 * 64 * 64 else 8 * 64 * 64 * 64
  }

  /** A character is encoded in as few bytes as can carry its code. */
  lemma {:induction false} Utf8LenIsLeast(c: char)
    ensures (c as int) < Payload(Utf8Len(c)) && (Utf8Len(c) > 1 ==> c as int >= Payload(Utf8Len(c) - 1))
  {
  }

  function Utf16Len(c: char): (n: nat)
    ensures 1 <= n <= 2
  {
    if c as int < 0x1_0000 then 1 else 2
  }

  /** The code points Unicode calls White_Space. */
  predicate IsWhitespace(c: char) {
    var code := c as int;
    0x9 <= code <= 0xd || code == 0x20 || code == 0x85 || code == 0xa0 || code == 0x1680 ||
    0x2000 <= code <= 0x200a || code == 0x2028 || code == 0x2029 || code == 0x202f || code == 0x205f || code == 0x3000
  }

  /** Byte offset of character `k` of `s`; the byte length of `s` when `k == |s|`. */
  function Offset(s: string, k: nat): (bytes: nat)
    requires k <= |s|
    ensures k <= bytes
  {
    if k == 0 then 0 else Offset(s, k - 1) + Utf8Len(s[k - 1])
  }

  function ByteLen(s: string): nat {
    Offset(s, |s|)
  }

  predicate IsBoundary(s: string, b: nat) {
    exists k :: 0 <= k <= |s| && Offset(s, k) == b
  }

  lemma {:induction false} OffsetIncreases(s: string, i: nat, j: nat)
    requires i < j <= |s|
    ensures Offset(s, i) + (j - i) <= Offset(s, j)
  {
    if i + 1 < j {
      OffsetIncreases(s, i, j - 1);
    }
  }

  /** The first character at or after byte `from`; past the last one when there is none. */
  function FirstAt(s: string, from: nat): (k: nat)
    ensures k <= |s|
    ensures k < |s| ==> Offset(s, k) >= from
    ensures forall i :: 0 <= i < k ==> Offset(s, i) < from
  {
    FirstAtFrom(s, from, 0)
  }

  function FirstAtFrom(s: string, from: nat, k: nat): (r: nat)
    requires k <= |s|
    requires forall i :: 0 <= i < k ==> Offset(s, i) < from
    ensures k <= r <= |s|
    ensures r < |s| ==> Offset(s, r) >= from
    ensures forall i :: 0 <= i < r ==> Offset(s, i) < from
    decreases |s| - k
  {
    if k == |s| || Offset(s, k) >= from then k else FirstAtFrom(s, from, k + 1)
  }

  lemma {:induction false} FirstAtBoundary(s: string, k: nat)
    requires k <= |s|
    ensures FirstAt(s, Offset(s, k)) == k
  {
    var r := FirstAt(s, Offset(s, k));
    if r < k {
      OffsetIncreases(s, r, k);
    }
  }

  /** `&s[from..to]` on byte offsets. */
  function ByteSlice(s: string, from: nat, to: nat): string
    requires from <= to && IsBoundary(s, from) && IsBoundary(s, to)
  {
    SliceOrdered(s, from, to);
    s[FirstAt(s, from)..FirstAt(s, to)]
  }

  lemma {:induction false} SliceOrdered(s: string, from: nat, to: nat)
    requires from <= to && IsBoundary(s, from) && IsBoundary(s, to)
    ensures FirstAt(s, from) <= FirstAt(s, to)
  {
    var i :| 0 <= i <= |s| && Offset(s, i) == from;
    var j :| 0 <= j <= |s| && Offset(s, j) == to;
    FirstAtBoundary(s, i);
    FirstAtBoundary(s, j);
    if j < i {
      OffsetIncreases(s, j, i);
    }
  }

  lemma {:induction false} SliceIsChars(s: string, i: nat, j: nat)
    requires i <= j <= |s|
    ensures Offset(s, i) <= Offset(s, j)
    ensures ByteSlice(s, Offset(s, i), Offset(s, j)) == s[i..j]
  {
    if i < j {
      OffsetIncreases(s, i, j);
    }
    FirstAtBoundary(s, i);
    FirstAtBoundary(s, j);
  }

  lemma {:induction false} OffsetOfPrefix(s: string, n: nat, k: nat)
    requires k <= n <= |s|
    ensures Offset(s[..n], k) == Offset(s, k)
  {
    if k > 0 {
      OffsetOfPrefix(s, n, k - 1);
    }
  }

  lemma {:induction false} OffsetOfConcat(s: string, t: string, k: nat)
    requires k <= |t|
    ensures Offset(s + t, |s| + k) == ByteLen(s) + Offset(t, k)
  {
    if k == 0 {
      OffsetOfPrefix(s + t, |s|, |s|);
      assert (s + t)[..|s|] == s;
    } else {
      OffsetOfConcat(s, t, k - 1);
      assert (s + t)[|s| + k - 1] == t[k - 1];
    }
  }
}
