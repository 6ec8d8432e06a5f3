/** SHA-256: the compression function, the one-shot digest, and the streaming hasher that must equal it. */
module Sha256 {
  type Byte = bv8
  type Word = bv32

  const TWO_64: nat := 0x1_0000_0000_0000_0000

  /** A count as a 64-bit counter holds it. */
  function Wrap64(n: nat): (r: nat)
    ensures r < TWO_64
  {
    n % TWO_64
  }

  const K: seq<Word> :=
    [0x428a2f98, 0x71374491, 0xb5c0fbcf, 0xe9b5dba5, 0x3956c25b, 0x59f111f1, 0x923f82a4, 0xab1c5ed5] +
    [0xd807aa98, 0x12835b01, 0x243185be, 0x550c7dc3, 0x72be5d74, 0x80deb1fe, 0x9bdc06a7, 0xc19bf174] +
    [0xe49b69c1, 0xefbe4786, 0x0fc19dc6, 0x240ca1cc, 0x2de92c6f, 0x4a7484aa, 0x5cb0a9dc, 0x76f988da] +
    [0x983e5152, 0xa831c66d, 0xb00327c8, 0xbf597fc7, 0xc6e00bf3, 0xd5a79147, 0x06ca6351, 0x14292967] +
    [0x27b70a85, 0x2e1b2138, 0x4d2c6dfc, 0x53380d13, 0x650a7354, 0x766a0abb, 0x81c2c92e, 0x92722c85] +
    [0xa2bfe8a1, 0xa81a664b, 0xc24b8b70, 0xc76c51a3, 0xd192e819, 0xd6990624, 0xf40e3585, 0x106aa070] +
    [0x19a4c116, 0x1e376c08, 0x2748774c, 0x34b0bcb5, 0x391c0cb3, 0x4ed8aa4a, 0x5b9cca4f, 0x682e6ff3] +
    [0x748f82ee, 0x78a5636f, 0x84c87814, 0x8cc70208, 0x90befffa, 0xa4506ceb, 0xbef9a3f7, 0xc67178f2]

  const H0: seq<Word> := [
    0x6a09e667, 0xbb67ae85, 0x3c6ef372, 0xa54ff53a, 0x510e527f, 0x9b05688c, 0x1f83d9ab, 0x5be0cd19
  ]

  // ---- compression --------------------------------------------------------------------------

  function WordOf(b0: Byte, b1: Byte, b2: Byte, b3: Byte): Word {
    (b0 as Word << 24) | (b1 as Word << 16) | (b2 as Word << 8) | (b3 as Word)
  }

  function SmallSigma0(x: Word): Word {
    x.RotateRight(7) ^ x.RotateRight(18) ^ (x >> 3)
  }

  function SmallSigma1(x: Word): Word {
    x.RotateRight(17) ^ x.RotateRight(19) ^ (x >> 10)
  }

  function MixWord(w16: Word, w15: Word, w7: Word, w2: Word): Word {
    w16 + SmallSigma0(w15) + w7 + SmallSigma1(w2)
  }

  /** The word after the words of `w` in the message schedule. */
  function NextWord(block: seq<Byte>, w: seq<Word>): Word
    requires |block| == 64 && |w| < 64
  {
    var t := |w|;
    if t < 16 then WordOf(block[4 * t], block[4 * t + 1], block[4 * t + 2], block[4 * t + 3])
    else MixWord(w[t - 16], w[t - 15], w[t - 7], w[t - 2])
  }

  /** The first `n` words of the message schedule. */
  function Schedule(block: seq<Byte>, n: nat): (w: seq<Word>)
    requires |block| == 64 && n <= 64
    ensures |w| == n
  {
    if n == 0 then []
    else
      var w := Schedule(block, n - 1);
      w + [NextWord(block, w)]
  }

  datatype Vars = Vars(a: Word, b: Word, c: Word, d: Word, e: Word, f: Word, g: Word, h: Word)

  function Round(v: Vars, k: Word, w: Word): Vars {
    var s1 := v.e.RotateRight(6) ^ v.e.RotateRight(11) ^ v.e.RotateRight(25);
    var ch := (v.e & v.f) ^ ((!v.e) & v.g);
    var t1 := v.h + s1 + ch + k + w;
    var s0 := v.a.RotateRight(2) ^ v.a.RotateRight(13) ^ v.a.RotateRight(22);
    var maj := (v.a & v.b) ^ (v.a & v.c) ^ (v.b & v.c);
    Vars(t1 + (s0 + maj), v.a, v.b, v.c, v.d + t1, v.e, v.f, v.g)
  }

  function RoundConstant(t: nat): Word
    requires t < 64
  {
    K[t]
  }

  /** The working variables after the first `t` rounds. */
  function Rounds(v: Vars, w: seq<Word>, t: nat): Vars
    requires |w| == 64 && t <= 64
  {
    if t == 0 then v else Round(Rounds(v, w, t - 1), RoundConstant(t - 1), w[t - 1])
  }

  function VarsOf(state: seq<Word>): Vars
    requires |state| == 8
  {
    Vars(state[0], state[1], state[2], state[3], state[4], state[5], state[6], state[7])
  }

  function AddVars(state: seq<Word>, v: Vars): (next: seq<Word>)
    requires |state| == 8
    ensures |next| == 8
  {
    [state[0] + v.a, state[1] + v.b, state[2] + v.c, state[3] + v.d,
     state[4] + v.e, state[5] + v.f, state[6] + v.g, state[7] + v.h]
  }

  function Compress(state: seq<Word>, block: seq<Byte>): (next: seq<Word>)
    requires |state| == 8 && |block| == 64
    ensures |next| == 8
  {
    AddVars(state, Rounds(VarsOf(state), Schedule(block, 64), 64))
  }

  method FillSchedule(block: seq<Byte>) returns (w: array<Word>)
    requires |block| == 64
    ensures w.Length == 64 && fresh(w) && w[..] == Schedule(block, 64)
  {
    hide Schedule, NextWord;
    w := new Word[64](_ => 0);
    ScheduleGrows(block, 0);
    for index := 0 to 64
      invariant w[..index] == Schedule(block, index)
    {
      ScheduleGrows(block, index);
      FillWord(block, w, index);
    }
    assert w[..] == w[..64];
  }

  /** Word `index`: four bytes of the block, or a mix of earlier words. */
  method FillWord(block: seq<Byte>, w: array<Word>, index: nat)
    requires |block| == 64 && w.Length == 64 && index < 64
    modifies w
    ensures w[..index + 1] == old(w[..index]) + [NextWord(block, old(w[..index]))]
  {
    hide MixWord, WordOf;
    ghost var before := w[..index];
    var word: Word;
    if index < 16 {
      word := WordOf(block[4 * index], block[4 * index + 1], block[4 * index + 2], block[4 * index + 3]);
    } else {
      word := MixWord(w[index - 16], w[index - 15], w[index - 7], w[index - 2]);
    }
    w[index] := word;
    assert w[..index + 1] == before + [word];
  }

  lemma {:induction false} ScheduleGrows(block: seq<Byte>, n: nat)
    requires |block| == 64 && n < 64
    ensures Schedule(block, 0) == []
            && Schedule(block, n + 1) == Schedule(block, n) + [NextWord(block, Schedule(block, n))]
  {
    hide NextWord;
  }

  method CompressBlock(state: seq<Word>, block: seq<Byte>) returns (next: seq<Word>)
    requires |state| == 8 && |block| == 64
    ensures next == Compress(state, block)
  {
    hide Schedule, Round, RoundConstant;
    var w := FillSchedule(block);
    ghost var schedule := w[..];
    var v := VarsOf(state);
    for t := 0 to 64
      invariant v == Rounds(VarsOf(state), schedule, t)
      invariant w[..] == schedule
    {
      v := Round(v, RoundConstant(t), w[t]);
    }
    next := AddVars(state, v);
  }

  // ---- what the hash of a message is -----------------------------------------------------------

  /** The state after every block of `bytes`. */
  function Fold(state: seq<Word>, bytes: seq<Byte>): (next: seq<Word>)
    requires |state| == 8 && |bytes| % 64 == 0
    ensures |next| == 8
    decreases |bytes|
  {
    if bytes == [] then state else Fold(Compress(state, bytes[..64]), bytes[64..])
  }

  lemma {:induction false} FoldConcat(state: seq<Word>, x: seq<Byte>, y: seq<Byte>)
    requires |state| == 8 && |x| % 64 == 0 && |y| % 64 == 0
    ensures |x + y| % 64 == 0 && Fold(state, x + y) == Fold(Fold(state, x), y)
    decreases |x|
  {
    hide Compress;
    if x == [] {
      assert x + y == y;
    } else {
      FoldConcat(Compress(state, x[..64]), x[64..], y);
      assert (x + y)[..64] == x[..64] && (x + y)[64..] == x[64..] + y;
    }
  }

  lemma {:induction false} FoldOne(state: seq<Word>, block: seq<Byte>)
    requires |state| == 8 && |block| == 64
    ensures Fold(state, block) == Compress(state, block)
  {
    hide Compress;
    assert block[..64] == block && block[64..] == [];
  }

  function Zeros(n: nat): (zeros: seq<Byte>)
    ensures |zeros| == n
  {
    seq(n, _ => 0)
  }

  /** The low 64 bits of `n`, most significant byte first. */
  function BigEndian64(n: nat): (bytes: seq<Byte>)
    ensures |bytes| == 8
  {
    seq(8, k requires 0 <= k < 8 => ByteOf(n, 7 - k))
  }

  function ByteOf(n: nat, place: nat): Byte {
    if place == 0 then (n % 256) as Byte else ByteOf(n / 256, place - 1)
  }

  /** Zeros after the mark, so that the length ends a block. */
  function ZeroCount(length: nat): nat {
    (119 - length % 64) % 64
  }

  function Padding(length: nat): (padding: seq<Byte>)
    ensures (length + |padding|) % 64 == 0
  {
    TotalLength(length);
    [0x80] + Zeros(ZeroCount(length)) + BigEndian64(Wrap64(length * 8))
  }

  function StateBytes(state: seq<Word>): seq<Byte> {
    if state == [] then []
    else
      var word := state[0];
      [(word >> 24) as Byte, ((word >> 16) & 0xff) as Byte, ((word >> 8) & 0xff) as Byte, (word & 0xff) as Byte]
      + StateBytes(state[1..])
  }

  /** The hash of a message: its blocks and its padding folded into the initial state. */
  function DigestOf(message: seq<Byte>): seq<Byte> {
    StateBytes(Fold(H0, message + Padding(|message|)))
  }

  // ---- one shot -------------------------------------------------------------------------------

  lemma {:induction false} TotalLength(n: nat)
    ensures (n + 1 + ZeroCount(n)) % 64 == 56
  {
  }

  /** The whole message at once: padded, then compressed block by block. */
  method Digest(input: seq<Byte>) returns (out: seq<Byte>)
    ensures out == DigestOf(input)
  {
    hide Compress, StateBytes, Padding;
    var message := PadMessage(input);
    var h := H0;
    var from: nat := 0;
    while from < |message|
      invariant from <= |message| && from % 64 == 0 && |h| == 8
      invariant Fold(h, message[from..]) == Fold(H0, message)
    {
      var block := message[from..from + 64];
      assert message[from..][..64] == block && message[from..][64..] == message[from + 64..];
      h := CompressBlock(h, block);
      from := from + 64;
    }
    assert message[from..] == [];
    out := StateBytes(h);
  }

  method PadMessage(input: seq<Byte>) returns (message: seq<Byte>)
    ensures message == input + Padding(|input|)
  {
    hide BigEndian64;
    var bitLength := Wrap64(Wrap64(|input|) * 8);
    BitLength(|input|);
    message := input + [0x80];
    ghost var zeros: nat := 0;
    while |message| % 64 != 56
      invariant message == input + [0x80] + Zeros(zeros)
      invariant zeros <= ZeroCount(|input|)
      decreases ZeroCount(|input|) - zeros
    {
      TotalLength(|input|);
      assert Zeros(zeros + 1) == Zeros(zeros) + [0];
      message := message + [0];
      zeros := zeros + 1;
    }
    EnoughZeros(|input|, zeros);
    message := message + BigEndian64(bitLength);
  }

  lemma {:induction false} BitLength(n: nat)
    ensures Wrap64(Wrap64(n) * 8) == Wrap64(n * 8)
  {
    var q, r := n / TWO_64, n % TWO_64;
    assert n * 8 == r * 8 + (q * 8) * TWO_64;
    ModPlus(r * 8, q * 8);
  }

  lemma {:induction false} ModPlus(a: nat, k: nat)
    ensures (a + k * TWO_64) % TWO_64 == a % TWO_64
  {
    if k > 0 {
      ModPlus(a, k - 1);
      assert a + k * TWO_64 == (a + (k - 1) * TWO_64) + TWO_64;
    }
  }

  lemma {:induction false} EnoughZeros(n: nat, zeros: nat)
    requires zeros <= ZeroCount(n) && (n + 1 + zeros) % 64 == 56
    ensures zeros == ZeroCount(n)
  {
  }

  // ---- streaming ------------------------------------------------------------------------------

  class Hasher {
    var state: seq<Word>
    const buffer: array<Byte>
    var buffered: nat
    var length: nat

    /** Everything fed in so far. */
    ghost var fed: seq<Byte>

    /** The state is the fold of the full blocks and the buffer holds the tail. */
    ghost predicate Valid()
      reads this, buffer
    {
      && |state| == 8 && buffer.Length == 64
      && buffered == |fed| % 64
      && state == Fold(H0, fed[..|fed| - buffered])
      && buffer[..buffered] == fed[|fed| - buffered..]
      && length == Wrap64(|fed|)
    }

    constructor ()
      ensures Valid() && fed == [] && fresh(buffer)
    {
      state := H0;
      buffer := new Byte[64](_ => 0);
      buffered := 0;
      length := 0;
      fed := [];
    }

    /** `done` is folded into the state and the buffer holds `tail`. */
    ghost predicate Holds(done: seq<Byte>, tail: seq<Byte>)
      reads this, buffer
    {
      && |state| == 8 && buffer.Length == 64 && |done| % 64 == 0 && |tail| < 64
      && state == Fold(H0, done)
      && buffered == |tail| && buffer[..buffered] == tail
    }

    lemma {:induction false} HoldsValid(done: seq<Byte>, tail: seq<Byte>)
      requires Holds(done, tail) && fed == done + tail && length == Wrap64(|fed|)
      ensures Valid()
    {
      hide Wrap64, Fold;
      assert fed[..|fed| - buffered] == done && fed[|fed| - buffered..] == tail;
    }

    /** Copies the head of the data behind the partial buffer. */
    method CopyIn(data: seq<Byte>, take: nat)
      requires buffer.Length == 64 && take <= |data| && buffered + take <= 64
      modifies this`buffered, buffer
      ensures buffered == old(buffered) + take && buffer[..buffered] == old(buffer[..buffered]) + data[..take]
    {
      ghost var before := buffer[..buffered];
      forall k | 0 <= k < take {
        buffer[buffered + k] := data[k];
      }
      buffered := buffered + take;
      assert buffer[..buffered] == before + data[..take];
    }

    /** Tops the partial buffer up from the data; returns how much of the data that took. */
    method FillBuffer(data: seq<Byte>, ghost done: seq<Byte>, ghost tail: seq<Byte>) returns (offset: nat)
      requires Holds(done, tail) && tail != []
      modifies this`state, this`buffered, buffer
      ensures offset <= |data|
      ensures if |tail| + |data| < 64 then offset == |data| && Holds(done, tail + data)
              else Holds(done + (tail + data[..offset]), [])
    {
      hide Compress, Fold;
      var want := 64 - buffered;
      var take := if want < |data| then want else |data|;
      CopyIn(data, take);
      offset := take;
      assert data[..|data|] == data;
      if buffered == 64 {
        ghost var block := tail + data[..offset];
        assert buffer[..] == buffer[..64] == block;
        FoldConcat(H0, done, block);
        FoldOne(Fold(H0, done), block);
        state := CompressBlock(state, buffer[..]);
        buffered := 0;
      }
    }

    /** Compresses whole blocks straight from the data. */
    method RunBlocks(data: seq<Byte>, from: nat, ghost done: seq<Byte>) returns (offset: nat)
      requires |state| == 8 && from <= |data| && |done| % 64 == 0 && state == Fold(H0, done)
      modifies this`state
      ensures from <= offset <= |data| && |data| - offset < 64 && (offset - from) % 64 == 0
      ensures |state| == 8 && (|done| + (offset - from)) % 64 == 0 && state == Fold(H0, done + data[from..offset])
    {
      hide Compress;
      offset := from;
      assert done + data[from..from] == done;
      while offset + 64 <= |data|
        invariant from <= offset <= |data| && (offset - from) % 64 == 0 && |state| == 8
        invariant state == Fold(H0, done + data[from..offset])
      {
        var block := data[offset..offset + 64];
        ghost var soFar := done + data[from..offset];
        assert done + data[from..offset + 64] == soFar + block;
        FoldConcat(H0, soFar, block);
        FoldOne(state, block);
        state := CompressBlock(state, block);
        offset := offset + 64;
      }
    }

    /** Whole blocks straight from the data, then the remainder into the empty buffer. */
    method RunRest(data: seq<Byte>, from: nat, ghost done: seq<Byte>, ghost tail: seq<Byte>)
      returns (ghost nowDone: seq<Byte>, ghost nowTail: seq<Byte>)
      requires from <= |data| && Holds(done, tail) && (tail == [] || from == |data|)
      modifies this`state, this`buffered, buffer
      ensures Holds(nowDone, nowTail) && nowDone + nowTail == done + tail + data[from..]
    {
      hide Compress, Fold;
      var offset := RunBlocks(data, from, done);
      nowDone, nowTail := done + data[from..offset], tail;
      var remaining := |data| - offset;
      if remaining > 0 {
        CopyIn(data[offset..], remaining);
        assert data[offset..][..remaining] == data[offset..];
        nowTail := data[offset..];
        assert buffer[..buffered] == nowTail;
        assert nowDone + nowTail == done + tail + data[from..];
      } else {
        assert done + data[from..offset] + tail == done + tail + data[from..];
      }
    }

    method Update(data: seq<Byte>)
      requires Valid()
      modifies this, buffer
      ensures Valid() && fed == old(fed) + data
    {
      hide Compress, Fold, Wrap64;
      length := Wrap64(length + |data|);
      LengthAdds(|fed|, |data|);
      ghost var done, tail := fed[..|fed| - buffered], fed[|fed| - buffered..];
      assert fed == done + tail;
      var offset := 0;
      assert data[0..] == data;
      if buffered > 0 {
        offset := FillBuffer(data, done, tail);
        assert fed + data == done + (tail + data[..offset]) + data[offset..];
        if buffered > 0 {
          tail := tail + data[..offset];
          assert data[..offset] == data;
        } else {
          done, tail := done + (tail + data[..offset]), [];
        }
      }
      fed := fed + data;
      done, tail := RunRest(data, offset, done, tail);
      HoldsValid(done, tail);
    }

    static lemma {:induction false} LengthAdds(a: nat, b: nat)
      ensures Wrap64(Wrap64(a) + b) == Wrap64(a + b)
    {
      var q, r := a / TWO_64, a % TWO_64;
      assert a + b == (r + b) + q * TWO_64;
      ModPlus(r + b, q);
    }

    /** Pads what was fed in, and hashes it. */
    method Finish() returns (digest: seq<Byte>)
      requires Valid()
      modifies this, buffer
      ensures digest == DigestOf(old(fed))
    {
      hide Compress, Fold, BigEndian64, StateBytes, Wrap64;
      ghost var message := fed;
      var bits := Wrap64(length * 8);
      BitLength(|message|);
      var target := if buffered < 56 then 56 else 120;
      var padding := [0x80] + Zeros(target - buffered - 1) + BigEndian64(bits);
      assert padding == Padding(|message|);
      var saved := length;
      Update(padding);
      length := saved;
      assert fed[..|fed| - buffered] == fed;
      digest := StateBytes(state);
    }
  }

  /** Any way of cutting a message into pieces gives the digest of the whole. */
  method DigestPieces(pieces: seq<seq<Byte>>) returns (digest: seq<Byte>)
    ensures digest == DigestOf(Joined(pieces))
  {
    var hasher := new Hasher();
    for k := 0 to |pieces|
      invariant hasher.Valid() && hasher.fed == Joined(pieces[..k]) && fresh(hasher) && fresh(hasher.buffer)
    {
      assert pieces[..k + 1][..k] == pieces[..k];
      hasher.Update(pieces[k]);
    }
    assert pieces[..|pieces|] == pieces;
    digest := hasher.Finish();
  }

  function Joined(pieces: seq<seq<Byte>>): seq<Byte> {
    if pieces == [] then [] else Joined(pieces[..|pieces| - 1]) + pieces[|pieces| - 1]
  }

  /** The streamed digest equals the one-shot digest, however the message is cut. */
  method StreamedEqualsOneShot(pieces: seq<seq<Byte>>) returns (streamed: seq<Byte>, whole: seq<Byte>)
    ensures streamed == whole == DigestOf(Joined(pieces))
  {
    streamed := DigestPieces(pieces);
    whole := Digest(Joined(pieces));
  }
}
