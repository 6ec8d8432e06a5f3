/** A known answer: the digest of "abc" (FIPS 180-4), computed from the specification step by step. */
module Sha256Answer {
  import opened Sha256

  const ABC: seq<Byte> := [0x61, 0x62, 0x63]

  ghost function Message(): (block: seq<Byte>)
    ensures |block| == 64
  {
    TotalLength(3);
    ABC + Padding(3)
  }

  // ---- the message schedule ----------------------------------------------------------------

  predicate Mixed(w: seq<Word>, t: nat)
    requires |w| == 64 && 16 <= t < 64
  {
    w[t] == MixWord(w[t - 16], w[t - 15], w[t - 7], w[t - 2])
  }

  /** The schedule of a block satisfies the recurrence. */
  ghost predicate Follows(block: seq<Byte>, w: seq<Word>) {
    && |block| == 64 && |w| == 64
    && (forall t :: 0 <= t < 16 ==> w[t] == WordOf(block[4 * t], block[4 * t + 1], block[4 * t + 2], block[4 * t + 3]))
    && forall t :: 16 <= t < 64 ==> Mixed(w, t)
  }

  lemma {:induction false} ScheduleStarts(block: seq<Byte>, n: nat, t: nat)
    requires |block| == 64 && t < n <= 64
    ensures Schedule(block, n)[..t] == Schedule(block, t)
    ensures Schedule(block, n)[t] == NextWord(block, Schedule(block, t))
  {
    hide NextWord;
    if t < n - 1 {
      ScheduleStarts(block, n - 1, t);
    }
  }

  lemma {:induction false} ScheduleFollows(block: seq<Byte>)
    requires |block| == 64
    ensures Follows(block, Schedule(block, 64))
  {
    hide Schedule, WordOf, MixWord;
    var w := Schedule(block, 64);
    forall t | 0 <= t < 64
      ensures w[t] == NextWord(block, w[..t])
    {
      ScheduleStarts(block, 64, t);
    }
    forall t | 16 <= t < 64
      ensures Mixed(w, t)
    {
      assert w[t] == NextWord(block, w[..t]);
    }
  }

  lemma {:induction false} MessageBytes()
    ensures Message()[0] == 0x61 && Message()[1] == 0x62 && Message()[2] == 0x63 && Message()[3] == 0x80
    ensures forall k :: 4 <= k < 63 ==> Message()[k] == 0
    ensures Message()[63] == 24
  {
    assert ZeroCount(3) == 52 && Wrap64(24) == 24;
    forall k | 0 <= k < 8
      ensures BigEndian64(24)[k] == if k == 7 then 24 else 0
    {
      LowByte(7 - k);
    }
  }

  lemma {:induction false} LowByte(place: nat)
    ensures ByteOf(24, place) == if place == 0 then 24 else 0
  {
    if place > 0 {
      NoByte(place - 1);
    }
  }

  lemma {:induction false} NoByte(place: nat)
    ensures ByteOf(0, place) == 0
  {
    if place > 0 {
      NoByte(place - 1);
    }
  }

  lemma {:induction false} NextWordIs(
    block: seq<Byte>, w: seq<Word>, t: nat, w16: Word, w15: Word, w7: Word, w2: Word, word: Word)
    requires |w| == 64 && Follows(block, w) && 16 <= t < 64
    requires w[t - 16] == w16 && w[t - 15] == w15 && w[t - 7] == w7 && w[t - 2] == w2
    requires MixWord(w16, w15, w7, w2) == word
    ensures w[t] == word
  {
    hide MixWord, Follows;
    MixedAt(block, w, t);
  }

  lemma {:induction false} MixedAt(block: seq<Byte>, w: seq<Word>, t: nat)
    requires Follows(block, w) && 16 <= t < 64
    ensures |w| == 64 && w[t] == MixWord(w[t - 16], w[t - 15], w[t - 7], w[t - 2])
  {
    hide MixWord, WordOf;
    assert Mixed(w, t);
  }

  lemma {:induction false} FirstWords(w: seq<Word>)
    requires Follows(Message(), w)
    ensures w[0] == 0x61626380 && w[15] == 0x00000018 && forall t :: 0 < t < 15 ==> w[t] == 0
  {
    hide MixWord, Message;
    MessageBytes();
    assert WordOf(0x61, 0x62, 0x63, 0x80) == 0x61626380 && WordOf(0, 0, 0, 24) == 0x00000018 && WordOf(0, 0, 0, 0) == 0;
  }

  lemma {:induction false} WordsTo24(w: seq<Word>)
    requires |w| == 64 && Follows(Message(), w)
    ensures w[8] == 0x00000000 && w[9] == 0x00000000 && w[10] == 0x00000000 && w[11] == 0x00000000
    ensures w[12] == 0x00000000 && w[13] == 0x00000000 && w[14] == 0x00000000 && w[15] == 0x00000018
    ensures w[16] == 0x61626380 && w[17] == 0x000f0000 && w[18] == 0x7da86405 && w[19] == 0x600003c6
    ensures w[20] == 0x3e9d7b78 && w[21] == 0x0183fc00 && w[22] == 0x12dcbfdb && w[23] == 0xe2e2c38e
  {
    hide Follows, Message;
    FirstWords(w);
    NextWordIs(Message(), w, 16, 0x61626380, 0x00000000, 0x00000000, 0x00000000, 0x61626380);
    NextWordIs(Message(), w, 17, 0x00000000, 0x00000000, 0x00000000, 0x00000018, 0x000f0000);
    NextWordIs(Message(), w, 18, 0x00000000, 0x00000000, 0x00000000, 0x61626380, 0x7da86405);
    NextWordIs(Message(), w, 19, 0x00000000, 0x00000000, 0x00000000, 0x000f0000, 0x600003c6);
    NextWordIs(Message(), w, 20, 0x00000000, 0x00000000, 0x00000000, 0x7da86405, 0x3e9d7b78);
    NextWordIs(Message(), w, 21, 0x00000000, 0x00000000, 0x00000000, 0x600003c6, 0x0183fc00);
    NextWordIs(Message(), w, 22, 0x00000000, 0x00000000, 0x00000018, 0x3e9d7b78, 0x12dcbfdb);
    NextWordIs(Message(), w, 23, 0x00000000, 0x00000000, 0x61626380, 0x0183fc00, 0xe2e2c38e);
  }

  lemma {:induction false} WordsTo32(w: seq<Word>)
    requires |w| == 64 && Follows(Message(), w)
    ensures w[16] == 0x61626380 && w[17] == 0x000f0000 && w[18] == 0x7da86405 && w[19] == 0x600003c6
    ensures w[20] == 0x3e9d7b78 && w[21] == 0x0183fc00 && w[22] == 0x12dcbfdb && w[23] == 0xe2e2c38e
    ensures w[24] == 0xc8215c1a && w[25] == 0xb73679a2 && w[26] == 0xe5bc3909 && w[27] == 0x32663c5b
    ensures w[28] == 0x9d209d67 && w[29] == 0xec8726cb && w[30] == 0x702138a4 && w[31] == 0xd3b7973b
  {
    hide Follows, Message;
    WordsTo24(w);
    FirstWords(w);
    NextWordIs(Message(), w, 24, 0x00000000, 0x00000000, 0x000f0000, 0x12dcbfdb, 0xc8215c1a);
    NextWordIs(Message(), w, 25, 0x00000000, 0x00000000, 0x7da86405, 0xe2e2c38e, 0xb73679a2);
    NextWordIs(Message(), w, 26, 0x00000000, 0x00000000, 0x600003c6, 0xc8215c1a, 0xe5bc3909);
    NextWordIs(Message(), w, 27, 0x00000000, 0x00000000, 0x3e9d7b78, 0xb73679a2, 0x32663c5b);
    NextWordIs(Message(), w, 28, 0x00000000, 0x00000000, 0x0183fc00, 0xe5bc3909, 0x9d209d67);
    NextWordIs(Message(), w, 29, 0x00000000, 0x00000000, 0x12dcbfdb, 0x32663c5b, 0xec8726cb);
    NextWordIs(Message(), w, 30, 0x00000000, 0x00000018, 0xe2e2c38e, 0x9d209d67, 0x702138a4);
    NextWordIs(Message(), w, 31, 0x00000018, 0x61626380, 0xc8215c1a, 0xec8726cb, 0xd3b7973b);
  }

  lemma {:induction false} WordsTo40(w: seq<Word>)
    requires |w| == 64 && Follows(Message(), w)
    ensures w[24] == 0xc8215c1a && w[25] == 0xb73679a2 && w[26] == 0xe5bc3909 && w[27] == 0x32663c5b
    ensures w[28] == 0x9d209d67 && w[29] == 0xec8726cb && w[30] == 0x702138a4 && w[31] == 0xd3b7973b
    ensures w[32] == 0x93f5997f && w[33] == 0x3b68ba73 && w[34] == 0xaff4ffc1 && w[35] == 0xf10a5c62
    ensures w[36] == 0x0a8b3996 && w[37] == 0x72af830a && w[38] == 0x9409e33e && w[39] == 0x24641522
  {
    hide Follows, Message;
    WordsTo32(w);
    NextWordIs(Message(), w, 32, 0x61626380, 0x000f0000, 0xb73679a2, 0x702138a4, 0x93f5997f);
    NextWordIs(Message(), w, 33, 0x000f0000, 0x7da86405, 0xe5bc3909, 0xd3b7973b, 0x3b68ba73);
    NextWordIs(Message(), w, 34, 0x7da86405, 0x600003c6, 0x32663c5b, 0x93f5997f, 0xaff4ffc1);
    NextWordIs(Message(), w, 35, 0x600003c6, 0x3e9d7b78, 0x9d209d67, 0x3b68ba73, 0xf10a5c62);
    NextWordIs(Message(), w, 36, 0x3e9d7b78, 0x0183fc00, 0xec8726cb, 0xaff4ffc1, 0x0a8b3996);
    NextWordIs(Message(), w, 37, 0x0183fc00, 0x12dcbfdb, 0x702138a4, 0xf10a5c62, 0x72af830a);
    NextWordIs(Message(), w, 38, 0x12dcbfdb, 0xe2e2c38e, 0xd3b7973b, 0x0a8b3996, 0x9409e33e);
    NextWordIs(Message(), w, 39, 0xe2e2c38e, 0xc8215c1a, 0x93f5997f, 0x72af830a, 0x24641522);
  }

  lemma {:induction false} WordsTo48(w: seq<Word>)
    requires |w| == 64 && Follows(Message(), w)
    ensures w[32] == 0x93f5997f && w[33] == 0x3b68ba73 && w[34] == 0xaff4ffc1 && w[35] == 0xf10a5c62
    ensures w[36] == 0x0a8b3996 && w[37] == 0x72af830a && w[38] == 0x9409e33e && w[39] == 0x24641522
    ensures w[40] == 0x9f47bf94 && w[41] == 0xf0a64f5a && w[42] == 0x3e246a79 && w[43] == 0x27333ba3
    ensures w[44] == 0x0c4763f2 && w[45] == 0x840abf27 && w[46] == 0x7a290d5d && w[47] == 0x065c43da
  {
    hide Follows, Message;
    WordsTo40(w);
    NextWordIs(Message(), w, 40, 0xc8215c1a, 0xb73679a2, 0x3b68ba73, 0x9409e33e, 0x9f47bf94);
    NextWordIs(Message(), w, 41, 0xb73679a2, 0xe5bc3909, 0xaff4ffc1, 0x24641522, 0xf0a64f5a);
    NextWordIs(Message(), w, 42, 0xe5bc3909, 0x32663c5b, 0xf10a5c62, 0x9f47bf94, 0x3e246a79);
    NextWordIs(Message(), w, 43, 0x32663c5b, 0x9d209d67, 0x0a8b3996, 0xf0a64f5a, 0x27333ba3);
    NextWordIs(Message(), w, 44, 0x9d209d67, 0xec8726cb, 0x72af830a, 0x3e246a79, 0x0c4763f2);
    NextWordIs(Message(), w, 45, 0xec8726cb, 0x702138a4, 0x9409e33e, 0x27333ba3, 0x840abf27);
    NextWordIs(Message(), w, 46, 0x702138a4, 0xd3b7973b, 0x24641522, 0x0c4763f2, 0x7a290d5d);
    NextWordIs(Message(), w, 47, 0xd3b7973b, 0x93f5997f, 0x9f47bf94, 0x840abf27, 0x065c43da);
  }

  lemma {:induction false} WordsTo56(w: seq<Word>)
    requires |w| == 64 && Follows(Message(), w)
    ensures w[40] == 0x9f47bf94 && w[41] == 0xf0a64f5a && w[42] == 0x3e246a79 && w[43] == 0x27333ba3
    ensures w[44] == 0x0c4763f2 && w[45] == 0x840abf27 && w[46] == 0x7a290d5d && w[47] == 0x065c43da
    ensures w[48] == 0xfb3e89cb && w[49] == 0xcc7617db && w[50] == 0xb9e66c34 && w[51] == 0xa9993667
    ensures w[52] == 0x84badedd && w[53] == 0xc21462bc && w[54] == 0x1487472c && w[55] == 0xb20f7a99
  {
    hide Follows, Message;
    WordsTo48(w);
    NextWordIs(Message(), w, 48, 0x93f5997f, 0x3b68ba73, 0xf0a64f5a, 0x7a290d5d, 0xfb3e89cb);
    NextWordIs(Message(), w, 49, 0x3b68ba73, 0xaff4ffc1, 0x3e246a79, 0x065c43da, 0xcc7617db);
    NextWordIs(Message(), w, 50, 0xaff4ffc1, 0xf10a5c62, 0x27333ba3, 0xfb3e89cb, 0xb9e66c34);
    NextWordIs(Message(), w, 51, 0xf10a5c62, 0x0a8b3996, 0x0c4763f2, 0xcc7617db, 0xa9993667);
    NextWordIs(Message(), w, 52, 0x0a8b3996, 0x72af830a, 0x840abf27, 0xb9e66c34, 0x84badedd);
    NextWordIs(Message(), w, 53, 0x72af830a, 0x9409e33e, 0x7a290d5d, 0xa9993667, 0xc21462bc);
    NextWordIs(Message(), w, 54, 0x9409e33e, 0x24641522, 0x065c43da, 0x84badedd, 0x1487472c);
    NextWordIs(Message(), w, 55, 0x24641522, 0x9f47bf94, 0xfb3e89cb, 0xc21462bc, 0xb20f7a99);
  }

  lemma {:induction false} WordsTo64(w: seq<Word>)
    requires |w| == 64 && Follows(Message(), w)
    ensures w[48] == 0xfb3e89cb && w[49] == 0xcc7617db && w[50] == 0xb9e66c34 && w[51] == 0xa9993667
    ensures w[52] == 0x84badedd && w[53] == 0xc21462bc && w[54] == 0x1487472c && w[55] == 0xb20f7a99
    ensures w[56] == 0xef57b9cd && w[57] == 0xebe6b238 && w[58] == 0x9fe3095e && w[59] == 0x78bc8d4b
    ensures w[60] == 0xa43fcf15 && w[61] == 0x668b2ff8 && w[62] == 0xeeaba2cc && w[63] == 0x12b1edeb
  {
    hide Follows, Message;
    WordsTo56(w);
    NextWordIs(Message(), w, 56, 0x9f47bf94, 0xf0a64f5a, 0xcc7617db, 0x1487472c, 0xef57b9cd);
    NextWordIs(Message(), w, 57, 0xf0a64f5a, 0x3e246a79, 0xb9e66c34, 0xb20f7a99, 0xebe6b238);
    NextWordIs(Message(), w, 58, 0x3e246a79, 0x27333ba3, 0xa9993667, 0xef57b9cd, 0x9fe3095e);
    NextWordIs(Message(), w, 59, 0x27333ba3, 0x0c4763f2, 0x84badedd, 0xebe6b238, 0x78bc8d4b);
    NextWordIs(Message(), w, 60, 0x0c4763f2, 0x840abf27, 0xc21462bc, 0x9fe3095e, 0xa43fcf15);
    NextWordIs(Message(), w, 61, 0x840abf27, 0x7a290d5d, 0x1487472c, 0x78bc8d4b, 0x668b2ff8);
    NextWordIs(Message(), w, 62, 0x7a290d5d, 0x065c43da, 0xb20f7a99, 0xa43fcf15, 0xeeaba2cc);
    NextWordIs(Message(), w, 63, 0x065c43da, 0xfb3e89cb, 0xef57b9cd, 0x668b2ff8, 0x12b1edeb);
  }
  // ---- the rounds ----------------------------------------------------------------------------

  lemma {:induction false} OneRound(v: Vars, w: seq<Word>, t: nat, before: Vars, k: Word, word: Word, after: Vars)
    requires |w| == 64 && t < 64 && Rounds(v, w, t) == before
    requires K[t] == k && w[t] == word && Round(before, k, word) == after
    ensures Rounds(v, w, t + 1) == after
  {
    hide Round;
  }

  lemma {:induction false} RoundsTo8(v: Vars, w: seq<Word>)
    requires |w| == 64 && Rounds(v, w, 0)
             == Vars(0x6a09e667, 0xbb67ae85, 0x3c6ef372, 0xa54ff53a, 0x510e527f, 0x9b05688c, 0x1f83d9ab, 0x5be0cd19)
    requires w[0] == 0x61626380 && w[1] == 0x00000000 && w[2] == 0x00000000 && w[3] == 0x00000000
    requires w[4] == 0x00000000 && w[5] == 0x00000000 && w[6] == 0x00000000 && w[7] == 0x00000000
    ensures Rounds(v, w, 8)
            == Vars(0x85a07b5f, 0xe5030380, 0x2b4209f5, 0x04409a6a, 0x0c657a79, 0x9b27a401, 0x714260ad, 0x43ada245)
  {
    hide Rounds;
    var v0 := Vars(0x6a09e667, 0xbb67ae85, 0x3c6ef372, 0xa54ff53a, 0x510e527f, 0x9b05688c, 0x1f83d9ab, 0x5be0cd19);
    assert K[0] == 0x428a2f98 && K[1] == 0x71374491 && K[2] == 0xb5c0fbcf && K[3] == 0xe9b5dba5;
    assert K[4] == 0x3956c25b && K[5] == 0x59f111f1 && K[6] == 0x923f82a4 && K[7] == 0xab1c5ed5;
    var v1 := Vars(0x5d6aebcd, 0x6a09e667, 0xbb67ae85, 0x3c6ef372, 0xfa2a4622, 0x510e527f, 0x9b05688c, 0x1f83d9ab);
    OneRound(v, w, 0, v0, 0x428a2f98, 0x61626380, v1);
    var v2 := Vars(0x5a6ad9ad, 0x5d6aebcd, 0x6a09e667, 0xbb67ae85, 0x78ce7989, 0xfa2a4622, 0x510e527f, 0x9b05688c);
    OneRound(v, w, 1, v1, 0x71374491, 0x00000000, v2);
    var v3 := Vars(0xc8c347a7, 0x5a6ad9ad, 0x5d6aebcd, 0x6a09e667, 0xf92939eb, 0x78ce7989, 0xfa2a4622, 0x510e527f);
    OneRound(v, w, 2, v2, 0xb5c0fbcf, 0x00000000, v3);
    var v4 := Vars(0xd550f666, 0xc8c347a7, 0x5a6ad9ad, 0x5d6aebcd, 0x24e00850, 0xf92939eb, 0x78ce7989, 0xfa2a4622);
    OneRound(v, w, 3, v3, 0xe9b5dba5, 0x00000000, v4);
    var v5 := Vars(0x04409a6a, 0xd550f666, 0xc8c347a7, 0x5a6ad9ad, 0x43ada245, 0x24e00850, 0xf92939eb, 0x78ce7989);
    OneRound(v, w, 4, v4, 0x3956c25b, 0x00000000, v5);
    var v6 := Vars(0x2b4209f5, 0x04409a6a, 0xd550f666, 0xc8c347a7, 0x714260ad, 0x43ada245, 0x24e00850, 0xf92939eb);
    OneRound(v, w, 5, v5, 0x59f111f1, 0x00000000, v6);
    var v7 := Vars(0xe5030380, 0x2b4209f5, 0x04409a6a, 0xd550f666, 0x9b27a401, 0x714260ad, 0x43ada245, 0x24e00850);
    OneRound(v, w, 6, v6, 0x923f82a4, 0x00000000, v7);
    var v8 := Vars(0x85a07b5f, 0xe5030380, 0x2b4209f5, 0x04409a6a, 0x0c657a79, 0x9b27a401, 0x714260ad, 0x43ada245);
    OneRound(v, w, 7, v7, 0xab1c5ed5, 0x00000000, v8);
  }

  lemma {:induction false} RoundsTo16(v: Vars, w: seq<Word>)
    requires |w| == 64 && Rounds(v, w, 8)
             == Vars(0x85a07b5f, 0xe5030380, 0x2b4209f5, 0x04409a6a, 0x0c657a79, 0x9b27a401, 0x714260ad, 0x43ada245)
    requires w[8] == 0x00000000 && w[9] == 0x00000000 && w[10] == 0x00000000 && w[11] == 0x00000000
    requires w[12] == 0x00000000 && w[13] == 0x00000000 && w[14] == 0x00000000 && w[15] == 0x00000018
    ensures Rounds(v, w, 16)
            == Vars(0xb0fa238e, 0xc0645fde, 0xd932eb16, 0x87912990, 0x07590dcd, 0x0b92f20c, 0x745a48de, 0x1e578218)
  {
    hide Rounds;
    var v8 := Vars(0x85a07b5f, 0xe5030380, 0x2b4209f5, 0x04409a6a, 0x0c657a79, 0x9b27a401, 0x714260ad, 0x43ada245);
    assert K[8] == 0xd807aa98 && K[9] == 0x12835b01 && K[10] == 0x243185be && K[11] == 0x550c7dc3;
    assert K[12] == 0x72be5d74 && K[13] == 0x80deb1fe && K[14] == 0x9bdc06a7 && K[15] == 0xc19bf174;
    var v9 := Vars(0x8e04ecb9, 0x85a07b5f, 0xe5030380, 0x2b4209f5, 0x32ca2d8c, 0x0c657a79, 0x9b27a401, 0x714260ad);
    OneRound(v, w, 8, v8, 0xd807aa98, 0x00000000, v9);
    var v10 := Vars(0x8c87346b, 0x8e04ecb9, 0x85a07b5f, 0xe5030380, 0x1cc92596, 0x32ca2d8c, 0x0c657a79, 0x9b27a401);
    OneRound(v, w, 9, v9, 0x12835b01, 0x00000000, v10);
    var v11 := Vars(0x4798a3f4, 0x8c87346b, 0x8e04ecb9, 0x85a07b5f, 0x436b23e8, 0x1cc92596, 0x32ca2d8c, 0x0c657a79);
    OneRound(v, w, 10, v10, 0x243185be, 0x00000000, v11);
    var v12 := Vars(0xf71fc5a9, 0x4798a3f4, 0x8c87346b, 0x8e04ecb9, 0x816fd6e9, 0x436b23e8, 0x1cc92596, 0x32ca2d8c);
    OneRound(v, w, 11, v11, 0x550c7dc3, 0x00000000, v12);
    var v13 := Vars(0x87912990, 0xf71fc5a9, 0x4798a3f4, 0x8c87346b, 0x1e578218, 0x816fd6e9, 0x436b23e8, 0x1cc92596);
    OneRound(v, w, 12, v12, 0x72be5d74, 0x00000000, v13);
    var v14 := Vars(0xd932eb16, 0x87912990, 0xf71fc5a9, 0x4798a3f4, 0x745a48de, 0x1e578218, 0x816fd6e9, 0x436b23e8);
    OneRound(v, w, 13, v13, 0x80deb1fe, 0x00000000, v14);
    var v15 := Vars(0xc0645fde, 0xd932eb16, 0x87912990, 0xf71fc5a9, 0x0b92f20c, 0x745a48de, 0x1e578218, 0x816fd6e9);
    OneRound(v, w, 14, v14, 0x9bdc06a7, 0x00000000, v15);
    var v16 := Vars(0xb0fa238e, 0xc0645fde, 0xd932eb16, 0x87912990, 0x07590dcd, 0x0b92f20c, 0x745a48de, 0x1e578218);
    OneRound(v, w, 15, v15, 0xc19bf174, 0x00000018, v16);
  }

  lemma {:induction false} RoundsTo24(v: Vars, w: seq<Word>)
    requires |w| == 64 && Rounds(v, w, 16)
             == Vars(0xb0fa238e, 0xc0645fde, 0xd932eb16, 0x87912990, 0x07590dcd, 0x0b92f20c, 0x745a48de, 0x1e578218)
    requires w[16] == 0x61626380 && w[17] == 0x000f0000 && w[18] == 0x7da86405 && w[19] == 0x600003c6
    requires w[20] == 0x3e9d7b78 && w[21] == 0x0183fc00 && w[22] == 0x12dcbfdb && w[23] == 0xe2e2c38e
    ensures Rounds(v, w, 24)
            == Vars(0xc5d53d8d, 0xa7a3623f, 0xc2606d6d, 0x9dc68b63, 0xaa47c347, 0x49f5114a, 0xe1257970, 0x8ada8930)
  {
    hide Rounds;
    var v16 := Vars(0xb0fa238e, 0xc0645fde, 0xd932eb16, 0x87912990, 0x07590dcd, 0x0b92f20c, 0x745a48de, 0x1e578218);
    assert K[16] == 0xe49b69c1 && K[17] == 0xefbe4786 && K[18] == 0x0fc19dc6 && K[19] == 0x240ca1cc;
    assert K[20] == 0x2de92c6f && K[21] == 0x4a7484aa && K[22] == 0x5cb0a9dc && K[23] == 0x76f988da;
    var v17 := Vars(0x21da9a9b, 0xb0fa238e, 0xc0645fde, 0xd932eb16, 0x8034229c, 0x07590dcd, 0x0b92f20c, 0x745a48de);
    OneRound(v, w, 16, v16, 0xe49b69c1, 0x61626380, v17);
    var v18 := Vars(0xc2fbd9d1, 0x21da9a9b, 0xb0fa238e, 0xc0645fde, 0x846ee454, 0x8034229c, 0x07590dcd, 0x0b92f20c);
    OneRound(v, w, 17, v17, 0xefbe4786, 0x000f0000, v18);
    var v19 := Vars(0xfe777bbf, 0xc2fbd9d1, 0x21da9a9b, 0xb0fa238e, 0xcc899961, 0x846ee454, 0x8034229c, 0x07590dcd);
    OneRound(v, w, 18, v18, 0x0fc19dc6, 0x7da86405, v19);
    var v20 := Vars(0xe1f20c33, 0xfe777bbf, 0xc2fbd9d1, 0x21da9a9b, 0xb0638179, 0xcc899961, 0x846ee454, 0x8034229c);
    OneRound(v, w, 19, v19, 0x240ca1cc, 0x600003c6, v20);
    var v21 := Vars(0x9dc68b63, 0xe1f20c33, 0xfe777bbf, 0xc2fbd9d1, 0x8ada8930, 0xb0638179, 0xcc899961, 0x846ee454);
    OneRound(v, w, 20, v20, 0x2de92c6f, 0x3e9d7b78, v21);
    var v22 := Vars(0xc2606d6d, 0x9dc68b63, 0xe1f20c33, 0xfe777bbf, 0xe1257970, 0x8ada8930, 0xb0638179, 0xcc899961);
    OneRound(v, w, 21, v21, 0x4a7484aa, 0x0183fc00, v22);
    var v23 := Vars(0xa7a3623f, 0xc2606d6d, 0x9dc68b63, 0xe1f20c33, 0x49f5114a, 0xe1257970, 0x8ada8930, 0xb0638179);
    OneRound(v, w, 22, v22, 0x5cb0a9dc, 0x12dcbfdb, v23);
    var v24 := Vars(0xc5d53d8d, 0xa7a3623f, 0xc2606d6d, 0x9dc68b63, 0xaa47c347, 0x49f5114a, 0xe1257970, 0x8ada8930);
    OneRound(v, w, 23, v23, 0x76f988da, 0xe2e2c38e, v24);
  }

  lemma {:induction false} RoundsTo32(v: Vars, w: seq<Word>)
    requires |w| == 64 && Rounds(v, w, 24)
             == Vars(0xc5d53d8d, 0xa7a3623f, 0xc2606d6d, 0x9dc68b63, 0xaa47c347, 0x49f5114a, 0xe1257970, 0x8ada8930)
    requires w[24] == 0xc8215c1a && w[25] == 0xb73679a2 && w[26] == 0xe5bc3909 && w[27] == 0x32663c5b
    requires w[28] == 0x9d209d67 && w[29] == 0xec8726cb && w[30] == 0x702138a4 && w[31] == 0xd3b7973b
    ensures Rounds(v, w, 32)
            == Vars(0x73b33bf5, 0xea992a22, 0xa0060b30, 0x363482c9, 0xba591112, 0x0109ab3a, 0xade79437, 0x6112a3b7)
  {
    hide Rounds;
    var v24 := Vars(0xc5d53d8d, 0xa7a3623f, 0xc2606d6d, 0x9dc68b63, 0xaa47c347, 0x49f5114a, 0xe1257970, 0x8ada8930);
    assert K[24] == 0x983e5152 && K[25] == 0xa831c66d && K[26] == 0xb00327c8 && K[27] == 0xbf597fc7;
    assert K[28] == 0xc6e00bf3 && K[29] == 0xd5a79147 && K[30] == 0x06ca6351 && K[31] == 0x14292967;
    var v25 := Vars(0x1c2c2838, 0xc5d53d8d, 0xa7a3623f, 0xc2606d6d, 0x2823ef91, 0xaa47c347, 0x49f5114a, 0xe1257970);
    OneRound(v, w, 24, v24, 0x983e5152, 0xc8215c1a, v25);
    var v26 := Vars(0xcde8037d, 0x1c2c2838, 0xc5d53d8d, 0xa7a3623f, 0x14383d8e, 0x2823ef91, 0xaa47c347, 0x49f5114a);
    OneRound(v, w, 25, v25, 0xa831c66d, 0xb73679a2, v26);
    var v27 := Vars(0xb62ec4bc, 0xcde8037d, 0x1c2c2838, 0xc5d53d8d, 0xc74c6516, 0x14383d8e, 0x2823ef91, 0xaa47c347);
    OneRound(v, w, 26, v26, 0xb00327c8, 0xe5bc3909, v27);
    var v28 := Vars(0x77d37528, 0xb62ec4bc, 0xcde8037d, 0x1c2c2838, 0xedffbff8, 0xc74c6516, 0x14383d8e, 0x2823ef91);
    OneRound(v, w, 27, v27, 0xbf597fc7, 0x32663c5b, v28);
    var v29 := Vars(0x363482c9, 0x77d37528, 0xb62ec4bc, 0xcde8037d, 0x6112a3b7, 0xedffbff8, 0xc74c6516, 0x14383d8e);
    OneRound(v, w, 28, v28, 0xc6e00bf3, 0x9d209d67, v29);
    var v30 := Vars(0xa0060b30, 0x363482c9, 0x77d37528, 0xb62ec4bc, 0xade79437, 0x6112a3b7, 0xedffbff8, 0xc74c6516);
    OneRound(v, w, 29, v29, 0xd5a79147, 0xec8726cb, v30);
    var v31 := Vars(0xea992a22, 0xa0060b30, 0x363482c9, 0x77d37528, 0x0109ab3a, 0xade79437, 0x6112a3b7, 0xedffbff8);
    OneRound(v, w, 30, v30, 0x06ca6351, 0x702138a4, v31);
    var v32 := Vars(0x73b33bf5, 0xea992a22, 0xa0060b30, 0x363482c9, 0xba591112, 0x0109ab3a, 0xade79437, 0x6112a3b7);
    OneRound(v, w, 31, v31, 0x14292967, 0xd3b7973b, v32);
  }

  lemma {:induction false} RoundsTo40(v: Vars, w: seq<Word>)
    requires |w| == 64 && Rounds(v, w, 32)
             == Vars(0x73b33bf5, 0xea992a22, 0xa0060b30, 0x363482c9, 0xba591112, 0x0109ab3a, 0xade79437, 0x6112a3b7)
    requires w[32] == 0x93f5997f && w[33] == 0x3b68ba73 && w[34] == 0xaff4ffc1 && w[35] == 0xf10a5c62
    requires w[36] == 0x0a8b3996 && w[37] == 0x72af830a && w[38] == 0x9409e33e && w[39] == 0x24641522
    ensures Rounds(v, w, 40)
            == Vars(0x79ea687a, 0x6dc57a8a, 0x34df1604, 0x41a65cb1, 0x1efbc0a0, 0xf0781bc8, 0xa507a53d, 0x0772a26b)
  {
    hide Rounds;
    var v32 := Vars(0x73b33bf5, 0xea992a22, 0xa0060b30, 0x363482c9, 0xba591112, 0x0109ab3a, 0xade79437, 0x6112a3b7);
    assert K[32] == 0x27b70a85 && K[33] == 0x2e1b2138 && K[34] == 0x4d2c6dfc && K[35] == 0x53380d13;
    assert K[36] == 0x650a7354 && K[37] == 0x766a0abb && K[38] == 0x81c2c92e && K[39] == 0x92722c85;
    var v33 := Vars(0x98e12507, 0x73b33bf5, 0xea992a22, 0xa0060b30, 0x9cd9f5f6, 0xba591112, 0x0109ab3a, 0xade79437);
    OneRound(v, w, 32, v32, 0x27b70a85, 0x93f5997f, v33);
    var v34 := Vars(0xfe604df5, 0x98e12507, 0x73b33bf5, 0xea992a22, 0x59249dd3, 0x9cd9f5f6, 0xba591112, 0x0109ab3a);
    OneRound(v, w, 33, v33, 0x2e1b2138, 0x3b68ba73, v34);
    var v35 := Vars(0xa9a7738c, 0xfe604df5, 0x98e12507, 0x73b33bf5, 0x085f3833, 0x59249dd3, 0x9cd9f5f6, 0xba591112);
    OneRound(v, w, 34, v34, 0x4d2c6dfc, 0xaff4ffc1, v35);
    var v36 := Vars(0x65a0cfe4, 0xa9a7738c, 0xfe604df5, 0x98e12507, 0xf4b002d6, 0x085f3833, 0x59249dd3, 0x9cd9f5f6);
    OneRound(v, w, 35, v35, 0x53380d13, 0xf10a5c62, v36);
    var v37 := Vars(0x41a65cb1, 0x65a0cfe4, 0xa9a7738c, 0xfe604df5, 0x0772a26b, 0xf4b002d6, 0x085f3833, 0x59249dd3);
    OneRound(v, w, 36, v36, 0x650a7354, 0x0a8b3996, v37);
    var v38 := Vars(0x34df1604, 0x41a65cb1, 0x65a0cfe4, 0xa9a7738c, 0xa507a53d, 0x0772a26b, 0xf4b002d6, 0x085f3833);
    OneRound(v, w, 37, v37, 0x766a0abb, 0x72af830a, v38);
    var v39 := Vars(0x6dc57a8a, 0x34df1604, 0x41a65cb1, 0x65a0cfe4, 0xf0781bc8, 0xa507a53d, 0x0772a26b, 0xf4b002d6);
    OneRound(v, w, 38, v38, 0x81c2c92e, 0x9409e33e, v39);
    var v40 := Vars(0x79ea687a, 0x6dc57a8a, 0x34df1604, 0x41a65cb1, 0x1efbc0a0, 0xf0781bc8, 0xa507a53d, 0x0772a26b);
    OneRound(v, w, 39, v39, 0x92722c85, 0x24641522, v40);
  }

  lemma {:induction false} RoundsTo48(v: Vars, w: seq<Word>)
    requires |w| == 64 && Rounds(v, w, 40)
             == Vars(0x79ea687a, 0x6dc57a8a, 0x34df1604, 0x41a65cb1, 0x1efbc0a0, 0xf0781bc8, 0xa507a53d, 0x0772a26b)
    requires w[40] == 0x9f47bf94 && w[41] == 0xf0a64f5a && w[42] == 0x3e246a79 && w[43] == 0x27333ba3
    requires w[44] == 0x0c4763f2 && w[45] == 0x840abf27 && w[46] == 0x7a290d5d && w[47] == 0x065c43da
    ensures Rounds(v, w, 48)
            == Vars(0x4172328d, 0xa14c14b0, 0x72ab4b91, 0x26628815, 0xfecf0bc6, 0xd57b94a9, 0xb7755da1, 0xa80f11f0)
  {
    hide Rounds;
    var v40 := Vars(0x79ea687a, 0x6dc57a8a, 0x34df1604, 0x41a65cb1, 0x1efbc0a0, 0xf0781bc8, 0xa507a53d, 0x0772a26b);
    assert K[40] == 0xa2bfe8a1 && K[41] == 0xa81a664b && K[42] == 0xc24b8b70 && K[43] == 0xc76c51a3;
    assert K[44] == 0xd192e819 && K[45] == 0xd6990624 && K[46] == 0xf40e3585 && K[47] == 0x106aa070;
    var v41 := Vars(0xd6670766, 0x79ea687a, 0x6dc57a8a, 0x34df1604, 0x26352d63, 0x1efbc0a0, 0xf0781bc8, 0xa507a53d);
    OneRound(v, w, 40, v40, 0xa2bfe8a1, 0x9f47bf94, v41);
    var v42 := Vars(0xdf46652f, 0xd6670766, 0x79ea687a, 0x6dc57a8a, 0x838b2711, 0x26352d63, 0x1efbc0a0, 0xf0781bc8);
    OneRound(v, w, 41, v41, 0xa81a664b, 0xf0a64f5a, v42);
    var v43 := Vars(0x17aa0dfe, 0xdf46652f, 0xd6670766, 0x79ea687a, 0xdecd4715, 0x838b2711, 0x26352d63, 0x1efbc0a0);
    OneRound(v, w, 42, v42, 0xc24b8b70, 0x3e246a79, v43);
    var v44 := Vars(0x9d4baf93, 0x17aa0dfe, 0xdf46652f, 0xd6670766, 0xfda24c2e, 0xdecd4715, 0x838b2711, 0x26352d63);
    OneRound(v, w, 43, v43, 0xc76c51a3, 0x27333ba3, v44);
    var v45 := Vars(0x26628815, 0x9d4baf93, 0x17aa0dfe, 0xdf46652f, 0xa80f11f0, 0xfda24c2e, 0xdecd4715, 0x838b2711);
    OneRound(v, w, 44, v44, 0xd192e819, 0x0c4763f2, v45);
    var v46 := Vars(0x72ab4b91, 0x26628815, 0x9d4baf93, 0x17aa0dfe, 0xb7755da1, 0xa80f11f0, 0xfda24c2e, 0xdecd4715);
    OneRound(v, w, 45, v45, 0xd6990624, 0x840abf27, v46);
    var v47 := Vars(0xa14c14b0, 0x72ab4b91, 0x26628815, 0x9d4baf93, 0xd57b94a9, 0xb7755da1, 0xa80f11f0, 0xfda24c2e);
    OneRound(v, w, 46, v46, 0xf40e3585, 0x7a290d5d, v47);
    var v48 := Vars(0x4172328d, 0xa14c14b0, 0x72ab4b91, 0x26628815, 0xfecf0bc6, 0xd57b94a9, 0xb7755da1, 0xa80f11f0);
    OneRound(v, w, 47, v47, 0x106aa070, 0x065c43da, v48);
  }

  lemma {:induction false} RoundsTo56(v: Vars, w: seq<Word>)
    requires |w| == 64 && Rounds(v, w, 48)
             == Vars(0x4172328d, 0xa14c14b0, 0x72ab4b91, 0x26628815, 0xfecf0bc6, 0xd57b94a9, 0xb7755da1, 0xa80f11f0)
    requires w[48] == 0xfb3e89cb && w[49] == 0xcc7617db && w[50] == 0xb9e66c34 && w[51] == 0xa9993667
    requires w[52] == 0x84badedd && w[53] == 0xc21462bc && w[54] == 0x1487472c && w[55] == 0xb20f7a99
    ensures Rounds(v, w, 56)
            == Vars(0x38cc9913, 0x3ec45cdb, 0xf5702fdb, 0x101fd28f, 0x54cb266b, 0xe50e1b4f, 0x9f4787c3, 0x529e7d00)
  {
    hide Rounds;
    var v48 := Vars(0x4172328d, 0xa14c14b0, 0x72ab4b91, 0x26628815, 0xfecf0bc6, 0xd57b94a9, 0xb7755da1, 0xa80f11f0);
    assert K[48] == 0x19a4c116 && K[49] == 0x1e376c08 && K[50] == 0x2748774c && K[51] == 0x34b0bcb5;
    assert K[52] == 0x391c0cb3 && K[53] == 0x4ed8aa4a && K[54] == 0x5b9cca4f && K[55] == 0x682e6ff3;
    var v49 := Vars(0x05757ceb, 0x4172328d, 0xa14c14b0, 0x72ab4b91, 0xbd714038, 0xfecf0bc6, 0xd57b94a9, 0xb7755da1);
    OneRound(v, w, 48, v48, 0x19a4c116, 0xfb3e89cb, v49);
    var v50 := Vars(0xf11bfaa8, 0x05757ceb, 0x4172328d, 0xa14c14b0, 0x6e5c390c, 0xbd714038, 0xfecf0bc6, 0xd57b94a9);
    OneRound(v, w, 49, v49, 0x1e376c08, 0xcc7617db, v50);
    var v51 := Vars(0x7a0508a1, 0xf11bfaa8, 0x05757ceb, 0x4172328d, 0x52f1ccf7, 0x6e5c390c, 0xbd714038, 0xfecf0bc6);
    OneRound(v, w, 50, v50, 0x2748774c, 0xb9e66c34, v51);
    var v52 := Vars(0x886e7a22, 0x7a0508a1, 0xf11bfaa8, 0x05757ceb, 0x49231c1e, 0x52f1ccf7, 0x6e5c390c, 0xbd714038);
    OneRound(v, w, 51, v51, 0x34b0bcb5, 0xa9993667, v52);
    var v53 := Vars(0x101fd28f, 0x886e7a22, 0x7a0508a1, 0xf11bfaa8, 0x529e7d00, 0x49231c1e, 0x52f1ccf7, 0x6e5c390c);
    OneRound(v, w, 52, v52, 0x391c0cb3, 0x84badedd, v53);
    var v54 := Vars(0xf5702fdb, 0x101fd28f, 0x886e7a22, 0x7a0508a1, 0x9f4787c3, 0x529e7d00, 0x49231c1e, 0x52f1ccf7);
    OneRound(v, w, 53, v53, 0x4ed8aa4a, 0xc21462bc, v54);
    var v55 := Vars(0x3ec45cdb, 0xf5702fdb, 0x101fd28f, 0x886e7a22, 0xe50e1b4f, 0x9f4787c3, 0x529e7d00, 0x49231c1e);
    OneRound(v, w, 54, v54, 0x5b9cca4f, 0x1487472c, v55);
    var v56 := Vars(0x38cc9913, 0x3ec45cdb, 0xf5702fdb, 0x101fd28f, 0x54cb266b, 0xe50e1b4f, 0x9f4787c3, 0x529e7d00);
    OneRound(v, w, 55, v55, 0x682e6ff3, 0xb20f7a99, v56);
  }

  lemma {:induction false} RoundsTo64(v: Vars, w: seq<Word>)
    requires |w| == 64 && Rounds(v, w, 56)
             == Vars(0x38cc9913, 0x3ec45cdb, 0xf5702fdb, 0x101fd28f, 0x54cb266b, 0xe50e1b4f, 0x9f4787c3, 0x529e7d00)
    requires w[56] == 0xef57b9cd && w[57] == 0xebe6b238 && w[58] == 0x9fe3095e && w[59] == 0x78bc8d4b
    requires w[60] == 0xa43fcf15 && w[61] == 0x668b2ff8 && w[62] == 0xeeaba2cc && w[63] == 0x12b1edeb
    ensures Rounds(v, w, 64)
            == Vars(0x506e3058, 0xd39a2165, 0x04d24d6c, 0xb85e2ce9, 0x5ef50f24, 0xfb121210, 0x948d25b6, 0x961f4894)
  {
    hide Rounds;
    var v56 := Vars(0x38cc9913, 0x3ec45cdb, 0xf5702fdb, 0x101fd28f, 0x54cb266b, 0xe50e1b4f, 0x9f4787c3, 0x529e7d00);
    assert K[56] == 0x748f82ee && K[57] == 0x78a5636f && K[58] == 0x84c87814 && K[59] == 0x8cc70208;
    assert K[60] == 0x90befffa && K[61] == 0xa4506ceb && K[62] == 0xbef9a3f7 && K[63] == 0xc67178f2;
    var v57 := Vars(0xfcd1887b, 0x38cc9913, 0x3ec45cdb, 0xf5702fdb, 0x9b5e906c, 0x54cb266b, 0xe50e1b4f, 0x9f4787c3);
    OneRound(v, w, 56, v56, 0x748f82ee, 0xef57b9cd, v57);
    var v58 := Vars(0xc062d46f, 0xfcd1887b, 0x38cc9913, 0x3ec45cdb, 0x7e44008e, 0x9b5e906c, 0x54cb266b, 0xe50e1b4f);
    OneRound(v, w, 57, v57, 0x78a5636f, 0xebe6b238, v58);
    var v59 := Vars(0xffb70472, 0xc062d46f, 0xfcd1887b, 0x38cc9913, 0x6d83bfc6, 0x7e44008e, 0x9b5e906c, 0x54cb266b);
    OneRound(v, w, 58, v58, 0x84c87814, 0x9fe3095e, v59);
    var v60 := Vars(0xb6ae8fff, 0xffb70472, 0xc062d46f, 0xfcd1887b, 0xb21bad3d, 0x6d83bfc6, 0x7e44008e, 0x9b5e906c);
    OneRound(v, w, 59, v59, 0x8cc70208, 0x78bc8d4b, v60);
    var v61 := Vars(0xb85e2ce9, 0xb6ae8fff, 0xffb70472, 0xc062d46f, 0x961f4894, 0xb21bad3d, 0x6d83bfc6, 0x7e44008e);
    OneRound(v, w, 60, v60, 0x90befffa, 0xa43fcf15, v61);
    var v62 := Vars(0x04d24d6c, 0xb85e2ce9, 0xb6ae8fff, 0xffb70472, 0x948d25b6, 0x961f4894, 0xb21bad3d, 0x6d83bfc6);
    OneRound(v, w, 61, v61, 0xa4506ceb, 0x668b2ff8, v62);
    var v63 := Vars(0xd39a2165, 0x04d24d6c, 0xb85e2ce9, 0xb6ae8fff, 0xfb121210, 0x948d25b6, 0x961f4894, 0xb21bad3d);
    OneRound(v, w, 62, v62, 0xbef9a3f7, 0xeeaba2cc, v63);
    var v64 := Vars(0x506e3058, 0xd39a2165, 0x04d24d6c, 0xb85e2ce9, 0x5ef50f24, 0xfb121210, 0x948d25b6, 0x961f4894);
    OneRound(v, w, 63, v63, 0xc67178f2, 0x12b1edeb, v64);
  }

  lemma {:induction false} AllRounds(w: seq<Word>)
    requires |w| == 64 && Follows(Message(), w)
    ensures Rounds(VarsOf(H0), w, 64)
            == Vars(0x506e3058, 0xd39a2165, 0x04d24d6c, 0xb85e2ce9, 0x5ef50f24, 0xfb121210, 0x948d25b6, 0x961f4894)
  {
    hide Rounds, Follows, Message;
    Start(w);
    FirstWords(w);
    WordsTo32(w);
    WordsTo48(w);
    WordsTo64(w);
    RoundsTo8(VarsOf(H0), w);
    RoundsTo16(VarsOf(H0), w);
    RoundsTo24(VarsOf(H0), w);
    RoundsTo32(VarsOf(H0), w);
    RoundsTo40(VarsOf(H0), w);
    RoundsTo48(VarsOf(H0), w);
    RoundsTo56(VarsOf(H0), w);
    RoundsTo64(VarsOf(H0), w);
  }

  lemma {:induction false} Start(w: seq<Word>)
    requires |w| == 64
    ensures Rounds(VarsOf(H0), w, 0)
            == Vars(0x6a09e667, 0xbb67ae85, 0x3c6ef372, 0xa54ff53a, 0x510e527f, 0x9b05688c, 0x1f83d9ab, 0x5be0cd19)
  {
  }

  // ---- the digest ------------------------------------------------------------------------------

  lemma {:induction false} FinalState()
    ensures Compress(H0, Message())
            == [0xba7816bf, 0x8f01cfea, 0x414140de, 0x5dae2223,
                0xb00361a3, 0x96177a9c, 0xb410ff61, 0xf20015ad]
  {
    hide Rounds, Schedule;
    ScheduleFollows(Message());
    AllRounds(Schedule(Message(), 64));
  }

  /** The digest of "abc". */
  lemma {:induction false} DigestOfAbc()
    ensures DigestOf(ABC) == [
              0xba, 0x78, 0x16, 0xbf, 0x8f, 0x01, 0xcf, 0xea, 0x41, 0x41, 0x40, 0xde, 0x5d, 0xae, 0x22, 0x23,
              0xb0, 0x03, 0x61, 0xa3, 0x96, 0x17, 0x7a, 0x9c, 0xb4, 0x10, 0xff, 0x61, 0xf2, 0x00, 0x15, 0xad
            ]
  {
    hide Compress, Padding;
    FinalState();
    OneBlock(H0, Message());
    EightWords(Compress(H0, Message()));
  }

  function WordBytes(word: Word): seq<Byte> {
    [(word >> 24) as Byte, ((word >> 16) & 0xff) as Byte, ((word >> 8) & 0xff) as Byte, (word & 0xff) as Byte]
  }

  lemma {:induction false} EightWords(s: seq<Word>)
    requires |s| == 8
    ensures StateBytes(s) == WordBytes(s[0]) + (WordBytes(s[1]) + (WordBytes(s[2]) + (WordBytes(s[3])
                             + (WordBytes(s[4]) + (WordBytes(s[5]) + (WordBytes(s[6]) + WordBytes(s[7])))))))
  {
    hide WordBytes, StateBytes;
    FirstWordBytes(s);
    FirstWordBytes(s[1..]);
    FirstWordBytes(s[2..]);
    FirstWordBytes(s[3..]);
    FirstWordBytes(s[4..]);
    FirstWordBytes(s[5..]);
    FirstWordBytes(s[6..]);
    FirstWordBytes(s[7..]);
    NoWords(s[8..]);
    assert s[1..][1..] == s[2..] && s[2..][1..] == s[3..] && s[3..][1..] == s[4..] && s[4..][1..] == s[5..];
    assert s[5..][1..] == s[6..] && s[6..][1..] == s[7..] && s[7..][1..] == s[8..];
  }

  lemma {:induction false} NoWords(s: seq<Word>)
    requires s == []
    ensures forall bytes: seq<Byte> :: bytes + StateBytes(s) == bytes
  {
  }

  lemma {:induction false} FirstWordBytes(s: seq<Word>)
    requires s != []
    ensures StateBytes(s) == WordBytes(s[0]) + StateBytes(s[1..])
  {
  }

  lemma {:induction false} OneBlock(state: seq<Word>, block: seq<Byte>)
    requires |state| == 8 && |block| == 64
    ensures Fold(state, block) == Compress(state, block)
  {
    hide Compress;
    assert block[..64] == block && block[64..] == [];
  }
}
