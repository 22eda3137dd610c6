/**
 The hash of a key: MurmurHash64B, which hashes the words of the key alternately into two 32-bit halves and then mixes
 the halves with each other.
 */
module KeyHashes {
  import opened Murmur
  import opened Separation

  datatype Halves = Halves(h1: bv32, h2: bv32)

  function Tail(h: bv32, s: Key): bv32 {
    if s == [] then h else Scale(Xor(h, Pack(s)))
  }

  /** Words at even places go into the first half, words at odd places and the last bytes into the second. */
  function Spread(h: Halves, s: Key): Halves
    decreases |s|
  {
    if |s| >= 8 then Spread(Halves(Mix(h.h1, Pack(s[..4])), Mix(h.h2, Pack(s[4..8]))), s[8..])
    else if |s| >= 4 then Halves(Mix(h.h1, Pack(s[..4])), Tail(h.h2, s[4..]))
    else Halves(h.h1, Tail(h.h2, s))
  }

  function High18(h: bv32): bv32 { h >> 18 }
  function High22(h: bv32): bv32 { h >> 22 }
  function High17(h: bv32): bv32 { h >> 17 }
  function High19(h: bv32): bv32 { h >> 19 }

  /** The last mixes. */
  function Blend(h: Halves): Halves {
    var a := Scale(Xor(h.h1, High18(h.h2)));
    var b := Scale(Xor(h.h2, High22(a)));
    var c := Scale(Xor(a, High17(b)));
    Halves(c, Scale(Xor(b, High19(c))))
  }

  function Join(a: bv32, b: bv32): bv64 { ((a as bv64) << 32) | (b as bv64) }
  function LowHalf(x: bv64): bv32 { (x & 0xffff_ffff) as bv32 }
  function HighHalf(x: bv64): bv32 { (x >> 32) as bv32 }

  function Hash64(key: Key, seed: bv64): bv64 {
    var h := Blend(Spread(Halves(Xor(LowHalf(seed), Length(|key|)), HighHalf(seed)), key));
    Join(h.h1, h.h2)
  }

  lemma SpreadPair(h: Halves, key: Key, i: nat)
    requires i + 8 <= |key|
    ensures Spread(Halves(Mix(h.h1, Pack(key[i..i + 4])), Mix(h.h2, Pack(key[i + 4..i + 8]))), key[i + 8..]) ==
            Spread(h, key[i..])
  {
    hide Mix, Pack, Tail;
    var s := key[i..];
    assert s[..4] == key[i..i + 4] && s[4..8] == key[i + 4..i + 8] && s[8..] == key[i + 8..];
  }

  lemma SpreadLast(h: Halves, key: Key, i: nat)
    requires i <= |key| < i + 8
    ensures Spread(h, key[i..]) ==
      if |key| - i >= 4 then Halves(Mix(h.h1, Pack(key[i..i + 4])), Tail(h.h2, key[i + 4..]))
      else Halves(h.h1, Tail(h.h2, key[i..]))
  {
    hide Mix, Pack, Tail;
    var s := key[i..];
    if |s| >= 4 {
      assert s[..4] == key[i..i + 4] && s[4..] == key[i + 4..];
    }
  }

  /** `Hash(key)` of the client, for every seed. */
  method MurmurHash64B(key: Key, seed: bv64) returns (h: bv64)
    requires |key| < 0x8000_0000
    ensures h == Hash64(key, seed)
  {
    hide Mix, Pack, Scale, Xor, High18, High22, High17, High19, Join, LowHalf, HighHalf, Length, TailMix, Spread, Tail;
    var i, len := 0, |key|;
    var h1, h2 := Xor(LowHalf(seed), Length(len)), HighHalf(seed);
    ghost var start := Halves(h1, h2);
    assert key[0..] == key;
    while len >= 8
      invariant 0 <= len && 0 <= i && i + len == |key| && Spread(Halves(h1, h2), key[i..]) == Spread(start, key)
    {
      SpreadPair(Halves(h1, h2), key, i);
      h1 := Mix(h1, Read(key, i));
      h2 := Mix(h2, Read(key, i + 4));
      i, len := i + 8, len - 8;
    }
    SpreadLast(Halves(h1, h2), key, i);
    if len >= 4 {
      h1 := Mix(h1, Read(key, i));
      i, len := i + 4, len - 4;
    }
    TailIs(h2, key[i..]);
    h2 := TailMix(h2, key[i..]);
    h1 := Scale(Xor(h1, High18(h2)));
    h2 := Scale(Xor(h2, High22(h1)));
    h1 := Scale(Xor(h1, High17(h2)));
    h2 := Scale(Xor(h2, High19(h1)));
    h := Join(h1, h2);
  }

  lemma TailIs(h: bv32, s: Key)
    requires |s| <= 3
    ensures TailMix(h, s) == Tail(h, s)
  {
    hide TailMix, Pack, Scale, Xor;
    TailMixPack(h, s);
  }

  // Every step can be undone

  lemma JoinOf(a: bv32, b: bv32)
    ensures HighHalf(((a as bv64) << 32) | (b as bv64)) == a && LowHalf(((a as bv64) << 32) | (b as bv64)) == b
  {
  }

  lemma JoinIs(a: bv32, b: bv32)
    ensures Join(a, b) == ((a as bv64) << 32) | (b as bv64)
  {
  }

  lemma UndoJoin(a: bv32, b: bv32)
    ensures HighHalf(Join(a, b)) == a && LowHalf(Join(a, b)) == b
  {
    hide Join, HighHalf, LowHalf;
    JoinIs(a, b);
    JoinOf(a, b);
  }

  lemma HalvesOf(x: bv64)
    ensures Join((x >> 32) as bv32, (x & 0xffff_ffff) as bv32) == x
  {
  }

  lemma UndoBlend(h: Halves, g: Halves)
    requires Blend(h) == Blend(g)
    ensures h == g
  {
    hide Scale, Xor, High18, High22, High17, High19;
    var a, a' := Scale(Xor(h.h1, High18(h.h2))), Scale(Xor(g.h1, High18(g.h2)));
    var b, b' := Scale(Xor(h.h2, High22(a))), Scale(Xor(g.h2, High22(a')));
    var c := Scale(Xor(a, High17(b)));
    Unmixed(b, b', High19(c));
    Unmixed(a, a', High17(b));
    Unmixed(h.h2, g.h2, High22(a));
    Unmixed(h.h1, g.h1, High18(h.h2));
  }

  lemma Unmixed(a: bv32, b: bv32, c: bv32)
    ensures Scale(Xor(a, c)) == Scale(Xor(b, c)) ==> a == b
  {
    hide Scale, Unscale, Xor;
    UndoScale(Xor(a, c));
    UndoScale(Xor(b, c));
    UndoXor(a, c);
    UndoXor(b, c);
  }

  /** Different halves stay different through the rest of the key. */
  lemma {:induction false} SpreadOnce(h: Halves, g: Halves, s: Key)
    requires Spread(h, s) == Spread(g, s)
    ensures h == g
    decreases |s|
  {
    hide Mix, Pack, Tail, Spread;
    if |s| >= 8 {
      assert s == s[0..];
      SpreadPair(h, s, 0);
      SpreadPair(g, s, 0);
      var k1, k2 := Pack(s[0..4]), Pack(s[4..8]);
      SpreadOnce(Halves(Mix(h.h1, k1), Mix(h.h2, k2)), Halves(Mix(g.h1, k1), Mix(g.h2, k2)), s[8..]);
      PairOnce(h, g, k1, k2);
    } else {
      LastOnce(h, g, s);
    }
  }

  lemma PairOnce(h: Halves, g: Halves, k1: bv32, k2: bv32)
    requires Mix(h.h1, k1) == Mix(g.h1, k1) && Mix(h.h2, k2) == Mix(g.h2, k2)
    ensures h == g
  {
    hide Mix;
    MixOnce(h.h1, g.h1, k1);
    MixOnce(h.h2, g.h2, k2);
  }

  lemma LastOnce(h: Halves, g: Halves, s: Key)
    requires |s| < 8 && Spread(h, s) == Spread(g, s)
    ensures h == g
  {
    hide Mix, Pack, Tail, Spread;
    assert s == s[0..];
    SpreadLast(h, s, 0);
    SpreadLast(g, s, 0);
    if |s| >= 4 {
      MixTailOnce(h, g, Pack(s[0..4]), s[4..]);
    } else {
      TailUndone(h.h2, g.h2, s);
    }
  }

  lemma MixTailOnce(h: Halves, g: Halves, k: bv32, s: Key)
    requires Mix(h.h1, k) == Mix(g.h1, k) && Tail(h.h2, s) == Tail(g.h2, s)
    ensures h == g
  {
    hide Mix, Tail;
    MixOnce(h.h1, g.h1, k);
    TailUndone(h.h2, g.h2, s);
  }

  lemma MixOnce(h: bv32, g: bv32, k: bv32)
    requires Mix(h, k) == Mix(g, k)
    ensures h == g
  {
    hide Mix, HashBefore, WordMixed;
    UndoMix(h, k);
    UndoMix(g, k);
  }

  lemma TailUndone(h: bv32, g: bv32, s: Key)
    requires Tail(h, s) == Tail(g, s)
    ensures h == g
  {
    hide Pack, Scale, Xor;
    Unmixed(h, g, Pack(s));
  }

  lemma TailApart(h: bv32, x: Key, y: Key)
    requires |x| == |y| <= 3 && Tail(h, x) == Tail(h, y)
    ensures x == y
  {
    hide Pack, Scale, Xor, Unscale;
    if x != [] {
      UndoScale(Xor(h, Pack(x)));
      UndoScale(Xor(h, Pack(y)));
      UndoXor(h, Pack(x));
      UndoXor(h, Pack(y));
      PackOnce(x, y);
    }
  }

  /** The words of one block of eight bytes, or the bytes after the last whole block. */
  lemma BlockApart(h: Halves, x: Key, y: Key, q: Key)
    requires |x| == |y| <= 8 && (|x| < 8 ==> q == []) && Spread(h, x + q) == Spread(h, y + q)
    ensures x == y
  {
    hide Mix, Pack, HashBefore, WordMixed, Tail, Spread;
    if |x| == 8 {
      BlockFirst(h, x, q);
      BlockFirst(h, y, q);
      SpreadOnce(Halves(Mix(h.h1, Pack(x[..4])), Mix(h.h2, Pack(x[4..]))),
                 Halves(Mix(h.h1, Pack(y[..4])), Mix(h.h2, Pack(y[4..]))), q);
      WordsApart(h.h2, x[4..], y[4..]);
    } else {
      assert x + q == x[0..] && y + q == y[0..];
      SpreadLast(h, x, 0);
      SpreadLast(h, y, 0);
      if |x| >= 4 {
        TailApart(h.h2, x[4..], y[4..]);
      } else {
        TailApart(h.h2, x, y);
      }
    }
    if |x| >= 4 {
      assert x[0..4] == x[..4] && y[0..4] == y[..4];
      WordsApart(h.h1, x[..4], y[..4]);
      assert x == x[..4] + x[4..] && y == y[..4] + y[4..];
    }
  }

  lemma WordsApart(h: bv32, x: Key, y: Key)
    requires |x| == |y| == 4 && Mix(h, Pack(x)) == Mix(h, Pack(y))
    ensures x == y
  {
    hide Mix, Pack, HashBefore, WordMixed;
    UndoMix(h, Pack(x));
    UndoMix(h, Pack(y));
    PackOnce(x, y);
  }

  lemma BlockFirst(h: Halves, x: Key, q: Key)
    requires |x| == 8
    ensures Spread(h, x + q) == Spread(Halves(Mix(h.h1, Pack(x[..4])), Mix(h.h2, Pack(x[4..]))), q)
  {
    hide Mix, Pack, Tail;
    var s := x + q;
    assert s[..4] == x[..4] && s[4..8] == x[4..] && s[8..] == q;
  }

  lemma {:induction false} SpreadApart(h: Halves, p: Key, x: Key, y: Key, q: Key)
    requires |p| % 8 == 0 && |x| == |y| <= 8 && (|x| < 8 ==> q == [])
    requires Spread(h, p + x + q) == Spread(h, p + y + q)
    ensures x == y
    decreases |p|
  {
    hide Mix, Pack, Spread;
    if p == [] {
      assert p + x + q == x + q && p + y + q == y + q;
      BlockApart(h, x, y, q);
    } else {
      assert p + x + q == p[..8] + (p[8..] + x + q) && p + y + q == p[..8] + (p[8..] + y + q);
      BlockFirst(h, p[..8], p[8..] + x + q);
      BlockFirst(h, p[..8], p[8..] + y + q);
      SpreadApart(Halves(Mix(h.h1, Pack(p[..8][..4])), Mix(h.h2, Pack(p[..8][4..]))), p[8..], x, y, q);
    }
  }

  lemma SameHash(key: Key, key': Key, seed: bv64, seed': bv64)
    requires Hash64(key, seed) == Hash64(key', seed')
    ensures Spread(Halves(Xor(LowHalf(seed), Length(|key|)), HighHalf(seed)), key) ==
            Spread(Halves(Xor(LowHalf(seed'), Length(|key'|)), HighHalf(seed')), key')
  {
    hide Spread, Blend, Join, LowHalf, HighHalf, Length, Xor;
    var h := Spread(Halves(Xor(LowHalf(seed), Length(|key|)), HighHalf(seed)), key);
    var g := Spread(Halves(Xor(LowHalf(seed'), Length(|key'|)), HighHalf(seed')), key');
    UndoJoin(Blend(h).h1, Blend(h).h2);
    UndoJoin(Blend(g).h1, Blend(g).h2);
    UndoBlend(h, g);
  }

  /**
   Keys of equal length that differ within one block of eight bytes, or only after the last whole block, have different
   hashes under every seed. With `p` and `q` empty: keys of one length of at most eight bytes never collide.
   */
  lemma KeysApart(p: Key, x: Key, y: Key, q: Key, seed: bv64)
    requires |p| % 8 == 0 && |x| == |y| <= 8 && (|x| < 8 ==> q == []) && x != y
    ensures Hash64(p + x + q, seed) != Hash64(p + y + q, seed)
  {
    hide Hash64, Spread, LowHalf, HighHalf, Length, Xor;
    if Hash64(p + x + q, seed) == Hash64(p + y + q, seed) {
      SameHash(p + x + q, p + y + q, seed, seed);
      assert |p + x + q| == |p + y + q|;
      SpreadApart(Halves(Xor(LowHalf(seed), Length(|p + x + q|)), HighHalf(seed)), p, x, y, q);
    }
  }

  /** For every key, the hash is one-to-one in the seed. */
  lemma SeedsApart(key: Key, seed: bv64, seed': bv64)
    requires seed != seed'
    ensures Hash64(key, seed) != Hash64(key, seed')
  {
    hide Hash64, Spread, LowHalf, HighHalf, Length, Xor;
    if Hash64(key, seed) == Hash64(key, seed') {
      SameHash(key, key, seed, seed');
      var n := Length(|key|);
      SpreadOnce(Halves(Xor(LowHalf(seed), n), HighHalf(seed)), Halves(Xor(LowHalf(seed'), n), HighHalf(seed')), key);
      UndoXor(LowHalf(seed), n);
      UndoXor(LowHalf(seed'), n);
      HalvesJoined(seed);
      HalvesJoined(seed');
    }
  }

  lemma HalvesAre(x: bv64)
    ensures HighHalf(x) == (x >> 32) as bv32 && LowHalf(x) == (x & 0xffff_ffff) as bv32
  {
  }

  lemma HalvesJoined(x: bv64)
    ensures Join(HighHalf(x), LowHalf(x)) == x
  {
    hide Join, HighHalf, LowHalf;
    HalvesAre(x);
    HalvesOf(x);
  }

  // Values on short keys, with the seed that clients use

  lemma WordValues()
    ensures Pack([0x61, 0x62, 0x63, 0x64]) == 0x64636261 && Pack([0x65, 0x66, 0x67, 0x68]) == 0x68676665
    ensures Pack([0x65]) == 0x65 && Pack([0x69]) == 0x69
    ensures Length(0) == 0 && Length(5) == 5 && Length(9) == 9 && LowHalf(103) == 103 && HighHalf(103) == 0
    ensures Xor(103, 0) == 103 && Xor(103, 5) == 98 && Xor(103, 9) == 110
  {
  }

  lemma MixValues()
    ensures Mix(110, 0x64636261) == 0x98c7e771 && Mix(0, 0x68676665) == 0x7f52464e
    ensures Mix(98, 0x64636261) == 0xcaaed27d
    ensures Scale(Xor(0x7f52464e, 0x69)) == 0x1f9353b3 && Scale(Xor(0, 0x65)) == 0x39d127c9
  {
  }

  lemma BlendValues()
    ensures Scale(Xor(0x00000067, High18(0x00000000))) == 0xf174faf3
    ensures Scale(Xor(0x00000000, High22(0xf174faf3))) == 0x1e457ea9
    ensures Scale(Xor(0xf174faf3, High17(0x1e457ea9))) == 0xf76f4ba5
    ensures Scale(Xor(0x1e457ea9, High19(0xf76f4ba5))) == 0x8682eb94
    ensures Scale(Xor(0xcaaed27d, High18(0x39d127c9))) == 0xf463423d
    ensures Scale(Xor(0x39d127c9, High22(0xf463423d))) == 0x002bd9f8
    ensures Scale(Xor(0xf463423d, High17(0x002bd9f8))) == 0xcfa3e948
    ensures Scale(Xor(0x002bd9f8, High19(0xcfa3e948))) == 0xf90db2fc
    ensures Scale(Xor(0x98c7e771, High18(0x1f9353b3))) == 0x286253b9
    ensures Scale(Xor(0x1f9353b3, High22(0x286253b9))) == 0xaf0cbb7a
    ensures Scale(Xor(0x286253b9, High17(0xaf0cbb7a))) == 0x9358cfab
    ensures Scale(Xor(0xaf0cbb7a, High19(0x9358cfab))) == 0x7a1fdfe5
  {
  }

  lemma JoinValues()
    ensures Join(0xf76f4ba5, 0x8682eb94) == 0xf76f4ba5_8682eb94
    ensures Join(0xcfa3e948, 0xf90db2fc) == 0xcfa3e948_f90db2fc
    ensures Join(0x9358cfab, 0x7a1fdfe5) == 0x9358cfab_7a1fdfe5
  {
  }

  /** The hashes of the empty key, of "abcde" and of "abcdefghi". */
  lemma KnownHashes()
    ensures Hash64([], 103) == 0xf76f4ba5_8682eb94
    ensures Hash64([0x61, 0x62, 0x63, 0x64, 0x65], 103) == 0xcfa3e948_f90db2fc
    ensures Hash64([0x61, 0x62, 0x63, 0x64, 0x65, 0x66, 0x67, 0x68, 0x69], 103) == 0x9358cfab_7a1fdfe5
  {
    hide Mix, Pack, Scale, Xor, Length, LowHalf, HighHalf, Join, High18, High22, High17, High19;
    WordValues();
    MixValues();
    BlendValues();
    JoinValues();
    var five: Key, nine: Key := [0x61, 0x62, 0x63, 0x64, 0x65], [0x61, 0x62, 0x63, 0x64, 0x65, 0x66, 0x67, 0x68, 0x69];
    assert five[..4] == [0x61, 0x62, 0x63, 0x64] && five[4..] == [0x65];
    assert nine[..4] == [0x61, 0x62, 0x63, 0x64] && nine[4..8] == [0x65, 0x66, 0x67, 0x68] && nine[8..] == [0x69];
  }
}
