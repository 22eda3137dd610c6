/**
 What the hashes compute and tell apart: their values on short keys, and that they are one-to-one in the seed and in
 every single word of the key, because each mix can be undone.
 */
module Separation {
  import opened Murmur

  // The inverses of the steps of a mix

  function Unscale(h: bv32): bv32 { h * 0xe59b19bd }
  function Unfold13(h: bv32): bv32 { h ^ (h >> 13) ^ (h >> 26) }
  function Unfold15(h: bv32): bv32 { h ^ (h >> 15) ^ (h >> 30) }

  lemma ScaleIs(h: bv32)
    ensures Scale(h) == h * 0x5bd1e995
  {
  }

  lemma UnscaleOf(h: bv32)
    ensures Unscale(h * 0x5bd1e995) == h
  {
  }

  lemma UndoScale(h: bv32)
    ensures Unscale(Scale(h)) == h
  {
    hide Scale, Unscale;
    ScaleIs(h);
    UnscaleOf(h);
  }

  lemma FoldsAre(h: bv32)
    ensures Fold24(h) == h ^ (h >> 24) && Fold13(h) == h ^ (h >> 13) && Fold15(h) == h ^ (h >> 15)
  {
  }

  lemma UnfoldsOf(h: bv32)
    ensures Fold24(h ^ (h >> 24)) == h && Unfold13(h ^ (h >> 13)) == h && Unfold15(h ^ (h >> 15)) == h
  {
  }

  lemma UndoFolds(h: bv32)
    ensures Fold24(Fold24(h)) == h && Unfold13(Fold13(h)) == h && Unfold15(Fold15(h)) == h
  {
    hide Fold24, Fold13, Fold15, Unfold13, Unfold15;
    FoldsAre(h);
    UnfoldsOf(h);
  }

  lemma UndoXor(a: bv32, b: bv32)
    ensures Xor(Xor(a, b), b) == a && Xor(Xor(a, b), a) == b
  {
  }

  /** The hash before the word `k` was mixed in, and the word that was mixed into the hash `h`. */
  function HashBefore(r: bv32, k: bv32): bv32 { Unscale(Xor(r, Scale(Fold24(Scale(k))))) }
  function WordMixed(r: bv32, h: bv32): bv32 { Unscale(Fold24(Unscale(Xor(r, Scale(h))))) }
  function Unfinish(r: bv32): bv32 { Unfold13(Unscale(Unfold15(r))) }

  lemma UndoMix(h: bv32, k: bv32)
    ensures HashBefore(Mix(h, k), k) == h && WordMixed(Mix(h, k), h) == k
  {
    hide Scale, Unscale, Fold24, Xor;
    UndoXor(Scale(h), Scale(Fold24(Scale(k))));
    UndoScale(h);
    UndoScale(k);
    UndoScale(Fold24(Scale(k)));
    UndoFolds(Scale(k));
  }

  lemma UndoFinish(h: bv32)
    ensures Unfinish(Finish(h)) == h
  {
    hide Scale, Unscale, Fold13, Fold15, Unfold13, Unfold15;
    UndoFolds(Scale(Fold13(h)));
    UndoScale(Fold13(h));
    UndoFolds(h);
  }

  function Low(w: bv32): bv8 { (w & 0xff) as bv8 }

  lemma LowOf(a: bv8, b: bv8, c: bv8, d: bv8)
    ensures Low((a as bv32) | ((b as bv32) << 8) | ((c as bv32) << 16) | ((d as bv32) << 24)) == a
  {
  }

  lemma WordIs(a: bv8, b: bv8, c: bv8, d: bv8)
    ensures Word(a, b, c, d) == (a as bv32) | ((b as bv32) << 8) | ((c as bv32) << 16) | ((d as bv32) << 24)
  {
  }

  lemma LowByte(a: bv8, b: bv8, c: bv8, d: bv8)
    ensures Low(Word(a, b, c, d)) == a
  {
    hide Low, Word;
    LowOf(a, b, c, d);
    WordIs(a, b, c, d);
  }

  /** A word determines its bytes. */
  lemma WordOnce(a: bv8, b: bv8, c: bv8, d: bv8, a': bv8, b': bv8, c': bv8, d': bv8)
    requires Word(a, b, c, d) == Word(a', b', c', d')
    ensures a == a' && b == b' && c == c' && d == d'
  {
    hide Low, Word, Shr;
    LowByte(a, b, c, d);
    LowByte(a', b', c', d');
    DropOne(a, b, c, d);
    DropOne(a', b', c', d');
    LowByte(b, c, d, 0);
    LowByte(b', c', d', 0);
    DropTwo(a, b, c, d);
    DropTwo(a', b', c', d');
    LowByte(c, d, 0, 0);
    LowByte(c', d', 0, 0);
    DropThree(a, b, c, d);
    DropThree(a', b', c', d');
    LowByte(d, 0, 0, 0);
    LowByte(d', 0, 0, 0);
  }

  lemma PackOnce(x: Key, y: Key)
    requires |x| == |y| <= 4 && Pack(x) == Pack(y)
    ensures x == y
  {
    hide Word;
    WordOnce(At(x, 0), At(x, 1), At(x, 2), At(x, 3), At(y, 0), At(y, 1), At(y, 2), At(y, 3));
    forall i | 0 <= i < |x| ensures x[i] == y[i] {
      assert x[i] == At(x, i) && y[i] == At(y, i);
    }
  }

  /** A whole number of words at the front can be hashed first. */
  lemma {:induction false} DigestAfter(h: bv32, p: Key, s: Key)
    requires |p| % 4 == 0
    ensures Digest(h, p + s) == Digest(Body(h, p), s)
    ensures Body(h, p + s) == Body(Body(h, p), s) && Rest(p + s) == Rest(s)
    decreases |p|
  {
    hide Mix, Pack, Finish, Scale, Xor;
    if p == [] {
      assert p + s == s;
    } else {
      DigestAfter(Mix(h, Pack(p[..4])), p[4..], s);
      assert (p + s)[..4] == p[..4] && (p + s)[4..] == p[4..] + s;
    }
  }

  /** Different hashes stay different through the rest of the key. */
  lemma {:induction false} DigestOnce(h: bv32, h': bv32, s: Key)
    ensures Digest(h, s) == Digest(h', s) ==> h == h'
    ensures Body(h, s) == Body(h', s) ==> h == h'
    decreases |s|
  {
    hide Mix, Pack, Finish, Scale, Xor, HashBefore, WordMixed;
    if |s| >= 4 {
      var k := Pack(s[..4]);
      DigestOnce(Mix(h, k), Mix(h', k), s[4..]);
      UndoMix(h, k);
      UndoMix(h', k);
    } else if Digest(h, s) == Digest(h', s) {
      TailOnce(h, h', s, s);
    }
  }

  /** A tail of up to three bytes is one-to-one in the hash and in the bytes. */
  lemma TailOnce(h: bv32, h': bv32, s: Key, s': Key)
    requires |s| == |s'| <= 3 && Digest(h, s) == Digest(h', s')
    ensures s == s' ==> h == h'
    ensures h == h' ==> s == s'
  {
    hide Mix, Pack, Finish, Scale, Xor, Unfinish, Unscale;
    var t := if s == [] then h else Scale(Xor(h, Pack(s)));
    var t' := if s' == [] then h' else Scale(Xor(h', Pack(s')));
    UndoFinish(t);
    UndoFinish(t');
    if s != [] {
      UndoScale(Xor(h, Pack(s)));
      UndoScale(Xor(h', Pack(s')));
      UndoXor(h, Pack(s));
      UndoXor(h', Pack(s'));
      if h == h' {
        PackOnce(s, s');
      }
    }
  }

  /** For every key, the hash is one-to-one in the seed. */
  lemma SeedOnce(key: Key, seed: bv32, seed': bv32)
    requires seed != seed'
    ensures Hash2(key, seed) != Hash2(key, seed') && Hash2A(key, seed) != Hash2A(key, seed')
  {
    hide Digest, Body, Mix, Pack, Finish, Length;
    SameXor(seed, seed', Length(|key|));
    DigestOnce(seed ^ Length(|key|), seed' ^ Length(|key|), key);
    DigestOnce(seed, seed', key);
    if Hash2A(key, seed) == Hash2A(key, seed') {
      FinishedOnce(Body(seed, key), Body(seed', key), Rest(key), Rest(key), |key|);
    }
  }

  lemma SameXor(a: bv32, b: bv32, c: bv32)
    requires a != b
    ensures a ^ c != b ^ c
  {
  }

  /** The last mixes of `Hash2A` are one-to-one in the hash and in the bytes left over. */
  lemma FinishedOnce(h: bv32, h': bv32, s: Key, s': Key, n: nat)
    requires |s| == |s'| <= 3
    requires Finish(Mix(Mix(h, Pack(s)), Length(n))) == Finish(Mix(Mix(h', Pack(s')), Length(n)))
    ensures s == s' ==> h == h'
    ensures h == h' ==> s == s'
  {
    hide Mix, Pack, Finish, Length, HashBefore, Unfinish, WordMixed;
    UndoFinish(Mix(Mix(h, Pack(s)), Length(n)));
    UndoFinish(Mix(Mix(h', Pack(s')), Length(n)));
    UndoMix(Mix(h, Pack(s)), Length(n));
    UndoMix(Mix(h', Pack(s')), Length(n));
    UndoMix(h, Pack(s));
    UndoMix(h', Pack(s'));
    if h == h' {
      PackOnce(s, s');
    }
  }

  /**
   Keys of equal length that differ in one word only, or only in the bytes after the last whole word, have different
   hashes under every seed. With `p` and `q` empty: the hash is one-to-one on keys of up to four bytes.
   */
  lemma WordOnceHashed(p: Key, x: Key, y: Key, q: Key, seed: bv32)
    requires |p| % 4 == 0 && |x| == |y| <= 4 && (|x| < 4 ==> q == []) && x != y
    ensures Hash2(p + x + q, seed) != Hash2(p + y + q, seed)
    ensures Hash2A(p + x + q, seed) != Hash2A(p + y + q, seed)
  {
    hide Hash2, Hash2A, Digest, Body, Mix, Pack, Finish, Rest, Length;
    var n := |p| + |x| + |q|;
    WholeWords(p, x, q, seed, n);
    WholeWords(p, y, q, seed, n);
    LastWords(Body(seed ^ Length(n), p), x, y, q);
    LastWordsA(Body(seed, p), x, y, q, n);
  }

  lemma WholeWords(p: Key, x: Key, q: Key, seed: bv32, n: nat)
    requires |p| % 4 == 0 && n == |p| + |x| + |q|
    ensures Hash2(p + x + q, seed) == Digest(Body(seed ^ Length(n), p), x + q)
    ensures Hash2A(p + x + q, seed) == Finish(Mix(Mix(Body(Body(seed, p), x + q), Pack(Rest(x + q))), Length(n)))
  {
    hide Digest, Body, Mix, Pack, Finish, Rest, Length;
    assert p + x + q == p + (x + q);
    DigestAfter(seed ^ Length(n), p, x + q);
    DigestAfter(seed, p, x + q);
  }

  lemma LastWords(h: bv32, x: Key, y: Key, q: Key)
    requires |x| == |y| <= 4 && (|x| < 4 ==> q == []) && x != y
    ensures Digest(h, x + q) != Digest(h, y + q)
  {
    hide Mix, Pack, Finish, Digest, HashBefore, Unfinish, WordMixed;
    if Digest(h, x + q) == Digest(h, y + q) {
      if |x| < 4 {
        assert x + q == x && y + q == y;
        TailOnce(h, h, x, y);
      } else {
        FirstWord(h, x, q);
        FirstWord(h, y, q);
        DigestOnce(Mix(h, Pack(x)), Mix(h, Pack(y)), q);
        UndoMix(h, Pack(x));
        UndoMix(h, Pack(y));
        PackOnce(x, y);
      }
    }
  }

  lemma FirstWord(h: bv32, x: Key, q: Key)
    requires |x| == 4
    ensures Digest(h, x + q) == Digest(Mix(h, Pack(x)), q)
    ensures Body(h, x + q) == Body(Mix(h, Pack(x)), q) && Rest(x + q) == Rest(q)
  {
    hide Mix, Pack, Finish;
    assert (x + q)[..4] == x && (x + q)[4..] == q;
  }

  lemma LastWordsA(h: bv32, x: Key, y: Key, q: Key, n: nat)
    requires |x| == |y| <= 4 && (|x| < 4 ==> q == []) && x != y
    ensures Finish(Mix(Mix(Body(h, x + q), Pack(Rest(x + q))), Length(n))) !=
            Finish(Mix(Mix(Body(h, y + q), Pack(Rest(y + q))), Length(n)))
  {
    hide Mix, Pack, Finish, Length, HashBefore, Unfinish, WordMixed;
    if |x| < 4 {
      assert x + q == x && y + q == y;
      if Finish(Mix(Mix(h, Pack(x)), Length(n))) == Finish(Mix(Mix(h, Pack(y)), Length(n))) {
        FinishedOnce(h, h, x, y, n);
      }
    } else {
      FirstWord(h, x, q);
      FirstWord(h, y, q);
      var a, b := Body(Mix(h, Pack(x)), q), Body(Mix(h, Pack(y)), q);
      if Finish(Mix(Mix(a, Pack(Rest(q))), Length(n))) == Finish(Mix(Mix(b, Pack(Rest(q))), Length(n))) {
        FinishedOnce(a, b, Rest(q), Rest(q), n);
        DigestOnce(Mix(h, Pack(x)), Mix(h, Pack(y)), q);
        UndoMix(h, Pack(x));
        UndoMix(h, Pack(y));
        PackOnce(x, y);
      }
    }
  }

  // Values on short keys

  lemma ShortWords()
    ensures Pack([0x61, 0x62, 0x63, 0x64]) == 0x64636261 && Pack([0x65]) == 0x65 && Pack([]) == 0
    ensures Length(0) == 0 && Length(4) == 4 && Length(5) == 5
  {
  }

  lemma MixedWords()
    ensures Mix(4, 0x64636261) == 0x83b21f23 && Mix(0x9747b289, 0x64636261) == 0x2fe723ca
    ensures Scale(Xor(0x2fe723ca, 0x65)) == 0x97e10bdb
    ensures Mix(0, 0x64636261) == 0xecf5b977 && Mix(0x9747b28c, 0x64636261) == 0x3a7dee0b
  {
  }

  lemma MixedEnds()
    ensures Mix(1, 0) == 0x5bd1e995 && Mix(0x5bd1e995, 0) == 0x286a90b9
    ensures Mix(0xecf5b977, 0) == 0x47f94143 && Mix(0x47f94143, 4) == 0x730185a8
    ensures Mix(0x3a7dee0b, 0x65) == 0x07eb21d7 && Mix(0x07eb21d7, 5) == 0xc2c621e9
  {
  }

  lemma Finished()
    ensures Finish(0x00000001) == 0x5bd15e36 && Finish(0x83b21f23) == 0x26873021 && Finish(0x97e10bdb) == 0x1b897edd
    ensures Finish(0x286a90b9) == 0xee23d1b5 && Finish(0x730185a8) == 0x5c193c47 && Finish(0xc2c621e9) == 0xac0d40a0
  {
  }

  /** The hashes of the empty key, of "abcd" and of "abcde". */
  lemma KnownAnswers()
    ensures Hash2([], 1) == 0x5bd15e36 && Hash2A([], 1) == 0xee23d1b5
    ensures Hash2([0x61, 0x62, 0x63, 0x64], 0) == 0x26873021
    ensures Hash2A([0x61, 0x62, 0x63, 0x64], 0) == 0x5c193c47
    ensures Hash2([0x61, 0x62, 0x63, 0x64, 0x65], 0x9747b28c) == 0x1b897edd
    ensures Hash2A([0x61, 0x62, 0x63, 0x64, 0x65], 0x9747b28c) == 0xac0d40a0
  {
    hide Mix, Pack, Finish, Scale, Xor, Length;
    ShortWords();
    MixedWords();
    MixedEnds();
    Finished();
    var abcd: Key, e: Key := [0x61, 0x62, 0x63, 0x64], [0x65];
    FirstWord(4, abcd, []);
    FirstWord(0, abcd, []);
    FirstWord(0x9747b289, abcd, e);
    FirstWord(0x9747b28c, abcd, e);
    assert abcd + [] == abcd && abcd + e == [0x61, 0x62, 0x63, 0x64, 0x65];
  }
}
