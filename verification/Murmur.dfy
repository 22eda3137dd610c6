/**
 MurmurHash2 in its plain, endian-neutral, aligned and incremental forms. Words are little-endian;
 `Hash2` and `Hash2A` are the hashes as folds over the key, which every form is proved to compute.
 */
module Murmur {
  type Key = seq<bv8>

  function Scale(h: bv32): bv32 { h * 0x5bd1e995 }
  function Xor(a: bv32, b: bv32): bv32 { a ^ b }
  function Or(a: bv32, b: bv32): bv32 { a | b }

  // A word with its high bits folded onto its low ones
  function Fold24(k: bv32): bv32 { k ^ (k >> 24) }
  function Fold13(h: bv32): bv32 { h ^ (h >> 13) }
  function Fold15(h: bv32): bv32 { h ^ (h >> 15) }

  /** `mmix`: scramble a word and mix it into the hash. */
  function Mix(h: bv32, k: bv32): bv32 {
    Xor(Scale(h), Scale(Fold24(Scale(k))))
  }

  /** The last mixes, which all forms share. */
  function Finish(h: bv32): bv32 {
    Fold15(Scale(Fold13(h)))
  }

  /** A length in 32 bits. */
  function Wrapped(n: nat): (r: nat)
    ensures r < 0x1_0000_0000
  {
    n % 0x1_0000_0000
  }

  function Length(n: nat): bv32 { Wrapped(n) as bv32 }

  lemma WrappedSum(a: nat, b: nat)
    ensures Wrapped(Wrapped(a) + b) == Wrapped(a + b)
  {
  }

  function At(s: Key, i: nat): bv8 {
    if i < |s| then s[i] else 0
  }

  function Word(b0: bv8, b1: bv8, b2: bv8, b3: bv8): bv32 {
    (b0 as bv32) | ((b1 as bv32) << 8) | ((b2 as bv32) << 16) | ((b3 as bv32) << 24)
  }

  /** Up to four bytes as a little-endian word. */
  function Pack(s: Key): bv32 {
    Word(At(s, 0), At(s, 1), At(s, 2), At(s, 3))
  }

  /** Four bytes at a time, then the rest, then the last mixes. */
  function Digest(h: bv32, s: Key): bv32
    decreases |s|
  {
    if |s| >= 4 then Digest(Mix(h, Pack(s[..4])), s[4..])
    else Finish(if s == [] then h else Scale(Xor(h, Pack(s))))
  }

  function Hash2(key: Key, seed: bv32): bv32 {
    Digest(seed ^ Length(|key|), key)
  }

  // Words and shifts by whole bytes

  function Shr(t: bv32, bytes: nat): bv32
    requires 1 <= bytes <= 3
  {
    if bytes == 1 then t >> 8 else if bytes == 2 then t >> 16 else t >> 24
  }

  function Shl(t: bv32, bytes: nat): bv32
    requires bytes <= 3
  {
    if bytes == 0 then t else if bytes == 1 then t << 8 else if bytes == 2 then t << 16 else t << 24
  }

  lemma DropOne(x: bv8, y: bv8, z: bv8, u: bv8)
    ensures Shr(Word(x, y, z, u), 1) == Word(y, z, u, 0)
  {
  }

  lemma DropTwo(x: bv8, y: bv8, z: bv8, u: bv8)
    ensures Shr(Word(x, y, z, u), 2) == Word(z, u, 0, 0)
  {
  }

  lemma DropThree(x: bv8, y: bv8, z: bv8, u: bv8)
    ensures Shr(Word(x, y, z, u), 3) == Word(u, 0, 0, 0)
  {
  }

  lemma JoinNone(x: bv8, y: bv8, z: bv8, u: bv8)
    ensures Or(Word(0, 0, 0, 0), Shl(Word(x, y, z, u), 0)) == Word(x, y, z, u)
  {
  }

  lemma JoinOne(x: bv8, y: bv8, z: bv8, u: bv8)
    ensures Or(Word(x, 0, 0, 0), Shl(Word(y, z, u, 0), 1)) == Word(x, y, z, u)
  {
  }

  lemma JoinTwo(x: bv8, y: bv8, z: bv8, u: bv8)
    ensures Or(Word(x, y, 0, 0), Shl(Word(z, u, 0, 0), 2)) == Word(x, y, z, u)
  {
  }

  lemma JoinThree(x: bv8, y: bv8, z: bv8, u: bv8)
    ensures Or(Word(x, y, z, 0), Shl(Word(u, 0, 0, 0), 3)) == Word(x, y, z, u)
  {
  }

  /** Dropping the low bytes of a word. */
  lemma PackDrop(s: Key, a: nat)
    requires |s| == 4 && 1 <= a <= 3
    ensures Shr(Pack(s), a) == Pack(s[a..])
  {
    hide Word, Shr;
    DropOne(s[0], s[1], s[2], s[3]);
    DropTwo(s[0], s[1], s[2], s[3]);
    DropThree(s[0], s[1], s[2], s[3]);
  }

  /** Two runs of bytes that fit one word, joined by a shift. */
  lemma PackJoin(x: Key, y: Key)
    requires |x| <= 3 && |x| + |y| <= 4
    ensures Or(Pack(x), Shl(Pack(y), |x|)) == Pack(x + y)
  {
    hide Word, Or, Shl;
    var s := x + y;
    if |x| == 0 {
      JoinNone(At(s, 0), At(s, 1), At(s, 2), At(s, 3));
    } else if |x| == 1 {
      JoinOne(At(s, 0), At(s, 1), At(s, 2), At(s, 3));
    } else if |x| == 2 {
      JoinTwo(At(s, 0), At(s, 1), At(s, 2), At(s, 3));
    } else {
      JoinThree(At(s, 0), At(s, 1), At(s, 2), At(s, 3));
    }
  }

  // The tail bytes, as the `switch` statements fall through them

  function Byte(b: bv8, k: nat): bv32 requires k <= 3 { Shl(b as bv32, k) }

  /** Mix up to three tail bytes into the hash, the last first. */
  function TailMix(h: bv32, s: Key): bv32
    requires |s| <= 3
  {
    var h3 := if |s| == 3 then Xor(h, Byte(s[2], 2)) else h;
    var h2 := if |s| >= 2 then Xor(h3, Byte(s[1], 1)) else h3;
    if |s| >= 1 then Scale(Xor(h2, Byte(s[0], 0))) else h2
  }

  lemma XorAssoc(h: bv32, a: bv32, b: bv32)
    ensures Xor(Xor(h, a), b) == Xor(h, Xor(a, b))
  {
  }

  lemma XorBytes(x: bv8, y: bv8, z: bv8)
    ensures Xor(Xor(Byte(z, 2), Byte(y, 1)), Byte(x, 0)) == Word(x, y, z, 0)
  {
  }

  lemma XorThree(h: bv32, x: bv8, y: bv8, z: bv8)
    ensures Xor(Xor(Xor(h, Byte(z, 2)), Byte(y, 1)), Byte(x, 0)) == Xor(h, Word(x, y, z, 0))
  {
    hide Xor, Byte, Word;
    XorAssoc(h, Byte(z, 2), Byte(y, 1));
    XorAssoc(h, Xor(Byte(z, 2), Byte(y, 1)), Byte(x, 0));
    XorBytes(x, y, z);
  }

  lemma XorTwo(h: bv32, x: bv8, y: bv8)
    ensures Xor(Xor(h, Byte(y, 1)), Byte(x, 0)) == Xor(h, Word(x, y, 0, 0))
  {
  }

  lemma XorOne(h: bv32, x: bv8)
    ensures Xor(h, Byte(x, 0)) == Xor(h, Word(x, 0, 0, 0))
  {
  }

  lemma TailMixPack(h: bv32, s: Key)
    requires |s| <= 3
    ensures TailMix(h, s) == if s == [] then h else Scale(Xor(h, Pack(s)))
  {
    hide Word, Xor, Byte, Scale;
    if |s| == 1 {
      XorOne(h, s[0]);
    } else if |s| == 2 {
      XorTwo(h, s[0], s[1]);
    } else if |s| == 3 {
      XorThree(h, s[0], s[1], s[2]);
    }
  }

  /** Load up to three bytes into an empty register, the last first. */
  function Load(s: Key): bv32
    requires |s| <= 3
  {
    var d3 := if |s| == 3 then Or(0, Byte(s[2], 2)) else 0;
    var d2 := if |s| >= 2 then Or(d3, Byte(s[1], 1)) else d3;
    if |s| >= 1 then Or(d2, Byte(s[0], 0)) else d2
  }

  lemma LoadThree(x: bv8, y: bv8, z: bv8)
    ensures Or(Or(Or(0, Byte(z, 2)), Byte(y, 1)), Byte(x, 0)) == Word(x, y, z, 0)
    ensures Or(Or(0, Byte(y, 1)), Byte(x, 0)) == Word(x, y, 0, 0)
    ensures Or(0, Byte(x, 0)) == Word(x, 0, 0, 0)
    ensures 0 == Word(0, 0, 0, 0)
  {
  }

  lemma LoadPack(s: Key)
    requires |s| <= 3
    ensures Load(s) == Pack(s)
  {
    hide Word, Or, Byte;
    LoadThree(At(s, 0), At(s, 1), At(s, 2));
  }

  lemma UnshiftOne(x: bv8, y: bv8, z: bv8)
    ensures Shr(Shl(Word(x, y, z, 0), 1), 1) == Word(x, y, z, 0)
  {
  }

  lemma UnshiftTwo(x: bv8, y: bv8)
    ensures Shr(Shl(Word(x, y, 0, 0), 2), 2) == Word(x, y, 0, 0)
  {
  }

  lemma UnshiftThree(x: bv8)
    ensures Shr(Shl(Word(x, 0, 0, 0), 3), 3) == Word(x, 0, 0, 0)
  {
  }

  /** Bytes moved to the top of a register and back. */
  lemma PackUnshift(s: Key, a: nat)
    requires 1 <= a <= 3 && |s| == 4 - a
    ensures Shr(Shl(Pack(s), a), a) == Pack(s)
  {
    hide Word, Shr, Shl;
    UnshiftOne(At(s, 0), At(s, 1), At(s, 2));
    UnshiftTwo(At(s, 0), At(s, 1));
    UnshiftThree(At(s, 0));
  }

  // The whole-key forms

  /** A word read from the key. */
  function Read(key: Key, i: nat): bv32
    requires i + 4 <= |key|
  {
    Pack(key[i..i + 4])
  }

  /** A word read from an address that is a multiple of four; the key starts at address `addr`. */
  function ReadAligned(key: Key, addr: nat, i: nat): bv32
    requires i + 4 <= |key| && (addr + i) % 4 == 0
  {
    Pack(key[i..i + 4])
  }

  lemma DigestWord(h: bv32, key: Key, i: nat)
    requires i + 4 <= |key|
    ensures Digest(Mix(h, Pack(key[i..i + 4])), key[i + 4..]) == Digest(h, key[i..])
  {
    hide Mix, Pack, Finish, Scale, Xor;
    var s := key[i..];
    assert s[..4] == key[i..i + 4] && s[4..] == key[i + 4..];
  }

  lemma DigestTail(h: bv32, s: Key)
    requires |s| <= 3
    ensures Digest(h, s) == Finish(TailMix(h, s))
  {
    hide Pack, Finish, TailMix, Scale, Xor;
    TailMixPack(h, s);
  }

  method MurmurHash2(key: Key, seed: bv32) returns (h: bv32)
    requires |key| < 0x8000_0000
    ensures h == Hash2(key, seed)
  {
    hide Mix, Pack, Finish, TailMix, Digest, Length;
    var i, len := 0, |key|;
    h := seed ^ Length(len);
    assert key[0..] == key;
    while len >= 4
      invariant 0 <= len && 0 <= i && i + len == |key| && Digest(h, key[i..]) == Hash2(key, seed)
    {
      DigestWord(h, key, i);
      var k := Read(key, i);
      h := Mix(h, k);
      i, len := i + 4, len - 4;
    }
    DigestTail(h, key[i..]);
    h := Finish(TailMix(h, key[i..]));
  }

  /** Assembles each word from its bytes, so that the machine's byte order does not matter. */
  method MurmurHashNeutral2(key: Key, seed: bv32) returns (h: bv32)
    requires |key| < 0x8000_0000
    ensures h == Hash2(key, seed)
  {
    hide Mix, Finish, TailMix, Digest, Length, Word;
    var i, len := 0, |key|;
    h := seed ^ Length(len);
    assert key[0..] == key;
    while len >= 4
      invariant 0 <= len && 0 <= i && i + len == |key| && Digest(h, key[i..]) == Hash2(key, seed)
    {
      DigestWord(h, key, i);
      var k := Word(key[i], key[i + 1], key[i + 2], key[i + 3]);
      assert k == Pack(key[i..i + 4]);
      h := Mix(h, k);
      i, len := i + 4, len - 4;
    }
    DigestTail(h, key[i..]);
    h := Finish(TailMix(h, key[i..]));
  }

  // The aligned form keeps the bytes it has read but not yet mixed at the top of a register

  lemma ShiftOne(x: bv8, y: bv8, z: bv8, u: bv8)
    ensures Shl(Word(x, y, z, u), 1) == Word(0, x, y, z)
  {
  }

  lemma ShiftTwo(x: bv8, y: bv8, z: bv8, u: bv8)
    ensures Shl(Word(x, y, z, u), 2) == Word(0, 0, x, y)
  {
  }

  lemma ShiftThree(x: bv8, y: bv8, z: bv8, u: bv8)
    ensures Shl(Word(x, y, z, u), 3) == Word(0, 0, 0, x)
  {
  }

  /** A left shift drops the high bytes of a word. */
  lemma PackCut(s: Key, a: nat)
    requires |s| == 4 && 1 <= a <= 3
    ensures Shl(Pack(s), a) == Shl(Pack(s[..4 - a]), a)
  {
    hide Word, Shl;
    var c := s[..4 - a];
    if a == 1 {
      ShiftOne(s[0], s[1], s[2], s[3]);
      ShiftOne(c[0], c[1], c[2], 0);
    } else if a == 2 {
      ShiftTwo(s[0], s[1], s[2], s[3]);
      ShiftTwo(c[0], c[1], 0, 0);
    } else {
      ShiftThree(s[0], s[1], s[2], s[3]);
      ShiftThree(c[0], 0, 0, 0);
    }
  }

  /** The word that straddles the register `t` and the next aligned word. */
  lemma Straddle(key: Key, i: nat, a: nat, t: bv32)
    requires 1 <= a <= 3 && 4 - a <= i && i + 4 <= |key| && Shr(t, a) == Pack(key[i - (4 - a)..i])
    ensures Or(Shr(t, a), Shl(Pack(key[i..i + 4]), 4 - a)) == Pack(key[i - (4 - a)..i + a])
    ensures Shr(Pack(key[i..i + 4]), a) == Pack(key[i + a..i + 4])
  {
    hide Pack, Shr, Shl, Or;
    var x, d := key[i - (4 - a)..i], key[i..i + 4];
    PackCut(d, 4 - a);
    PackJoin(x, d[..a]);
    PackDrop(d, a);
    assert x + d[..a] == key[i - (4 - a)..i + a] && d[a..] == key[i + a..i + 4];
  }

  /** The word, or the tail, that straddles the register and the last bytes. */
  lemma StraddleEnd(key: Key, i: nat, a: nat, t: bv32, n: nat)
    requires 1 <= a <= 3 && 4 - a <= i && n <= a && i + n <= |key| && Shr(t, a) == Pack(key[i - (4 - a)..i])
    ensures Or(Shr(t, a), Shl(Load(key[i..i + n]), 4 - a)) == Pack(key[i - (4 - a)..i + n])
  {
    hide Pack, Shr, Shl, Or, Load;
    var x, d := key[i - (4 - a)..i], key[i..i + n];
    LoadPack(d);
    PackJoin(x, d);
    assert x + d == key[i - (4 - a)..i + n];
  }

  lemma Preload(key: Key, a: nat)
    requires 1 <= a <= 3 && |key| >= 4
    ensures Shr(Shl(Load(key[..4 - a]), a), a) == Pack(key[..4 - a])
  {
    hide Pack, Shr, Shl, Load;
    LoadPack(key[..4 - a]);
    PackUnshift(key[..4 - a], a);
  }

  lemma DigestLast(h: bv32, s: Key)
    requires 1 <= |s| <= 3
    ensures Digest(h, s) == Finish(Scale(Xor(h, Pack(s))))
  {
    hide Pack, Finish, Scale, Xor;
  }

  /** The main loop: `t` holds, at its top, the `4 - align` bytes before position `i`. */
  method MixStraddling(key: Key, addr: nat, align: nat, h0: bv32, t0: bv32) returns (h: bv32, t: bv32, i: nat)
    requires 1 <= align <= 3 && |key| >= 4 && align == addr % 4 && Shr(t0, align) == Pack(key[..4 - align])
    ensures 4 - align <= i <= |key| < i + 4 && Shr(t, align) == Pack(key[i - (4 - align)..i])
    ensures Digest(h, key[i - (4 - align)..]) == Digest(h0, key)
  {
    hide Mix, Pack, Digest, Or, Shr, Shl;
    AlignedStart(addr, align);
    h, t, i := h0, t0, 4 - align;
    var len := |key| - i;
    assert key[0..] == key && key[0..i] == key[..4 - align];
    while len >= 4
      invariant 4 - align <= i && i + len == |key| && 0 <= len && (addr + i) % 4 == 0
      invariant Shr(t, align) == Pack(key[i - (4 - align)..i])
      invariant Digest(h, key[i - (4 - align)..]) == Digest(h0, key)
    {
      Straddle(key, i, align, t);
      DigestWord(h, key, i - (4 - align));
      var d := ReadAligned(key, addr, i);
      t := Or(Shr(t, align), Shl(d, 4 - align));
      h := Mix(h, t);
      t := d;
      AlignedStep(addr, i);
      i, len := i + 4, len - 4;
    }
  }

  lemma AlignedStart(addr: nat, align: nat)
    requires align == addr % 4
    ensures (addr + (4 - align)) % 4 == 0
  {
  }

  lemma AlignedStep(addr: nat, i: nat)
    requires (addr + i) % 4 == 0
    ensures (addr + (i + 4)) % 4 == 0
  {
  }

  /** The bytes left over: those in the register and fewer than four more. */
  method MixLeftover(key: Key, align: nat, h0: bv32, t: bv32, i: nat) returns (h: bv32)
    requires 1 <= align <= 3 && 4 - align <= i <= |key| < i + 4 && Shr(t, align) == Pack(key[i - (4 - align)..i])
    ensures h == Digest(h0, key[i - (4 - align)..])
  {
    hide Mix, Pack, Digest, Or, Shr, Shl, Load, TailMix, Finish, Scale, Xor;
    var j, len := i - (4 - align), |key| - i;
    if len >= align {
      StraddleEnd(key, i, align, t, align);
      DigestWord(h0, key, j);
      var d := Load(key[i..i + align]);
      h := Mix(h0, Or(Shr(t, align), Shl(d, 4 - align)));
      DigestTail(h, key[i + align..]);
      h := TailMix(h, key[i + align..]);
    } else {
      StraddleEnd(key, i, align, t, len);
      assert key[j..] == key[j..i + len];
      DigestLast(h0, key[j..]);
      var d := Load(key[i..i + len]);
      h := Scale(Xor(h0, Or(Shr(t, align), Shl(d, 4 - align))));
    }
    h := Finish(h);
  }

  /** A key that starts at an aligned address, or is too short to hold a word. */
  method MixAligned(key: Key, addr: nat, h0: bv32) returns (h: bv32)
    requires |key| < 4 || addr % 4 == 0
    ensures h == Digest(h0, key)
  {
    hide Mix, Pack, Digest, TailMix, Finish;
    h := h0;
    var i, len := 0, |key|;
    assert key[0..] == key;
    while len >= 4
      invariant 0 <= len && 0 <= i && i + len == |key| && Digest(h, key[i..]) == Digest(h0, key)
      invariant len >= 4 ==> (addr + i) % 4 == 0
    {
      DigestWord(h, key, i);
      AlignedStep(addr, i);
      h := Mix(h, ReadAligned(key, addr, i));
      i, len := i + 4, len - 4;
    }
    DigestTail(h, key[i..]);
    h := Finish(TailMix(h, key[i..]));
  }

  /** Reads words only at aligned addresses, wherever the key starts. */
  method MurmurHashAligned2(key: Key, addr: nat, seed: bv32) returns (h: bv32)
    requires |key| < 0x8000_0000
    ensures h == Hash2(key, seed)
  {
    hide Mix, Pack, Digest, Or, Shr, Shl, Load, TailMix, Finish, Length;
    h := seed ^ Length(|key|);
    var align := addr % 4;
    if align != 0 && |key| >= 4 {
      Preload(key, align);
      var t := Shl(Load(key[..4 - align]), align);
      var i;
      h, t, i := MixStraddling(key, addr, align, h, t);
      h := MixLeftover(key, align, h, t, i);
    } else {
      h := MixAligned(key, addr, h);
    }
  }

  // MurmurHash2A and its incremental form

  /** The hash after the whole words of `s`, and the bytes left over. */
  function Body(h: bv32, s: Key): bv32
    decreases |s|
  {
    if |s| < 4 then h else Body(Mix(h, Pack(s[..4])), s[4..])
  }

  function Rest(s: Key): (r: Key)
    ensures |r| < 4
  {
    if |s| < 4 then s else Rest(s[4..])
  }

  /** The rest and the length are mixed in as words of their own. */
  function Hash2A(key: Key, seed: bv32): bv32 {
    Finish(Mix(Mix(Body(seed, key), Pack(Rest(key))), Length(|key|)))
  }

  lemma BodyWord(h: bv32, key: Key, i: nat)
    requires i + 4 <= |key|
    ensures Body(Mix(h, Pack(key[i..i + 4])), key[i + 4..]) == Body(h, key[i..])
    ensures Rest(key[i + 4..]) == Rest(key[i..])
  {
    hide Mix, Pack;
    var s := key[i..];
    assert s[..4] == key[i..i + 4] && s[4..] == key[i + 4..];
  }

  method MurmurHash2A(key: Key, seed: bv32) returns (h: bv32)
    requires |key| < 0x8000_0000
    ensures h == Hash2A(key, seed)
  {
    hide Mix, Pack, Finish, Length, Load;
    var i, len := 0, |key|;
    h := seed;
    assert key[0..] == key;
    while len >= 4
      invariant 0 <= len && 0 <= i && i + len == |key|
      invariant Body(h, key[i..]) == Body(seed, key) && Rest(key[i..]) == Rest(key)
    {
      BodyWord(h, key, i);
      h := Mix(h, Read(key, i));
      i, len := i + 4, len - 4;
    }
    LoadPack(key[i..]);
    var t := Load(key[i..]);
    h := Mix(h, t);
    h := Mix(h, Length(|key|));
    h := Finish(h);
  }

  /** Adding one byte completes a word or lengthens the rest. */
  lemma {:induction false} AddByte(h: bv32, s: Key, b: bv8)
    ensures Body(h, s + [b]) == if |Rest(s)| == 3 then Mix(Body(h, s), Pack(Rest(s) + [b])) else Body(h, s)
    ensures Rest(s + [b]) == if |Rest(s)| == 3 then [] else Rest(s) + [b]
    decreases |s|
  {
    hide Mix, Pack;
    var s' := s + [b];
    if |s| >= 4 {
      AddByte(Mix(h, Pack(s[..4])), s[4..], b);
      assert s'[..4] == s[..4] && s'[4..] == s[4..] + [b];
    } else if |s| == 3 {
      assert s'[..4] == s' && s'[4..] == [];
    }
  }

  /** Adding a whole word when nothing is left over. */
  lemma {:induction false} AddWord(h: bv32, s: Key, w: Key)
    requires Rest(s) == [] && |w| == 4
    ensures Body(h, s + w) == Mix(Body(h, s), Pack(w)) && Rest(s + w) == []
    decreases |s|
  {
    hide Mix, Pack;
    var s' := s + w;
    if |s| >= 4 {
      AddWord(Mix(h, Pack(s[..4])), s[4..], w);
      assert s'[..4] == s[..4] && s'[4..] == s[4..] + w;
    } else {
      assert s' == w && w[..4] == w && w[4..] == [];
    }
  }

  /** One more byte in the tail register. */
  lemma TailByte(r: Key, b: bv8)
    requires |r| <= 3
    ensures Or(Pack(r), Byte(b, |r|)) == Pack(r + [b])
  {
    hide Pack, Or, Shl, Load;
    LoadPack([b]);
    LoneByte(b);
    PackJoin(r, [b]);
  }

  lemma LoneByte(b: bv8)
    ensures Pack([b]) == b as bv32
  {
    LoadThree(b, 0, 0);
  }

  function Concat(chunks: seq<Key>): Key {
    if chunks == [] then [] else Concat(chunks[..|chunks| - 1]) + chunks[|chunks| - 1]
  }

  /** The incremental hasher. */
  class Hasher {
    var hash: bv32
    var tail: bv32
    var count: nat
    var size: nat
    ghost var seed: bv32
    /** Everything added since `Begin`. */
    ghost var data: Key

    /** The registers are those of `s` hashed so far. */
    ghost predicate Holds(s: Key)
      reads this
    {
      hash == Body(seed, s) && tail == Pack(Rest(s)) && count == |Rest(s)|
    }

    ghost predicate Valid()
      reads this
    {
      Holds(data) && size == Wrapped(|data|)
    }

    constructor ()
      ensures Valid() && data == [] && seed == 0
    {
      hide Pack, Body, Rest;
      hash, tail, count, size, seed, data := 0, 0, 0, 0, 0, [];
      NothingHashed(0);
    }

    method Begin(seed: bv32)
      modifies this
      ensures Valid() && this.seed == seed && data == []
    {
      hide Pack, Body, Rest;
      hash, tail, count, size := seed, 0, 0, 0;
      this.seed, data := seed, [];
      NothingHashed(seed);
    }

    /** Take bytes one at a time while a word is incomplete or too few are left. */
    method MixTail(chunk: Key, i: nat) returns (i': nat)
      requires i <= |chunk| && Holds(data + chunk[..i])
      modifies this`hash, this`tail, this`count
      ensures i <= i' <= |chunk| && Holds(data + chunk[..i'])
      ensures i' == |chunk| || (|chunk| - i' >= 4 && count == 0)
    {
      hide Mix, Pack, Body, Rest, Or, Byte;
      i' := i;
      var len := |chunk| - i;
      while len != 0 && (len < 4 || count != 0)
        invariant i <= i' <= |chunk| && len == |chunk| - i' && Holds(data + chunk[..i'])
      {
        ghost var s := data + chunk[..i'];
        assert data + chunk[..i' + 1] == s + [chunk[i']];
        AddByte(seed, s, chunk[i']);
        TailByte(Rest(s), chunk[i']);
        tail := Or(tail, Byte(chunk[i'], count));
        count, i', len := count + 1, i' + 1, len - 1;
        if count == 4 {
          hash := Mix(hash, tail);
          tail, count := 0, 0;
          NothingHashed(seed);
        }
      }
    }

    method MixWords(chunk: Key, i: nat) returns (i': nat)
      requires i <= |chunk| && Holds(data + chunk[..i]) && (i == |chunk| || count == 0)
      modifies this`hash
      ensures i <= i' <= |chunk| < i' + 4 && Holds(data + chunk[..i'])
    {
      hide Mix, Pack, Body, Rest;
      i' := i;
      var len := |chunk| - i;
      while len >= 4
        invariant i <= i' <= |chunk| && len == |chunk| - i' && Holds(data + chunk[..i']) && (len == 0 || count == 0)
      {
        ghost var s := data + chunk[..i'];
        assert data + chunk[..i' + 4] == s + chunk[i'..i' + 4];
        AddWord(seed, s, chunk[i'..i' + 4]);
        hash := Mix(hash, Read(chunk, i'));
        i', len := i' + 4, len - 4;
      }
    }

    method Add(chunk: Key)
      requires Valid() && |chunk| < 0x8000_0000
      modifies this
      ensures Valid() && data == old(data) + chunk && seed == old(seed)
    {
      hide Mix, Pack, Body, Rest, Wrapped;
      WrappedSum(|data|, |chunk|);
      size := Wrapped(size + |chunk|);
      assert data + chunk[..0] == data;
      var i := MixTail(chunk, 0);
      i := MixWords(chunk, i);
      i := MixTail(chunk, i);
      assert chunk[..i] == chunk;
      data := data + chunk;
    }

    method End() returns (h: bv32)
      requires Valid()
      modifies this`hash
      ensures h == hash == Hash2A(data, seed)
    {
      hide Mix, Pack, Body, Rest, Finish;
      hash := Mix(hash, tail);
      hash := Mix(hash, size as bv32);
      hash := Finish(hash);
      h := hash;
    }
  }

  lemma NothingHashed(h: bv32)
    ensures Pack([]) == 0 && Rest([]) == [] && Body(h, []) == h
  {
    hide Pack;
    LoadPack([]);
  }

  /** However the key is cut, hashing it piece by piece gives the hash of the whole. */
  method HashChunks(chunks: seq<Key>, seed: bv32) returns (h: bv32)
    requires forall i :: 0 <= i < |chunks| ==> |chunks[i]| < 0x8000_0000
    ensures h == Hash2A(Concat(chunks), seed)
  {
    hide Hash2A;
    var hasher := new Hasher();
    hasher.Begin(seed);
    for i := 0 to |chunks|
      invariant hasher.Valid() && hasher.seed == seed && hasher.data == Concat(chunks[..i])
    {
      assert chunks[..i + 1][..i] == chunks[..i];
      hasher.Add(chunks[i]);
    }
    assert chunks[..|chunks|] == chunks;
    h := hasher.End();
  }
}
