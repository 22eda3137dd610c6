/** Byte strings, little-endian numbers and in-place splices of a memory image. */
module Bytes {

  type Byte = x: nat | x < 256

  ghost function Pow256(n: nat): (p: nat)
    ensures p >= 1
  {
    if n == 0 then 1 else 256 * Pow256(n - 1)
  }

  /** The number a little-endian machine reads from the bytes `s`. */
  function Number(s: seq<Byte>): nat {
    if s == [] then 0 else s[0] + 256 * Number(s[1..])
  }

  /** The `n` bytes a little-endian machine stores for `v`; higher digits are cut off. */
  function Digits(v: nat, n: nat): (s: seq<Byte>)
    ensures |s| == n
  {
    if n == 0 then [] else [v % 256] + Digits(v / 256, n - 1)
  }

  lemma {:induction false} NumberBound(s: seq<Byte>)
    ensures Number(s) < Pow256(|s|)
  {
    if s != [] {
      NumberBound(s[1..]);
    }
  }

  lemma {:induction false} NumberOfDigits(v: nat, n: nat)
    requires v < Pow256(n)
    ensures Number(Digits(v, n)) == v
  {
    if n > 0 {
      NumberOfDigits(v / 256, n - 1);
      assert Digits(v, n)[1..] == Digits(v / 256, n - 1);
    }
  }

  /** A word determines its bytes. */
  lemma {:induction false} DigitsOfNumber(s: seq<Byte>)
    ensures Digits(Number(s), |s|) == s
  {
    if s != [] {
      DigitsOfNumber(s[1..]);
      assert Number(s) % 256 == s[0] && Number(s) / 256 == Number(s[1..]);
      assert s == [s[0]] + s[1..];
    }
  }

  lemma {:induction false} NumberOfZeros(s: seq<Byte>)
    requires forall i :: 0 <= i < |s| ==> s[i] == 0
    ensures Number(s) == 0
  {
    if s != [] {
      NumberOfZeros(s[1..]);
    }
  }

  lemma Widths()
    ensures Pow256(2) == 0x1_0000
    ensures Pow256(4) == 0x1_0000_0000
    ensures Pow256(8) == 0x1_0000_0000_0000_0000
  {
    assert Pow256(2) == 256 * Pow256(1);
    assert Pow256(4) == 256 * (256 * Pow256(2));
    assert Pow256(6) == 256 * (256 * Pow256(4));
    assert Pow256(8) == 256 * (256 * Pow256(6));
  }

  /** `m` with the bytes at `o` replaced by `s`. */
  function Splice(m: seq<Byte>, o: nat, s: seq<Byte>): (r: seq<Byte>)
    requires o + |s| <= |m|
    ensures |r| == |m|
    ensures forall i :: 0 <= i < |m| ==> r[i] == if o <= i < o + |s| then s[i - o] else m[i]
  {
    m[..o] + s + m[o + |s|..]
  }

  lemma SpliceSame(m: seq<Byte>, o: nat, s: seq<Byte>)
    requires o + |s| <= |m|
    ensures Splice(m, o, s)[o..o + |s|] == s
  {
  }

  lemma SpliceOther(m: seq<Byte>, o: nat, s: seq<Byte>, a: nat, b: nat)
    requires o + |s| <= |m|
    requires a <= b <= |m|
    requires b <= o || o + |s| <= a
    ensures Splice(m, o, s)[a..b] == m[a..b]
  {
  }

  /** The 32-bit word at byte offset `o`. */
  function Word(m: seq<Byte>, o: nat): (v: nat)
    requires o + 4 <= |m|
    ensures v < 0x1_0000_0000
  {
    NumberBound(m[o..o + 4]);
    Widths();
    Number(m[o..o + 4])
  }

  lemma WordSame(m: seq<Byte>, o: nat, v: nat)
    requires o + 4 <= |m| && v < 0x1_0000_0000
    ensures Word(Splice(m, o, Digits(v, 4)), o) == v
  {
    Widths();
    SpliceSame(m, o, Digits(v, 4));
    NumberOfDigits(v, 4);
  }

  lemma WordOther(m: seq<Byte>, o: nat, s: seq<Byte>, a: nat)
    requires o + |s| <= |m| && a + 4 <= |m|
    requires a + 4 <= o || o + |s| <= a
    ensures Word(Splice(m, o, s), a) == Word(m, a)
  {
    SpliceOther(m, o, s, a, a + 4);
  }

  /** Equal words hold equal bytes. */
  lemma SameWordSameBytes(m: seq<Byte>, m': seq<Byte>, o: nat)
    requires o + 4 <= |m| == |m'|
    requires Word(m, o) == Word(m', o)
    ensures m[o..o + 4] == m'[o..o + 4]
  {
    DigitsOfNumber(m[o..o + 4]);
    DigitsOfNumber(m'[o..o + 4]);
  }
}
