/**
 The byte layout of a tablet image: the allocator's arena (free-list table, blocks, sentinel)
 followed by the hash table, and the arena read as five arrays of 32-bit words.

 Blocks start at `FIRST` and are whole numbers of 16-byte units, so unit `u` starts at byte
 `Ptr(u)` and has four words: the header, the two link words and the last word.
 */
module Layout {
  import opened Bytes

  const K_SIZE: nat := 64 * 1024 * 1024
  const MAX_BLOCK: nat := 1024 + 128
  const NUM_LISTS: nat := MAX_BLOCK / 16 + 1
  const MAX_UNITS: nat := MAX_BLOCK / 16
  const FIRST: nat := NUM_LISTS * 4
  /** Units between the free-list table and the sentinel word. */
  const UNITS: nat := (K_SIZE - FIRST - 4) / 16
  /** The end of the sentinel word. */
  const WORDS_END: nat := FIRST + 16 * UNITS + 4
  const HASH_TABLE_SIZE: nat := 1000003
  const IMAGE_SIZE: nat := K_SIZE + 4 * HASH_TABLE_SIZE
  const FREE_MASK: nat := 0x8000_0000

  /** The byte offset of unit `u`. */
  function Ptr(u: nat): nat { FIRST + 16 * u }

  /** The payload of the block at unit `u`, which clients see as its address. */
  function NodePtr(u: nat): nat { Ptr(u) + 4 }

  // Tag words: the top bit of a header says that the block before it is free.
  function SizeTag(x: nat): nat { x % FREE_MASK }
  predicate FreeTag(x: nat) { x >= FREE_MASK }
  function SetTag(x: nat): nat { if FreeTag(x) then x else x + FREE_MASK }
  function ResetTag(x: nat): nat { x % FREE_MASK }
  function PrevTag(x: nat): nat { if FreeTag(x) then FREE_MASK else 0 }

  /** Byte offset of the free list for blocks of `size` bytes. */
  function FreeListOf(size: nat): nat
    requires size >= 16
  {
    if size <= MAX_BLOCK then (size / 16 - 1) * 4 else (NUM_LISTS - 1) * 4
  }

  /** The same class, for a size in units, as an index into the free-list table. */
  function ClassOf(units: nat): (c: nat)
    ensures c < NUM_LISTS
  {
    if 1 <= units <= MAX_UNITS then units - 1 else NUM_LISTS - 1
  }

  /** The class is the place in the table; sizes up to `MAX_BLOCK` have a class each, and larger ones share the last. */
  lemma ListOffset(units: nat)
    requires units >= 1
    ensures FreeListOf(16 * units) == 4 * ClassOf(units) < FIRST
    ensures 16 * units <= MAX_BLOCK ==> FreeListOf(16 * units) == 4 * units - 4
    ensures 16 * units > MAX_BLOCK <==> FreeListOf(16 * units) + 4 == FIRST
  {
  }

  /** Blocks share a list exactly when they are equally large or both too large for a list of their own. */
  lemma ListOrder(x: nat, y: nat)
    requires x >= 1 && y >= 1
    ensures FreeListOf(16 * x) == FreeListOf(16 * y) <==> x == y || (16 * x > MAX_BLOCK && 16 * y > MAX_BLOCK)
    ensures FreeListOf(16 * x) < FreeListOf(16 * y) <==> x < y && 16 * x <= MAX_BLOCK
  {
  }

  /** The blocks and the sentinel fill the arena up to less than one unit, and the table of bucket heads follows it. */
  lemma ArenaFilled()
    ensures K_SIZE - 16 < WORDS_END <= K_SIZE == 0x400_0000 && WORDS_END == Ptr(UNITS) + 4
    ensures MAX_BLOCK == 1152 && NUM_LISTS == 73 && FIRST == 292 && IMAGE_SIZE == K_SIZE + 4_000_012
  {
    assert UNITS == 67_108_568 / 16;
  }

  function Roundup(size: nat): (r: nat)
    ensures r % 16 == 0 && size <= r < size + 16
  {
    (size + 16 - 1) / 16 * 16
  }

  /** The arena's words by role: free-list heads and, per unit, header, links and last word. */
  datatype View = View(slots: seq<nat>, hdr: seq<nat>, prv: seq<nat>, nxt: seq<nat>, ftr: seq<nat>)

  ghost predicate Shaped(w: View) {
    && |w.slots| == NUM_LISTS
    && |w.hdr| == UNITS + 1
    && |w.prv| == |w.nxt| == |w.ftr| == UNITS
    && (forall u :: 0 <= u <= UNITS ==> w.hdr[u] < 0x1_0000_0000)
  }

  /** Where word number `k` of unit `u` lies. */
  function Offset(u: nat, k: nat): nat { FIRST + 16 * u + 4 * k }

  /** Word number `k` of unit `u`; the sentinel is word 0 of unit `UNITS`. */
  function UnitWord(m: seq<Byte>, u: nat, k: nat): (v: nat)
    requires |m| >= K_SIZE && k < 4 && u <= UNITS && (u == UNITS ==> k == 0)
    ensures v < 0x1_0000_0000
  {
    Word(m, Offset(u, k))
  }

  function SlotWord(m: seq<Byte>, i: nat): (v: nat)
    requires |m| >= K_SIZE && i < NUM_LISTS
  {
    Word(m, 4 * i)
  }

  /** `w` lists the words of the image `m`. */
  ghost predicate Mirrors(m: seq<Byte>, w: View) {
    && |m| >= K_SIZE && Shaped(w)
    && (forall i {:trigger SlotWord(m, i)} :: 0 <= i < NUM_LISTS ==> w.slots[i] == SlotWord(m, i))
    && (forall u {:trigger UnitWord(m, u, 0)} :: 0 <= u <= UNITS ==> w.hdr[u] == UnitWord(m, u, 0))
    && (forall u {:trigger UnitWord(m, u, 1)} :: 0 <= u < UNITS ==> w.prv[u] == UnitWord(m, u, 1))
    && (forall u {:trigger UnitWord(m, u, 2)} :: 0 <= u < UNITS ==> w.nxt[u] == UnitWord(m, u, 2))
    && (forall u {:trigger UnitWord(m, u, 3)} :: 0 <= u < UNITS ==> w.ftr[u] == UnitWord(m, u, 3))
  }

  ghost function ViewOf(m: seq<Byte>): (w: View)
    requires |m| >= K_SIZE
    ensures Mirrors(m, w)
  {
    View(seq(NUM_LISTS, i requires 0 <= i < NUM_LISTS => SlotWord(m, i)),
         seq(UNITS + 1, u requires 0 <= u <= UNITS => UnitWord(m, u, 0)),
         seq(UNITS, u requires 0 <= u < UNITS => UnitWord(m, u, 1)),
         seq(UNITS, u requires 0 <= u < UNITS => UnitWord(m, u, 2)),
         seq(UNITS, u requires 0 <= u < UNITS => UnitWord(m, u, 3)))
  }

  lemma WordsApart(u: nat, k: nat, x: nat, j: nat)
    requires k < 4 && j < 4 && (u != x || k != j)
    ensures Offset(u, k) + 4 <= Offset(x, j) || Offset(x, j) + 4 <= Offset(u, k)
  {
    if u < x {
      assert 16 * u + 16 <= 16 * x;
    } else if x < u {
      assert 16 * x + 16 <= 16 * u;
    }
  }

  lemma PutUnitWordAt(m: seq<Byte>, u: nat, k: nat, v: nat, x: nat, j: nat)
    requires |m| >= K_SIZE && k < 4 && u <= UNITS && (u == UNITS ==> k == 0) && v < 0x1_0000_0000
    requires j < 4 && x <= UNITS && (x == UNITS ==> j == 0)
    ensures UnitWord(Splice(m, Offset(u, k), Digits(v, 4)), x, j) == if x == u && j == k then v else UnitWord(m, x, j)
  {
    if x == u && j == k {
      WordSame(m, Offset(u, k), v);
    } else {
      WordsApart(u, k, x, j);
      WordOther(m, Offset(u, k), Digits(v, 4), Offset(x, j));
    }
  }

  /** A store of one word of a unit changes exactly that word of the arena. */
  lemma PutUnitWord(m: seq<Byte>, u: nat, k: nat, v: nat, m': seq<Byte>)
    requires |m| >= K_SIZE && k < 4 && u <= UNITS && (u == UNITS ==> k == 0) && v < 0x1_0000_0000
    requires m' == Splice(m, Offset(u, k), Digits(v, 4))
    ensures forall i {:trigger SlotWord(m', i)} | 0 <= i < NUM_LISTS :: SlotWord(m', i) == SlotWord(m, i)
    ensures forall x, j {:trigger UnitWord(m', x, j)} | 0 <= x <= UNITS && 0 <= j < 4 && (x == UNITS ==> j == 0) ::
      UnitWord(m', x, j) == if x == u && j == k then v else UnitWord(m, x, j)
  {
    forall i | 0 <= i < NUM_LISTS ensures SlotWord(m', i) == SlotWord(m, i) {
      WordOther(m, Offset(u, k), Digits(v, 4), 4 * i);
    }
    forall x, j | 0 <= x <= UNITS && 0 <= j < 4 && (x == UNITS ==> j == 0)
      ensures UnitWord(m', x, j) == if x == u && j == k then v else UnitWord(m, x, j)
    {
      PutUnitWordAt(m, u, k, v, x, j);
    }
  }

  lemma PutSlot(m: seq<Byte>, w: View, i: nat, v: nat)
    requires Mirrors(m, w) && i < NUM_LISTS && v < 0x1_0000_0000
    ensures Mirrors(Splice(m, 4 * i, Digits(v, 4)), w.(slots := w.slots[i := v]))
  {
    var m' := Splice(m, 4 * i, Digits(v, 4));
    forall x, j | 0 <= x <= UNITS && 0 <= j < 4 && (x == UNITS ==> j == 0)
      ensures UnitWord(m', x, j) == UnitWord(m, x, j)
    {
      WordOther(m, 4 * i, Digits(v, 4), Offset(x, j));
    }
    forall x | 0 <= x < NUM_LISTS ensures SlotWord(m', x) == if x == i then v else SlotWord(m, x) {
      if x == i {
        WordSame(m, 4 * i, v);
      } else {
        WordOther(m, 4 * i, Digits(v, 4), 4 * x);
      }
    }
  }

  lemma PutHeader(m: seq<Byte>, w: View, u: nat, v: nat)
    requires Mirrors(m, w) && u <= UNITS && v < 0x1_0000_0000
    ensures Mirrors(Splice(m, Ptr(u), Digits(v, 4)), w.(hdr := w.hdr[u := v]))
  {
    PutUnitWord(m, u, 0, v, Splice(m, Ptr(u), Digits(v, 4)));
  }

  lemma PutPrev(m: seq<Byte>, w: View, u: nat, v: nat)
    requires Mirrors(m, w) && u < UNITS && v < 0x1_0000_0000
    ensures Mirrors(Splice(m, Ptr(u) + 4, Digits(v, 4)), w.(prv := w.prv[u := v]))
  {
    PutUnitWord(m, u, 1, v, Splice(m, Ptr(u) + 4, Digits(v, 4)));
  }

  lemma PutNext(m: seq<Byte>, w: View, u: nat, v: nat)
    requires Mirrors(m, w) && u < UNITS && v < 0x1_0000_0000
    ensures Mirrors(Splice(m, Ptr(u) + 8, Digits(v, 4)), w.(nxt := w.nxt[u := v]))
  {
    PutUnitWord(m, u, 2, v, Splice(m, Ptr(u) + 8, Digits(v, 4)));
  }

  lemma PutFooter(m: seq<Byte>, w: View, u: nat, v: nat)
    requires Mirrors(m, w) && u < UNITS && v < 0x1_0000_0000
    ensures Mirrors(Splice(m, Ptr(u) + 12, Digits(v, 4)), w.(ftr := w.ftr[u := v]))
  {
    PutUnitWord(m, u, 3, v, Splice(m, Ptr(u) + 12, Digits(v, 4)));
  }
}
