/**
 The allocator's blocks: how they tile the arena, what the boundary tags must say about them,
 and what carving and fusing blocks does to both.
 */
module Blocks {
  import opened Layout

  /** A block of `size` units. */
  datatype Block = Block(size: nat, free: bool)
  /** Blocks by starting unit. */
  type Blocks = map<nat, Block>

  /** The first unit after the block at `u`. */
  ghost function End(b: Blocks, u: nat): nat
    requires u in b
  {
    u + b[u].size
  }

  /** A block starts at `e`, or `e` is the sentinel. */
  ghost predicate IsEdge(b: Blocks, e: nat) {
    e == UNITS || (e in b && e < UNITS)
  }

  ghost predicate EndsAtEdge(b: Blocks, u: nat)
    requires u in b
  {
    u < End(b, u) && IsEdge(b, End(b, u))
  }

  ghost predicate Apart(b: Blocks, u: nat, v: nat)
    requires u in b && v in b
  {
    End(b, u) <= v || End(b, v) <= u
  }

  /** The blocks cover the arena from the first unit to the sentinel, without overlap. */
  ghost predicate Tiling(b: Blocks) {
    && 0 in b
    && (forall u {:trigger EndsAtEdge(b, u)} :: u in b ==> EndsAtEdge(b, u))
    && (forall u, v {:trigger Apart(b, u, v)} :: u in b && v in b && u != v ==> Apart(b, u, v))
  }

  /** Coalescing is bounded: only the block at the arena start can be large. */
  ghost predicate Bounded(b: Blocks) {
    && (forall u :: u in b && !b[u].free ==> b[u].size <= MAX_UNITS)
    && (forall u :: u in b && u != 0 ==> b[u].size <= 2 * MAX_UNITS)
  }

  ghost function FreeBlocks(b: Blocks): set<nat> {
    set u | u in b && b[u].free
  }

  /** The tags of one block; its footer counts unless it is the block at `x`. */
  ghost predicate TagsAt(w: View, b: Blocks, u: nat, x: nat)
    requires Shaped(w) && u in b
  {
    && u < End(b, u) <= UNITS
    && SizeTag(w.hdr[u]) == 16 * b[u].size
    && (FreeTag(w.hdr[End(b, u)]) <==> b[u].free)
    && (b[u].free && u != x ==> w.ftr[End(b, u) - 1] == 16 * b[u].size)
  }

  /** All the boundary tags, except that the footer of the block at `x` may be anything. */
  ghost predicate TagsBut(w: View, b: Blocks, x: nat) {
    && Shaped(w)
    && !FreeTag(w.hdr[0])
    && SizeTag(w.hdr[UNITS]) == 0
    && (forall u {:trigger TagsAt(w, b, u, x)} :: u in b ==> TagsAt(w, b, u, x))
  }

  /**
   The boundary tags: each header holds its block's size and whether the block before it is
   free, the sentinel has size 0, and each free block repeats its size in its last word.
   */
  ghost predicate Tags(w: View, b: Blocks) {
    TagsBut(w, b, UNITS)
  }

  /** A header rewritten with size `n` keeps its free bit; setting or clearing the bit keeps the size. */
  lemma TagWords(x: nat, n: nat)
    requires x < 2 * FREE_MASK && n <= UNITS
    ensures SizeTag(PrevTag(x) + 16 * n) == 16 * n && (FreeTag(PrevTag(x) + 16 * n) <==> FreeTag(x))
    ensures SizeTag(SetTag(x)) == SizeTag(x) && FreeTag(SetTag(x))
    ensures SizeTag(ResetTag(x)) == SizeTag(x) && !FreeTag(ResetTag(x))
    ensures SizeTag(FREE_MASK + 16 * n) == 16 * n
  {
  }

  /** Walking forward from a block reaches every later edge. */
  lemma {:induction false} BlockBefore(b: Blocks, x: nat, e: nat) returns (y: nat)
    requires Tiling(b) && IsEdge(b, e) && x in b && x < e
    ensures y in b && End(b, y) == e
    decreases e - x
  {
    var z := End(b, x);
    assert EndsAtEdge(b, x);
    if z == e {
      y := x;
    } else {
      assert e != UNITS ==> Apart(b, x, e) && EndsAtEdge(b, e);
      y := BlockBefore(b, z, e);
    }
  }

  /** Where another block can lie relative to the edges `s` and `e`. */
  lemma Outside(b: Blocks, s: nat, e: nat, u: nat)
    requires Tiling(b) && s in b && IsEdge(b, e) && s < e && u in b && !(s <= u < e)
    ensures u < End(b, u) <= UNITS
    ensures (u < s && End(b, u) <= s) || (e <= u && e < End(b, u))
  {
    assert EndsAtEdge(b, u) && EndsAtEdge(b, s);
    assert u != s ==> Apart(b, u, s);
  }

  /** Two blocks do not overlap. */
  lemma BlocksApart(b: Blocks, s: nat, u: nat)
    requires Tiling(b) && s in b && u in b && u != s
    ensures u < End(b, u) <= UNITS && s < End(b, s) <= UNITS
    ensures (u < s && End(b, u) <= s) || (End(b, s) <= u && End(b, s) < End(b, u))
  {
    assert EndsAtEdge(b, s) && Apart(b, u, s) && EndsAtEdge(b, u);
  }

  /** `b` with a used block of `n` units cut off the high end of the free block at `s`. */
  ghost function Carve(b: Blocks, s: nat, n: nat): Blocks
    requires s in b && n <= b[s].size
  {
    if n == b[s].size then b[s := Block(n, false)]
    else b[s := Block(b[s].size - n, true)][s + b[s].size - n := Block(n, false)]
  }

  lemma CarveOther(b: Blocks, s: nat, n: nat, u: nat)
    requires Tiling(b) && s in b && 1 <= n <= b[s].size && u in b && u != s
    ensures u in Carve(b, s, n) && Carve(b, s, n)[u] == b[u] && End(Carve(b, s, n), u) == End(b, u)
    ensures u < End(b, u) <= UNITS
    ensures (u < s && End(b, u) <= s) || (End(b, s) <= u && End(b, s) < End(b, u))
  {
    BlocksApart(b, s, u);
  }

  lemma CarveTiles(b: Blocks, s: nat, n: nat)
    requires Tiling(b) && Bounded(b) && s in b && b[s].free && 1 <= n <= b[s].size && n <= MAX_UNITS
    ensures Tiling(Carve(b, s, n)) && Bounded(Carve(b, s, n))
  {
    var b', e := Carve(b, s, n), End(b, s);
    assert EndsAtEdge(b, s);
    forall u | u in b' ensures EndsAtEdge(b', u) {
      if u in b && u != s {
        CarveOther(b, s, n, u);
        assert EndsAtEdge(b, u);
      }
    }
    forall u, v | u in b' && v in b' && u != v ensures Apart(b', u, v) {
      if u in b && u != s {
        CarveOther(b, s, n, u);
      }
      if v in b && v != s {
        CarveOther(b, s, n, v);
      }
      assert u in b && v in b ==> Apart(b, u, v);
    }
  }

  /** The tag words after the exact-fit branch of an allocation. */
  lemma UseTags(w: View, b: Blocks, s: nat, w': View)
    requires Tiling(b) && Tags(w, b) && s in b && b[s].free
    requires Shaped(w') && End(b, s) <= UNITS
    requires w'.hdr == w.hdr[End(b, s) := ResetTag(w.hdr[End(b, s)])] && w'.ftr == w.ftr
    ensures Tags(w', Carve(b, s, b[s].size))
  {
    var b' := Carve(b, s, b[s].size);
    assert TagsAt(w, b, s, UNITS);
    forall u | u in b' ensures TagsAt(w', b', u, UNITS) {
      assert TagsAt(w, b, u, UNITS);
      if u != s {
        CarveOther(b, s, b[s].size, u);
      }
    }
  }

  /** The tag words after a split. */
  lemma SplitTags(w: View, b: Blocks, s: nat, n: nat, w': View)
    requires Tiling(b) && Tags(w, b) && s in b && b[s].free && 1 <= n < b[s].size
    requires Shaped(w') && End(b, s) <= UNITS
    requires var e := End(b, s); var k := e - n;
      && w'.hdr == w.hdr[s := PrevTag(w.hdr[s]) + 16 * (k - s)][k := FREE_MASK + 16 * n][e := ResetTag(w.hdr[e])]
      && w'.ftr == w.ftr[k - 1 := 16 * (k - s)][e - 1 := 16 * n]
    ensures Tags(w', Carve(b, s, n))
  {
    var b', e := Carve(b, s, n), End(b, s);
    assert TagsAt(w, b, s, UNITS);
    TagWords(w.hdr[s], e - n - s);
    TagWords(w.hdr[e], n);
    hide SizeTag, FreeTag, PrevTag, ResetTag;
    forall u | u in b' ensures TagsAt(w', b', u, UNITS) {
      if u in b && u != s {
        assert TagsAt(w, b, u, UNITS);
        SplitTagsOther(w, b, s, n, w', u);
      }
    }
  }

  lemma SplitTagsOther(w: View, b: Blocks, s: nat, n: nat, w': View, u: nat)
    requires Tiling(b) && Shaped(w) && s in b && 1 <= n < b[s].size && u in b && u != s && TagsAt(w, b, u, UNITS)
    requires Shaped(w') && End(b, s) <= UNITS
    requires var e := End(b, s); var k := e - n;
      && w'.hdr == w.hdr[s := PrevTag(w.hdr[s]) + 16 * (k - s)][k := FREE_MASK + 16 * n][e := ResetTag(w.hdr[e])]
      && w'.ftr == w.ftr[k - 1 := 16 * (k - s)][e - 1 := 16 * n]
    ensures u in Carve(b, s, n) && TagsAt(w', Carve(b, s, n), u, UNITS)
  {
    var e := End(b, s);
    TagWords(w.hdr[s], e - n - s);
    TagWords(w.hdr[e], n);
    CarveOther(b, s, n, u);
    hide SizeTag, FreeTag, PrevTag, ResetTag;
  }

  /** `b` with everything between the edges `s` and `e` made one free block. */
  ghost function Fuse(b: Blocks, s: nat, e: nat): Blocks
    requires s < e
  {
    (map u | u in b && !(s < u < e) :: b[u])[s := Block(e - s, true)]
  }

  lemma FuseOther(b: Blocks, s: nat, e: nat, u: nat)
    requires Tiling(b) && s in b && IsEdge(b, e) && s < e && u in Fuse(b, s, e) && u != s
    ensures u in b && Fuse(b, s, e)[u] == b[u] && End(Fuse(b, s, e), u) == End(b, u)
    ensures u < End(b, u) <= UNITS
    ensures (u < s && End(b, u) <= s) || (e <= u && e < End(b, u))
  {
    Outside(b, s, e, u);
  }

  lemma FuseTiles(b: Blocks, s: nat, e: nat)
    requires Tiling(b) && Bounded(b) && s in b && IsEdge(b, e) && s < e
    requires s != 0 ==> e - s <= 2 * MAX_UNITS
    ensures Tiling(Fuse(b, s, e)) && Bounded(Fuse(b, s, e))
  {
    var b' := Fuse(b, s, e);
    forall u | u in b' ensures EndsAtEdge(b', u) {
      if u != s {
        FuseOther(b, s, e, u);
        assert EndsAtEdge(b, u);
      }
    }
    forall u, v | u in b' && v in b' && u != v ensures Apart(b', u, v) {
      if u != s {
        FuseOther(b, s, e, u);
      }
      if v != s {
        FuseOther(b, s, e, v);
      }
      assert Apart(b, u, v);
    }
  }

  /** The tag words a free leaves between the edges `s` and `e`. */
  ghost predicate FusedTags(w: View, s: nat, e: nat, w': View)
    requires Shaped(w)
  {
    && Shaped(w') && s < e <= UNITS
    && w'.hdr == w.hdr[s := PrevTag(w.hdr[s]) + 16 * (e - s)][e := SetTag(w.hdr[e])]
    && (forall u :: 0 <= u < UNITS && u != e - 1 ==> w'.ftr[u] == w.ftr[u])
  }

  lemma FuseTagsOther(w: View, b: Blocks, s: nat, e: nat, w': View, u: nat)
    requires Tiling(b) && Tags(w, b) && s in b && IsEdge(b, e) && FusedTags(w, s, e, w')
    requires u in Fuse(b, s, e) && u != s
    ensures TagsAt(w', Fuse(b, s, e), u, UNITS)
  {
    FuseOther(b, s, e, u);
    assert TagsAt(w, b, u, UNITS);
    TagWords(w.hdr[s], e - s);
    TagWords(w.hdr[e], 0);
  }

  /** The tag words after a free: valid exactly when the footer is. */
  lemma FuseTags(w: View, b: Blocks, s: nat, e: nat, w': View)
    requires Tiling(b) && Tags(w, b) && s in b && IsEdge(b, e) && FusedTags(w, s, e, w')
    ensures TagsBut(w', Fuse(b, s, e), s)
    ensures Tags(w', Fuse(b, s, e)) <==> w'.ftr[e - 1] == 16 * (e - s)
  {
    var b' := Fuse(b, s, e);
    TagWords(w.hdr[s], e - s);
    TagWords(w.hdr[e], 0);
    forall u | u in b' && u != s ensures TagsAt(w', b', u, UNITS) && TagsAt(w', b', u, s) {
      FuseTagsOther(w, b, s, e, w', u);
    }
    assert TagsAt(w', b', s, s);
    assert TagsAt(w', b', s, UNITS) <==> w'.ftr[e - 1] == 16 * (e - s);
  }

  /** The blocks met walking from the block at `x` to the sentinel. */
  ghost function Walk(b: Blocks, x: nat): seq<nat>
    requires Tiling(b) && IsEdge(b, x) && x <= UNITS
    decreases UNITS - x
  {
    if x == UNITS then []
    else
      assert EndsAtEdge(b, x);
      [x] + Walk(b, End(b, x))
  }

  /** The walk meets every block once, in address order. */
  lemma {:induction false} WalkMeetsAll(b: Blocks, x: nat)
    requires Tiling(b) && IsEdge(b, x) && x <= UNITS
    ensures forall u :: u in Walk(b, x) <==> u in b && x <= u
    ensures forall i, j :: 0 <= i < j < |Walk(b, x)| ==> Walk(b, x)[i] < Walk(b, x)[j]
    decreases UNITS - x
  {
    if x == UNITS {
      forall u | u in b ensures u < UNITS {
        assert EndsAtEdge(b, u);
      }
    } else {
      assert EndsAtEdge(b, x);
      var ws, rest := Walk(b, x), Walk(b, End(b, x));
      WalkMeetsAll(b, End(b, x));
      assert ws == [x] + rest;
      forall u ensures u in ws <==> u in b && x <= u {
        WalkSkips(b, x, u);
        assert u in ws <==> u == x || u in rest;
      }
      forall i, j | 0 <= i < j < |ws| ensures ws[i] < ws[j] {
        assert ws[j] == rest[j - 1] && rest[j - 1] in rest;
        assert i > 0 ==> ws[i] == rest[i - 1];
      }
    }
  }

  lemma WalkSkips(b: Blocks, x: nat, u: nat)
    requires Tiling(b) && x in b
    ensures x < End(b, x)
    ensures u in b && x < u ==> End(b, x) <= u
  {
    assert EndsAtEdge(b, x);
    if u in b && x < u {
      assert Apart(b, x, u) && EndsAtEdge(b, u);
    }
  }

  ghost function UnitsOf(b: Blocks, us: seq<nat>, free: bool): nat
    requires forall u :: u in us ==> u in b
  {
    if us == [] then 0
    else (if b[us[0]].free == free then b[us[0]].size else 0) + UnitsOf(b, us[1..], free)
  }

  /** Free units and used units always add up to the arena. */
  lemma {:induction false} Conservation(b: Blocks, x: nat)
    requires Tiling(b) && IsEdge(b, x) && x <= UNITS
    requires forall u :: u in Walk(b, x) ==> u in b
    ensures UnitsOf(b, Walk(b, x), true) + UnitsOf(b, Walk(b, x), false) == UNITS - x
    decreases UNITS - x
  {
    if x < UNITS {
      assert EndsAtEdge(b, x);
      var rest := Walk(b, End(b, x));
      assert Walk(b, x)[1..] == rest;
      assert forall u :: u in rest ==> u in Walk(b, x);
      Conservation(b, End(b, x));
    }
  }

  /** Every unit of the arena lies in exactly one block. */
  lemma EveryUnitInOneBlock(b: Blocks, j: nat)
    requires Tiling(b) && j < UNITS
    ensures exists u :: u in b && u <= j < End(b, u)
    ensures forall u, v :: u in b && v in b && u <= j < End(b, u) && v <= j < End(b, v) ==> u == v
  {
    var u := BlockAround(b, 0, j);
    forall v | v in b && v <= j < End(b, v) ensures v == u {
      assert v != u ==> Apart(b, v, u);
    }
  }

  lemma {:induction false} BlockAround(b: Blocks, x: nat, j: nat) returns (u: nat)
    requires Tiling(b) && x in b && x <= j < UNITS
    ensures u in b && u <= j < End(b, u)
    decreases j - x
  {
    assert EndsAtEdge(b, x);
    if j < End(b, x) {
      u := x;
    } else {
      u := BlockAround(b, End(b, x), j);
    }
  }
}
