/**
 The allocator: a simplified Doug Lea malloc over a byte image. Every store goes through `Store`,
 which also logs it.
 */
module Allocation {
  import opened Arithmetic
  import opened Bytes
  import opened Layout
  import opened Blocks
  import opened FreeLists
  import opened Modifications

  /**
   The source clears the `prev` word of the next block on an exact fit even when there is no next
   block, and rewrites a freed block's footer only if its size changed. `AS_WRITTEN` does the same;
   a build may instead guard the first and always do the second.
   */
  datatype Build = Build(guardsNullNext: bool, alwaysWritesFooter: bool)
  const AS_WRITTEN := Build(false, false)

  ghost predicate SamePayload(w: View, w': View, v: nat, e: nat)
    requires Shaped(w) && Shaped(w') && v < e <= UNITS
  {
    && (forall j :: v <= j < e ==> w'.prv[j] == w.prv[j] && w'.nxt[j] == w.nxt[j] && w'.ftr[j] == w.ftr[j])
    && (forall j :: v < j < e ==> w'.hdr[j] == w.hdr[j])
  }

  lemma PayloadWord(m: seq<Byte>, w: View, m': seq<Byte>, w': View, v: nat, e: nat, j: nat, k: nat)
    requires Mirrors(m, w) && Mirrors(m', w') && v < e <= UNITS && SamePayload(w, w', v, e)
    requires v <= j < e && k < 4 && (j == v ==> k > 0)
    ensures UnitWord(m', j, k) == UnitWord(m, j, k)
  {
    assert w'.prv[j] == w.prv[j] && w'.nxt[j] == w.nxt[j] && w'.ftr[j] == w.ftr[j];
    assert j > v ==> w'.hdr[j] == w.hdr[j];
  }

  lemma WordOfByte(i: nat, v: nat, e: nat) returns (j: nat, k: nat)
    requires Ptr(v) + 4 <= i < Ptr(e)
    ensures v <= j < e && k < 4 && (j == v ==> k > 0)
    ensures Offset(j, k) <= i < Offset(j, k) + 4
  {
    j, k := (i - FIRST) / 16, (i - FIRST) % 16 / 4;
  }

  /** Equal payload words hold equal payload bytes. */
  lemma PayloadBytes(m: seq<Byte>, w: View, m': seq<Byte>, w': View, v: nat, e: nat)
    requires Mirrors(m, w) && Mirrors(m', w') && |m| == |m'| && v < e <= UNITS && SamePayload(w, w', v, e)
    ensures m'[Ptr(v) + 4..Ptr(e)] == m[Ptr(v) + 4..Ptr(e)]
  {
    forall i | Ptr(v) + 4 <= i < Ptr(e) ensures m'[i] == m[i] {
      var j, k := WordOfByte(i, v, e);
      PayloadWord(m, w, m', w', v, e, j, k);
      var o := Offset(j, k);
      SameWordSameBytes(m, m', o);
      assert m[i] == m[o..o + 4][i - o] && m'[i] == m'[o..o + 4][i - o];
    }
  }

  /** The words of the arena describe these blocks and these lists. */
  ghost predicate Consistent(w: View, b: Blocks, l: Lists) {
    && Tiling(b) && Bounded(b)
    && Tags(w, b)
    && Stored(w, l) && Linked(l, b)
    && l.at.Keys == FreeBlocks(b)
  }

  /** Outside the span from `s` to `e`, only headers at edges and links of free blocks differ. */
  ghost predicate Quiet(w: View, w': View, b: Blocks, s: nat, e: nat) {
    && Shaped(w) && Shaped(w')
    && (forall j :: 0 <= j < UNITS && !(s <= j < e) ==> w'.ftr[j] == w.ftr[j])
    && (forall j :: 0 <= j < UNITS && !(s <= j < e) && !IsEdge(b, j) ==> w'.hdr[j] == w.hdr[j])
    && (forall j :: 0 <= j < UNITS && !(s <= j < e) && j !in FreeBlocks(b) ==>
      w'.prv[j] == w.prv[j] && w'.nxt[j] == w.nxt[j])
  }

  lemma QuietPayload(w: View, w': View, b: Blocks, s: nat, e: nat, v: nat)
    requires Tiling(b) && Quiet(w, w', b, s, e) && s in b && IsEdge(b, e) && s < e
    requires v in b && !b[v].free && !(s <= v < e)
    ensures v < End(b, v) <= UNITS && SamePayload(w, w', v, End(b, v))
  {
    Outside(b, s, e, v);
    forall j | v < j && j in b ensures End(b, v) <= j {
      assert Apart(b, v, j) && EndsAtEdge(b, j);
    }
  }

  /** Some free blocks, `gone`, have been taken off their lists; no tag has changed. */
  ghost predicate Detached(w0: View, b: Blocks, gone: set<nat>, w: View, l: Lists) {
    && Shaped(w0) && Stored(w, l) && Linked(l, b)
    && w.hdr == w0.hdr && w.ftr == w0.ftr
    && l.at.Keys == FreeBlocks(b) - gone
    && (forall j :: 0 <= j < UNITS && j !in FreeBlocks(b) ==> w.prv[j] == w0.prv[j] && w.nxt[j] == w0.nxt[j])
  }

  lemma DetachOne(w0: View, b: Blocks, gone: set<nat>, w: View, l: Lists, u: nat)
    requires Detached(w0, b, gone, w, l) && u in l.at && u in b
    ensures var c := ClassOf(b[u].size);
      && Detached(w0, b, gone + {u}, UnlinkWords(w, l.at[u], c), Unlink(l, c, u))
      && (Exact(l, b) ==> Exact(Unlink(l, c, u), b))
  {
    assert LinkOk(l, b, u);
    UnlinkStored(w, l, b, u);
    UnlinkKeepsLinks(l, b, u);
    if Exact(l, b) {
      UnlinkKeepsExact(l, b, u);
    }
  }

  /** The lists after a block is put at the front of its class. */
  lemma AfterPush(w: View, l: Lists, b: Blocks, u: nat, c: nat)
    requires Stored(w, l) && Linked(l, b) && u !in l.at && u in b && b[u].free && u < UNITS && c == ClassOf(b[u].size)
    ensures Stored(PushWords(w, l.heads[c], c, u), Push(l, c, u))
    ensures Linked(Push(l, c, u), b) && Push(l, c, u).at.Keys == l.at.Keys + {u}
    ensures Exact(l, b) ==> Exact(Push(l, c, u), b)
  {
    assert HeadOk(l, b, c);
    PushStored(w, l, b, c, u);
    PushKeepsLinks(l, b, u);
    if Exact(l, b) {
      PushKeepsExact(l, b, u);
    }
  }

  /** The preconditions of `AfterFree`: `w'` holds the stores a free makes for the block from `s` to `e`. */
  ghost predicate Freed(w0: View, b: Blocks, gone: set<nat>, w: View, l: Lists, s: nat, e: nat, w': View) {
    && Tiling(b) && Bounded(b) && Tags(w0, b) && Detached(w0, b, gone, w, l)
    && s in b && IsEdge(b, e) && s < e <= UNITS && (s != 0 ==> e - s <= 2 * MAX_UNITS)
    && (forall x :: x in b && b[x].free ==> (x in gone <==> s <= x < e))
    && FusedTags(w, s, e, w')
    && var c := ClassOf(e - s); w' == PushWords(w, l.heads[c], c, s).(hdr := w'.hdr, ftr := w'.ftr)
  }

  lemma FreedKeys(b: Blocks, gone: set<nat>, listed: set<nat>, s: nat, e: nat)
    requires s in b && s < e && listed == FreeBlocks(b) - gone
    requires forall x :: x in b && b[x].free ==> (x in gone <==> s <= x < e)
    ensures s !in listed && listed + {s} == FreeBlocks(Fuse(b, s, e))
    ensures forall x :: x in listed ==> x in Fuse(b, s, e) && Fuse(b, s, e)[x] == b[x]
  {
    var b' := Fuse(b, s, e);
    forall x ensures x in listed + {s} <==> x in FreeBlocks(b') {
    }
  }

  lemma FreedLists(w0: View, b: Blocks, gone: set<nat>, w: View, l: Lists, s: nat, e: nat, w': View)
    requires Freed(w0, b, gone, w, l, s, e, w')
    ensures Stored(w', Push(l, ClassOf(e - s), s))
    ensures Linked(Push(l, ClassOf(e - s), s), Fuse(b, s, e))
    ensures Push(l, ClassOf(e - s), s).at.Keys == FreeBlocks(Fuse(b, s, e))
    ensures Exact(l, b) ==> Exact(Push(l, ClassOf(e - s), s), Fuse(b, s, e))
  {
    hide TagsBut, Tiling, Bounded;
    var b' := Fuse(b, s, e);
    FreedKeys(b, gone, l.at.Keys, s, e);
    LinkedFrame(l, b, b');
    AfterPush(w, l, b', s, ClassOf(e - s));
  }

  lemma FreedQuiet(w0: View, b: Blocks, gone: set<nat>, w: View, l: Lists, s: nat, e: nat, w': View)
    requires Freed(w0, b, gone, w, l, s, e, w')
    ensures Quiet(w0, w', b, s, e)
  {
    hide TagsBut, Tiling, Bounded;
    var c := ClassOf(e - s);
    assert HeadOk(l, b, c);
    PushStored(w, l, b, c, s);
  }

  /** The state after a free: consistent exactly when the freed block's footer is right. */
  lemma AfterFree(w0: View, b: Blocks, gone: set<nat>, w: View, l: Lists, s: nat, e: nat, w': View)
    requires Freed(w0, b, gone, w, l, s, e, w')
    ensures var b', l' := Fuse(b, s, e), Push(l, ClassOf(e - s), s);
      && Tiling(b') && Bounded(b') && TagsBut(w', b', s)
      && (Consistent(w', b', l') <==> w'.ftr[e - 1] == 16 * (e - s))
      && (Exact(l, b) ==> Exact(l', b'))
      && Quiet(w0, w', b, s, e)
  {
    FreedLists(w0, b, gone, w, l, s, e, w');
    FreedQuiet(w0, b, gone, w, l, s, e, w');
    FuseTiles(b, s, e);
    FuseTags(w0, b, s, e, w');
  }

  /** What the link words of a listed block say. */
  lemma LinkWords(w0: View, b: Blocks, gone: set<nat>, w: View, l: Lists, u: nat)
    requires Detached(w0, b, gone, w, l) && u in l.at
    ensures Shaped(w) && u < UNITS && w.prv[u] == PtrOf(l.at[u].prev) && w.nxt[u] == PtrOf(l.at[u].next)
    ensures l.at[u].prev.Some? ==> l.at[u].prev.unit < UNITS
    ensures l.at[u].next.Some? ==> l.at[u].next.unit < UNITS
  {
    assert LinkOk(l, b, u);
  }

  /** What the head word of a class says while blocks are off their lists. */
  lemma HeadWord(w0: View, b: Blocks, gone: set<nat>, w: View, l: Lists, c: nat)
    requires Detached(w0, b, gone, w, l) && c < NUM_LISTS
    ensures Shaped(w) && |l.heads| == NUM_LISTS && w.slots[c] == PtrOf(l.heads[c])
    ensures l.heads[c].Some? ==> l.heads[c].unit < UNITS
  {
    assert HeadOk(l, b, c);
  }

  /** The same, from the stores that `Release` makes. */
  lemma AfterRelease(w0: View, b: Blocks, gone: set<nat>, w: View, l: Lists, s: nat, e: nat, writes: bool, w': View)
    requires Tiling(b) && Bounded(b) && Tags(w0, b) && Detached(w0, b, gone, w, l)
    requires s in b && IsEdge(b, e) && s < e <= UNITS && (s != 0 ==> e - s <= 2 * MAX_UNITS)
    requires forall x :: x in b && b[x].free ==> (x in gone <==> s <= x < e)
    requires var c := ClassOf(e - s);
      w' == PushWords(w.(hdr := w.hdr[s := PrevTag(w.hdr[s]) + 16 * (e - s)][e := SetTag(w.hdr[e])],
                         ftr := if writes then w.ftr[e - 1 := 16 * (e - s)] else w.ftr), l.heads[c], c, s)
    requires Shaped(w')
    ensures var b', l' := Fuse(b, s, e), Push(l, ClassOf(e - s), s);
      && Tiling(b') && Bounded(b')
      && (Consistent(w', b', l') <==> (writes || w0.ftr[e - 1] == 16 * (e - s)))
      && (Exact(l, b) ==> Exact(l', b'))
      && Quiet(w0, w', b, s, e)
  {
    assert FusedTags(w, s, e, w');
    hide Tiling, Bounded, TagsBut, Linked, Stored;
    AfterFree(w0, b, gone, w, l, s, e, w');
  }

  /** The free block at `p` ends where the block at `u` starts and is small enough to coalesce. */
  ghost predicate AbsorbsPrev(b: Blocks, u: nat, p: nat) {
    p in b && b[p].free && b[p].size <= MAX_UNITS && End(b, p) == u
  }

  /** The block after `u` is free, and neither it nor what starts at `s` is too large to coalesce. */
  ghost predicate AbsorbsNext(b: Blocks, s: nat, u: nat)
    requires u in b
  {
    var e := End(b, u);
    e in b && b[e].free && b[e].size <= MAX_UNITS && e - s <= MAX_UNITS
  }

  /** Where the span freed together with the block at `u` starts and ends. */
  ghost function SpanStart(b: Blocks, u: nat): nat {
    if exists p: nat :: AbsorbsPrev(b, u, p) then
      var p: nat :| AbsorbsPrev(b, u, p);
      p
    else u
  }

  ghost function SpanEnd(b: Blocks, u: nat): nat
    requires u in b
  {
    if AbsorbsNext(b, SpanStart(b, u), u) then End(b, End(b, u)) else End(b, u)
  }

  /** Freeing the block at `u` merges it with a neighbour. */
  ghost predicate Coalesces(b: Blocks, u: nat)
    requires u in b
  {
    (exists p: nat :: AbsorbsPrev(b, u, p)) || AbsorbsNext(b, u, u)
  }

  /** There is at most one block to absorb before `u`. */
  lemma SpanStartIs(b: Blocks, u: nat, s: nat)
    requires Tiling(b) && u in b
    requires if s == u then forall q :: !AbsorbsPrev(b, u, q) else AbsorbsPrev(b, u, s)
    ensures s == SpanStart(b, u)
  {
    if s != u {
      var p := SpanStart(b, u);
      assert AbsorbsPrev(b, u, p);
      assert p != s ==> Apart(b, p, s);
      assert EndsAtEdge(b, p) && EndsAtEdge(b, s);
    }
  }

  lemma CoalescesIff(b: Blocks, u: nat)
    requires Tiling(b) && u in b
    ensures SpanStart(b, u) <= u
    ensures Coalesces(b, u) <==> SpanEnd(b, u) - SpanStart(b, u) != b[u].size
    ensures !Coalesces(b, u) ==> SpanStart(b, u) == u && SpanEnd(b, u) == End(b, u)
  {
    var s := SpanStart(b, u);
    if exists p: nat :: AbsorbsPrev(b, u, p) {
      assert AbsorbsPrev(b, u, s) && EndsAtEdge(b, s);
    }
    assert EndsAtEdge(b, u);
    assert AbsorbsNext(b, s, u) ==> EndsAtEdge(b, End(b, u));
  }

  /** The blocks after the block at `u` is freed. */
  ghost function AfterFreeing(b: Blocks, u: nat): Blocks
    requires u in b
  {
    var s, e := SpanStart(b, u), SpanEnd(b, u);
    if s < e then Fuse(b, s, e) else b
  }

  /** No free block has `need` bytes. */
  ghost predicate NoRoom(b: Blocks, need: nat) {
    forall x :: x in b && b[x].free ==> 16 * b[x].size < need
  }

  /** No list is headed by a block of `need` bytes. */
  ghost predicate NoHead(b: Blocks, l: Lists, need: nat) {
    forall c :: 0 <= c < |l.heads| && l.heads[c].Some? && l.heads[c].unit in b ==> 16 * b[l.heads[c].unit].size < need
  }

  /** The block at `s` heads a list, has `n` units, and of the heads that have a list for their size none is closer. */
  ghost predicate BestHead(b: Blocks, l: Lists, n: nat, s: nat) {
    && s in b && n <= b[s].size && Some(s) in l.heads
    && (forall c :: 0 <= c < |l.heads| && l.heads[c].Some? && l.heads[c].unit in b ==>
          var x := b[l.heads[c].unit].size; n <= x <= MAX_UNITS ==> b[s].size <= x)
  }

  /** The block at `s` is free, has `n` units, and of the free blocks that have a list for their size none is closer. */
  ghost predicate BestFit(b: Blocks, n: nat, s: nat) {
    && s in b && b[s].free && n <= b[s].size
    && (forall x :: x in b && b[x].free && n <= b[x].size <= MAX_UNITS ==> b[s].size <= b[x].size)
  }

  lemma HeadClass(w: View, b: Blocks, l: Lists, c: nat)
    requires Consistent(w, b, l) && c < NUM_LISTS && l.heads[c].Some?
    ensures var s := l.heads[c].unit; s in b && b[s].free && 1 <= b[s].size && ClassOf(b[s].size) == c
  {
    assert HeadOk(l, b, c) && LinkOk(l, b, l.heads[c].unit) && EndsAtEdge(b, l.heads[c].unit);
  }

  /** What the search of `AllocBlock` finds, by the sizes of the blocks. */
  lemma FirstFits(w: View, b: Blocks, l: Lists, n: nat)
    requires Consistent(w, b, l) && 1 <= n <= MAX_UNITS
    ensures var h := FirstHead(l, ClassOf(n));
      if h == None then NoHead(b, l, 16 * n) else !NoHead(b, l, 16 * n) && BestHead(b, l, n, h.unit)
  {
    FirstHeadIs(l, ClassOf(n));
    forall c | 0 <= c < NUM_LISTS && l.heads[c].Some?
      ensures var s := l.heads[c].unit; s in b && 1 <= b[s].size && ClassOf(b[s].size) == c
    {
      HeadClass(w, b, l, c);
    }
  }

  /** If no list is orphaned, the best head is the best fit, and without a fitting head there is no room. */
  lemma HeadsSuffice(w: View, b: Blocks, l: Lists, n: nat, s: nat)
    requires Consistent(w, b, l) && Exact(l, b) && 1 <= n <= MAX_UNITS
    ensures NoHead(b, l, 16 * n) <==> NoRoom(b, 16 * n)
    ensures BestHead(b, l, n, s) ==> BestFit(b, n, s)
  {
    forall c | 0 <= c < NUM_LISTS && l.heads[c].Some?
      ensures var s := l.heads[c].unit; s in b && b[s].free && 1 <= b[s].size && ClassOf(b[s].size) == c
    {
      HeadClass(w, b, l, c);
    }
    forall x | x in b && b[x].free
      ensures 1 <= b[x].size && l.heads[ClassOf(b[x].size)].Some?
    {
      assert EndsAtEdge(b, x) && x in l.at;
      ClassHasHead(l, b, x);
    }
  }

  ghost function Off(b: Blocks, l: Lists, u: nat): Lists {
    if u in b && u in l.at then Unlink(l, ClassOf(b[u].size), u) else l
  }

  ghost function On(l: Lists, size: int, u: nat): Lists {
    if 0 <= size && ClassOf(size) < |l.heads| then Push(l, ClassOf(size), u) else l
  }

  /** The lists after the block at `u` is freed: absorbed neighbours go off theirs, and the span goes to the front. */
  ghost function ListsAfterFreeing(b: Blocks, l: Lists, u: nat): Lists
    requires u in b
  {
    var s := SpanStart(b, u);
    var l1 := if s == u then l else Off(b, l, s);
    On(if AbsorbsNext(b, s, u) then Off(b, l1, End(b, u)) else l1, SpanEnd(b, u) - s, s)
  }

  /**
   The lists after `n` units of the block at `s` are taken: it goes off its list, and what is left of it to the
   front of another. Unguarded, a whole block without successor takes the list of 32-byte blocks with it.
   */
  ghost function ListsAfterTaking(guarded: bool, b: Blocks, l: Lists, s: nat, n: nat): Lists
    requires s in b
  {
    var l1 := Off(b, l, s);
    if n != b[s].size then On(l1, b[s].size - n, s)
    else if s in l.at && l.at[s].next == None && !guarded && 1 < |l1.heads| then l1.(heads := l1.heads[1 := None])
    else l1
  }

  /** The steps of a free make these lists. */
  lemma SpanLists(b: Blocks, l: Lists, u: nat)
    requires u in b && (SpanStart(b, u) != u ==> SpanStart(b, u) in b && SpanStart(b, u) in l.at)
    ensures var s := SpanStart(b, u);
      var l1 := if s == u then l else Unlink(l, ClassOf(b[s].size), s);
      ListsAfterFreeing(b, l, u) ==
        On(if AbsorbsNext(b, s, u) then Off(b, l1, End(b, u)) else l1, SpanEnd(b, u) - s, s)
  {
  }

  lemma SplitTakes(guarded: bool, b: Blocks, l: Lists, s: nat, n: nat)
    requires s in b && s in l.at && n < b[s].size && |l.heads| == NUM_LISTS
    ensures ListsAfterTaking(guarded, b, l, s, n) ==
      Push(Unlink(l, ClassOf(b[s].size), s), ClassOf(b[s].size - n), s)
  {
  }

  lemma UseTakes(guarded: bool, b: Blocks, l: Lists, s: nat)
    requires s in b && s in l.at && |l.heads| == NUM_LISTS
    ensures var l1 := Unlink(l, ClassOf(b[s].size), s);
      ListsAfterTaking(guarded, b, l, s, b[s].size) ==
        if l.at[s].next == None && !guarded then l1.(heads := l1.heads[1 := None]) else l1
  {
  }

  /** Freeing never makes room smaller. */
  lemma FreeingMakesRoom(b: Blocks, u: nat, need: nat)
    requires Tiling(b) && u in b && !b[u].free && NoRoom(AfterFreeing(b, u), need)
    ensures NoRoom(b, need)
  {
    var s, e, b' := SpanStart(b, u), SpanEnd(b, u), AfterFreeing(b, u);
    CoalescesIff(b, u);
    assert EndsAtEdge(b, u);
    assert AbsorbsNext(b, s, u) ==> EndsAtEdge(b, End(b, u));
    if s != u {
      assert AbsorbsPrev(b, u, s);
    }
    forall x | x in b && b[x].free ensures 16 * b[x].size < need {
      if s < x < e {
        BlocksApart(b, u, x);
        assert x != End(b, u) && End(b, u) in b ==> Apart(b, x, End(b, u));
        assert EndsAtEdge(b, x);
        assert b'[s] == Block(e - s, true);
      } else if x == s {
        assert b'[s] == Block(e - s, true);
      } else {
        assert b'[x] == b[x];
      }
    }
  }

  /**
   The span that a free releases, by sizes: the free block before goes in if it has at most 1152 bytes, and the free
   block after if neither it nor the part before it has more.
   */
  lemma SpanBySizes(b: Blocks, u: nat)
    requires Tiling(b) && u in b
    ensures var s := SpanStart(b, u);
      if s == u then forall p :: p in b && b[p].free && End(b, p) == u ==> 16 * b[p].size > 1152
      else s in b && b[s].free && End(b, s) == u && 16 * b[s].size <= 1152
    ensures var s, n, e := SpanStart(b, u), End(b, u), SpanEnd(b, u);
      if n in b && b[n].free && 16 * b[n].size <= 1152 && 16 * (n - s) <= 1152 then e == n + b[n].size > n else e == n
  {
    var s := SpanStart(b, u);
    assert EndsAtEdge(b, u);
    assert End(b, u) in b ==> EndsAtEdge(b, End(b, u));
    if s == u {
      forall p | p in b && b[p].free && End(b, p) == u ensures 16 * b[p].size > 1152 {
        assert EndsAtEdge(b, p);
        if AbsorbsPrev(b, u, p) {
          SpanStartsBefore(b, u, p);
        }
      }
    } else {
      assert AbsorbsPrev(b, u, s);
    }
  }

  lemma SpanStartsBefore(b: Blocks, u: nat, p: nat)
    requires Tiling(b) && AbsorbsPrev(b, u, p)
    ensures SpanStart(b, u) < u
  {
    var q := SpanStart(b, u);
    assert AbsorbsPrev(b, u, q) && EndsAtEdge(b, q);
  }

  lemma OffHead(b: Blocks, l: Lists, u: nat, c: nat)
    requires c < |l.heads|
    ensures |Off(b, l, u).heads| == |l.heads|
    ensures Off(b, l, u).heads[c] == l.heads[c] || (u in b && ClassOf(b[u].size) == c)
  {
  }

  /** What a free does to the head of a list: it stays, or an absorbed block or the span is of its class. */
  lemma FreedHead(b: Blocks, l: Lists, u: nat, c: nat)
    requires u in b && c < |l.heads| == NUM_LISTS && SpanStart(b, u) < SpanEnd(b, u)
    ensures var s, e, l' := SpanStart(b, u), SpanEnd(b, u), ListsAfterFreeing(b, l, u);
      && |l'.heads| == NUM_LISTS && l'.heads[ClassOf(e - s)] == Some(s)
      && (|| l'.heads[c] == l.heads[c] || ClassOf(e - s) == c
          || (s != u && s in b && ClassOf(b[s].size) == c)
          || (AbsorbsNext(b, s, u) && ClassOf(b[End(b, u)].size) == c))
  {
    hide Off, ClassOf, AbsorbsPrev, SpanStart, SpanEnd;
    var s := SpanStart(b, u);
    OffHead(b, l, s, c);
    var l1 := if s == u then l else Off(b, l, s);
    OffHead(b, l1, End(b, u), c);
  }

  /** Freeing never takes away the last head that is large enough. */
  lemma FreeingMakesHeads(w: View, b: Blocks, l: Lists, u: nat, need: nat)
    requires Consistent(w, b, l) && u in b && !b[u].free && need <= MAX_BLOCK
    requires NoHead(AfterFreeing(b, u), ListsAfterFreeing(b, l, u), need)
    ensures NoHead(b, l, need)
  {
    var s, e, b', l' := SpanStart(b, u), SpanEnd(b, u), AfterFreeing(b, u), ListsAfterFreeing(b, l, u);
    CoalescesIff(b, u);
    SpanSizes(b, u);
    forall c | 0 <= c < |l.heads| && l.heads[c].Some? && l.heads[c].unit in b
      ensures 16 * b[l.heads[c].unit].size < need
    {
      var x := l.heads[c].unit;
      HeadClass(w, b, l, c);
      FreedHead(b, l, u, c);
      hide ListsAfterFreeing, Consistent, SpanStart, SpanEnd, Coalesces, AbsorbsPrev;
      assert b'[s] == Block(e - s, true);
      if l'.heads[c] == l.heads[c] && !(s <= x < e) {
        assert b'[x] == b[x];
      } else if s <= x < e {
        SpanHolds(b, u, x);
      }
    }
  }

  /** An absorbed block is small, and the span is larger. */
  lemma SpanSizes(b: Blocks, u: nat)
    requires Tiling(b) && u in b && !b[u].free
    ensures var s, e := SpanStart(b, u), SpanEnd(b, u);
      && s <= u < e && s in b
      && (s != u ==> 1 <= b[s].size <= MAX_UNITS && b[s].size < e - s)
      && (AbsorbsNext(b, s, u) ==> 1 <= b[End(b, u)].size <= MAX_UNITS && b[End(b, u)].size < e - s)
  {
    var s := SpanStart(b, u);
    CoalescesIff(b, u);
    assert EndsAtEdge(b, u);
    if s != u {
      assert AbsorbsPrev(b, u, s) && EndsAtEdge(b, s);
    }
    assert AbsorbsNext(b, s, u) ==> EndsAtEdge(b, End(b, u));
  }

  lemma SpanHolds(b: Blocks, u: nat, x: nat)
    requires Tiling(b) && u in b && !b[u].free && x in b && SpanStart(b, u) <= x < SpanEnd(b, u)
    ensures b[x].size <= SpanEnd(b, u) - SpanStart(b, u)
  {
    var s, n := SpanStart(b, u), End(b, u);
    SpanSizes(b, u);
    assert EndsAtEdge(b, u) && EndsAtEdge(b, x);
    if s != u {
      assert AbsorbsPrev(b, u, s);
    }
    assert x != s ==> Apart(b, x, s);
    assert x != u ==> Apart(b, x, u);
    assert n in b && x != n ==> Apart(b, x, n);
  }

  // Accesses to offset 0, where the list of 16-byte blocks is

  /** The block at `x` is a 16-byte block at the head of its list. */
  ghost predicate SmallHead(b: Blocks, l: Lists, x: nat) {
    x in b && b[x].size == 1 && x in l.at && l.at[x].prev == None
  }

  /** Allocating `n` units accesses offset 0: the search starts there, or the split leaves a 16-byte block. */
  ghost predicate AllocTrips(b: Blocks, l: Lists, n: nat) {
    n == 1 || var h := FirstHead(l, ClassOf(n)); h.Some? && h.unit in b && b[h.unit].size == n + 1
  }

  /** Freeing the block at `u` accesses offset 0: for the freed block itself, or for an absorbed one. */
  ghost predicate FreeTrips(b: Blocks, l: Lists, u: nat)
    requires u in b
  {
    var s := SpanStart(b, u);
    || (!Coalesces(b, u) && b[u].size == 1)
    || (s != u && SmallHead(b, l, s))
    || (AbsorbsNext(b, s, u) && SmallHead(b, l, End(b, u)))
  }

  /** Taking the previous block off its list first changes nothing for the next one, unless offset 0 was accessed. */
  lemma SmallHeadAfter(b: Blocks, l: Lists, x: nat, y: nat)
    requires Linked(l, b) && x in l.at && x in b && x != y
    ensures SmallHead(b, l, x) || (SmallHead(b, Unlink(l, ClassOf(b[x].size), x), y) <==> SmallHead(b, l, y))
  {
    assert LinkOk(l, b, x);
    assert y in l.at ==> LinkOk(l, b, y);
  }

  /** List 0 is for blocks of one unit alone. */
  lemma ClassZero(units: nat)
    requires units >= 1
    ensures ClassOf(units) == 0 <==> units == 1
  {
  }

  // Footers of live blocks

  /** Every live block repeats its size in its last word. */
  ghost predicate Footed(w: View, b: Blocks) {
    Shaped(w) && forall u :: u in b && !b[u].free ==> u < End(b, u) <= UNITS && w.ftr[End(b, u) - 1] == 16 * b[u].size
  }

  lemma FootedCarve(w: View, w': View, b: Blocks, s: nat, n: nat)
    requires Tiling(b) && Footed(w, b) && s in b && b[s].free && 1 <= n <= b[s].size && End(b, s) <= UNITS
    requires Quiet(w, w', b, s, End(b, s)) && w'.ftr[End(b, s) - 1] == 16 * n
    ensures Footed(w', Carve(b, s, n))
  {
    var b' := Carve(b, s, n);
    forall u | u in b' && !b'[u].free ensures u < End(b', u) <= UNITS && w'.ftr[End(b', u) - 1] == 16 * b'[u].size {
      if u in b && u != s {
        CarveOther(b, s, n, u);
      }
    }
  }

  lemma FootedFuse(w: View, w': View, b: Blocks, s: nat, e: nat)
    requires Tiling(b) && Footed(w, b) && s in b && IsEdge(b, e) && s < e <= UNITS && Quiet(w, w', b, s, e)
    ensures Footed(w', Fuse(b, s, e))
  {
    var b' := Fuse(b, s, e);
    forall u | u in b' && !b'[u].free ensures u < End(b', u) <= UNITS && w'.ftr[End(b', u) - 1] == 16 * b'[u].size {
      FuseOther(b, s, e, u);
    }
  }

  /** When a free accesses offset 0, in terms of the lists before and after the previous block leaves its list. */
  lemma SpanTrips(w: View, b: Blocks, l: Lists, u: nat, s: nat)
    requires Consistent(w, b, l) && u in b && s == SpanStart(b, u) && (s != u ==> s in l.at && s in b)
    ensures var l' := if s == u then l else Unlink(l, ClassOf(b[s].size), s);
      FreeTrips(b, l, u) <==>
        || SpanEnd(b, u) - s == 1
        || (s != u && SmallHead(b, l, s))
        || (AbsorbsNext(b, s, u) && SmallHead(b, l', End(b, u)))
  {
    CoalescesIff(b, u);
    assert EndsAtEdge(b, u);
    hide SmallHead, Coalesces, Unlink;
    if s != u {
      SmallHeadAfter(b, l, s, End(b, u));
    }
  }

  /** What coalescing has established before the span is released. */
  lemma SpanFacts(w: View, b: Blocks, l: Lists, u: nat, s: nat, e: nat, gone: set<nat>, gone': set<nat>)
    requires Consistent(w, b, l) && u in b && !b[u].free && s in b && IsEdge(b, e) && (s != u ==> s in l.at)
    requires if s == u then forall q :: !AbsorbsPrev(b, u, q) else AbsorbsPrev(b, u, s)
    requires gone == if s == u then {} else {s}
    requires if AbsorbsNext(b, s, u) then e == End(b, End(b, u)) && gone' == gone + {End(b, u)}
             else e == End(b, u) && gone' == gone
    ensures s <= u < End(b, u) <= e && e - s <= 2 * MAX_UNITS
    ensures forall x :: x in b && b[x].free ==> (x in gone' <==> s <= x < e)
    ensures forall x :: x in b && s <= x < e && x != u ==> b[x].free
    ensures s == SpanStart(b, u) && e == SpanEnd(b, u) && (Coalesces(b, u) <==> e - s != b[u].size)
    ensures !Coalesces(b, u) ==> s == u && e == End(b, u)
    ensures var l1 := if s == u then l else Unlink(l, ClassOf(b[s].size), s);
      && ListsAfterFreeing(b, l, u) == On(if AbsorbsNext(b, s, u) then Off(b, l1, End(b, u)) else l1, e - s, s)
      && (FreeTrips(b, l, u) <==>
            || e - s == 1
            || (s != u && SmallHead(b, l, s))
            || (AbsorbsNext(b, s, u) && SmallHead(b, l1, End(b, u))))
  {
    ConsistentTiles(w, b, l);
    hide Consistent, Tiling, Bounded, AbsorbsPrev, AbsorbsNext, IsEdge, SmallHead, Unlink, ClassOf, Coalesces, On, Off,
      ListsAfterFreeing, FreeTrips;
    MergedSpan(b, u, s, e, gone, gone');
    SpanStartIs(b, u, s);
    CoalescesIff(b, u);
    SpanTrips(w, b, l, u, s);
    SpanLists(b, l, u);
  }

  /** A set free bit means there is a free block before, and its footer gives its size. */
  lemma PrevTagged(w: View, b: Blocks, u: nat) returns (p: nat)
    requires Tiling(b) && Tags(w, b) && u in b && u <= UNITS && FreeTag(w.hdr[u])
    ensures p in b && b[p].free && End(b, p) == u && p < u
    ensures w.ftr[u - 1] == 16 * b[p].size > 0
    ensures b[p].size <= MAX_UNITS ==> AbsorbsPrev(b, u, p)
    ensures b[p].size > MAX_UNITS ==> forall q :: !AbsorbsPrev(b, u, q)
  {
    assert EndsAtEdge(b, u);
    p := BlockBefore(b, 0, u);
    assert TagsAt(w, b, p, UNITS) && EndsAtEdge(b, p);
    forall q | AbsorbsPrev(b, u, q) ensures q == p {
      assert EndsAtEdge(b, q) && (p != q ==> Apart(b, p, q));
    }
  }

  lemma PrevUntagged(w: View, b: Blocks, u: nat, q: nat)
    requires Tiling(b) && Tags(w, b) && u in b && u <= UNITS && !FreeTag(w.hdr[u])
    ensures !AbsorbsPrev(b, u, q)
  {
    assert q in b ==> TagsAt(w, b, q, UNITS);
  }

  lemma PrevFreeBlock(w: View, b: Blocks, l: Lists, u: nat) returns (p: nat)
    requires Consistent(w, b, l) && u in b && u <= UNITS && FreeTag(w.hdr[u])
    ensures p in b && p in l.at && End(b, p) == u && p < u && w.ftr[u - 1] == 16 * b[p].size > 0
    ensures if b[p].size <= MAX_UNITS then AbsorbsPrev(b, u, p) else forall q :: !AbsorbsPrev(b, u, q)
  {
    p := PrevTagged(w, b, u);
  }

  lemma NoPrevFree(w: View, b: Blocks, l: Lists, u: nat)
    requires Consistent(w, b, l) && u in b && u <= UNITS && !FreeTag(w.hdr[u])
    ensures forall q :: !AbsorbsPrev(b, u, q)
  {
    forall q ensures !AbsorbsPrev(b, u, q) {
      PrevUntagged(w, b, u, q);
    }
  }

  /** The test that `FreeBlock` makes of the previous block. */
  lemma PrevCases(w: View, b: Blocks, l: Lists, u: nat) returns (p: nat)
    requires Consistent(w, b, l) && u in b && !b[u].free
    ensures u <= UNITS && Shaped(w) && (FreeTag(w.hdr[u]) ==> u > 0)
    ensures if FreeTag(w.hdr[u]) && w.ftr[u - 1] <= MAX_BLOCK then
              p in b && p in l.at && p < u && w.ftr[u - 1] == 16 * b[p].size == 16 * (u - p) && AbsorbsPrev(b, u, p)
            else forall q :: !AbsorbsPrev(b, u, q)
  {
    SizesSmall(w, b, u);
    p := 0;
    if FreeTag(w.hdr[u]) {
      p := PrevFreeBlock(w, b, l, u);
    } else {
      NoPrevFree(w, b, l, u);
    }
  }

  lemma SizesSmall(w: View, b: Blocks, u: nat)
    requires Tiling(b) && Bounded(b) && Tags(w, b) && u in b && !b[u].free
    ensures Shaped(w) && u < UNITS && 1 <= b[u].size <= MAX_UNITS && End(b, u) <= UNITS && IsEdge(b, End(b, u))
  {
    assert EndsAtEdge(b, u);
  }

  lemma DetachedNone(w: View, b: Blocks, l: Lists)
    requires Consistent(w, b, l)
    ensures Detached(w, b, {}, w, l)
  {
  }

  /** What the words after a used block say about the block after it. */
  lemma NextTagged(w: View, b: Blocks, u: nat)
    requires Tiling(b) && Tags(w, b) && u in b && !b[u].free
    ensures u < End(b, u) <= UNITS && IsEdge(b, End(b, u)) && SizeTag(w.hdr[u]) == 16 * b[u].size
    ensures var e := End(b, u);
      if e == UNITS then e !in b && SizeTag(w.hdr[e]) == 0 && !FreeTag(w.hdr[e])
      else
        && e in b && 0 < b[e].size && End(b, e) <= UNITS && IsEdge(b, End(b, e))
        && SizeTag(w.hdr[e]) == 16 * b[e].size && (FreeTag(w.hdr[End(b, e)]) <==> b[e].free)
  {
    var e := End(b, u);
    assert EndsAtEdge(b, u) && TagsAt(w, b, u, UNITS);
    if e == UNITS {
      assert e in b ==> EndsAtEdge(b, e) && TagsAt(w, b, e, UNITS);
    } else {
      assert EndsAtEdge(b, e) && TagsAt(w, b, e, UNITS);
    }
  }

  /** The test that `FreeBlock` makes of the next block. */
  lemma NextAbsorbed(w: View, b: Blocks, u: nat, s: nat)
    requires Tiling(b) && Tags(w, b) && u in b && !b[u].free && s <= u && End(b, u) <= UNITS
    ensures var e := End(b, u); var f := if e == UNITS then e else if e in b then End(b, e) else e;
      AbsorbsNext(b, s, u) <==>
        f <= UNITS && FreeTag(w.hdr[f]) && 16 * (e - s) <= MAX_BLOCK && SizeTag(w.hdr[e]) <= MAX_BLOCK
    ensures AbsorbsNext(b, s, u) ==> End(b, u) in b && b[End(b, u)].free
  {
    NextTagged(w, b, u);
  }

  /** The address of the previous block, in 32-bit arithmetic. */
  lemma PrevAddress(u: nat, p: nat, size: nat)
    requires p < u <= UNITS && size == 16 * (u - p)
    ensures Minus32(Ptr(u), size) == Ptr(p) && Ptr(u) - Ptr(p) == size
  {
  }

  lemma SameTags(w0: View, b: Blocks, gone: set<nat>, w: View, l: Lists, e: nat)
    requires Detached(w0, b, gone, w, l)
    ensures w.hdr == w0.hdr && Shaped(w)
    ensures e in b && b[e].free && e !in gone ==> e in l.at
  {
  }

  /** The span that coalescing makes out of a used block and its absorbed neighbours. */
  lemma MergedSpan(b: Blocks, u: nat, s: nat, e: nat, gone: set<nat>, gone': set<nat>)
    requires Tiling(b) && Bounded(b) && u in b && !b[u].free && s in b && IsEdge(b, e)
    requires s == u || AbsorbsPrev(b, u, s)
    requires gone == if s == u then {} else {s}
    requires if AbsorbsNext(b, s, u) then e == End(b, End(b, u)) && gone' == gone + {End(b, u)}
             else e == End(b, u) && gone' == gone
    ensures s <= u < End(b, u) <= e && e - s <= 2 * MAX_UNITS
    ensures forall x :: x in b && b[x].free ==> (x in gone' <==> s <= x < e)
    ensures forall x :: x in b && s <= x < e && x != u ==> b[x].free
  {
    assert EndsAtEdge(b, u) && EndsAtEdge(b, s);
    var n := End(b, u);
    assert n in b ==> EndsAtEdge(b, n);
    forall x | x in b && s <= x < e ensures x == s || x == u || x == n {
      assert EndsAtEdge(b, x) && (x != s ==> Apart(b, x, s)) && (x != u ==> Apart(b, x, u));
      assert n in b && x != n ==> Apart(b, x, n);
    }
  }

  lemma FreeFacts(w: View, b: Blocks, l: Lists, u: nat)
    requires Consistent(w, b, l) && u in b && !b[u].free
    ensures Tiling(b) && Bounded(b) && Tags(w, b) && Shaped(w)
    ensures u < End(b, u) <= UNITS && IsEdge(b, End(b, u)) && SizeTag(w.hdr[u]) == 16 * b[u].size
  {
    NextTagged(w, b, u);
  }

  lemma CarvedKeys(b: Blocks, s: nat, n: nat)
    requires Tiling(b) && s in b && b[s].free && 1 <= n <= b[s].size
    ensures s !in FreeBlocks(b) - {s}
    ensures FreeBlocks(Carve(b, s, n)) == (FreeBlocks(b) - {s}) + (if n < b[s].size then {s} else {})
    ensures forall x :: x in FreeBlocks(b) - {s} ==> x in Carve(b, s, n) && Carve(b, s, n)[x] == b[x]
  {
    forall x | x in b && x != s ensures x in Carve(b, s, n) && Carve(b, s, n)[x] == b[x] {
      CarveOther(b, s, n, x);
    }
  }

  lemma UseLists(b: Blocks, s: nat, l1: Lists)
    requires Tiling(b) && s in b && b[s].free && 1 <= b[s].size
    requires Linked(l1, b) && l1.at.Keys == FreeBlocks(b) - {s}
    ensures Linked(l1, Carve(b, s, b[s].size)) && l1.at.Keys == FreeBlocks(Carve(b, s, b[s].size))
    ensures Exact(l1, b) ==> Exact(l1, Carve(b, s, b[s].size))
  {
    CarvedKeys(b, s, b[s].size);
    LinkedFrame(l1, b, Carve(b, s, b[s].size));
  }

  /** The state after an exact-fit allocation of the block at `s`. */
  lemma AfterUse(w: View, b: Blocks, l: Lists, s: nat, w1: View, l1: Lists, w': View)
    requires Consistent(w, b, l) && s in l.at && s in b && b[s].size <= MAX_UNITS && End(b, s) <= UNITS
    requires Detached(w, b, {s}, w1, l1) && Shaped(w')
    requires w' == w1.(hdr := w.hdr[End(b, s) := ResetTag(w.hdr[End(b, s)])])
    ensures Consistent(w', Carve(b, s, b[s].size), l1)
    ensures Exact(l1, b) ==> Exact(l1, Carve(b, s, b[s].size))
    ensures Quiet(w, w', b, s, End(b, s))
  {
    var b' := Carve(b, s, b[s].size);
    assert EndsAtEdge(b, s) && LinkOk(l, b, s);
    CarveTiles(b, s, b[s].size);
    UseTags(w, b, s, w');
    UseLists(b, s, l1);
    hide Tiling, Bounded, TagsBut, Linked;
  }

  /** The words after a split: the links of the smaller free block, and the tags of both. */
  ghost predicate SplitWords(w: View, b: Blocks, s: nat, n: nat, w1: View, l1: Lists, w': View) {
    && s in b && b[s].free && 1 <= n < b[s].size && n <= MAX_UNITS && End(b, s) <= UNITS
    && Detached(w, b, {s}, w1, l1) && Shaped(w')
    && var e, c := End(b, s), ClassOf(b[s].size - n); var k := e - n;
    && w' == PushWords(w1, l1.heads[c], c, s).(hdr := w'.hdr, ftr := w'.ftr)
    && w'.hdr == w.hdr[s := PrevTag(w.hdr[s]) + 16 * (k - s)][k := FREE_MASK + 16 * n][e := ResetTag(w.hdr[e])]
    && w'.ftr == w.ftr[k - 1 := 16 * (k - s)][e - 1 := 16 * n]
  }

  lemma SplitLists(w: View, b: Blocks, s: nat, n: nat, w1: View, l1: Lists, w': View)
    requires Tiling(b) && SplitWords(w, b, s, n, w1, l1, w')
    ensures Stored(w', Push(l1, ClassOf(b[s].size - n), s))
    ensures Linked(Push(l1, ClassOf(b[s].size - n), s), Carve(b, s, n))
    ensures Push(l1, ClassOf(b[s].size - n), s).at.Keys == FreeBlocks(Carve(b, s, n))
    ensures Exact(l1, b) ==> Exact(Push(l1, ClassOf(b[s].size - n), s), Carve(b, s, n))
  {
    var b' := Carve(b, s, n);
    CarvedKeys(b, s, n);
    LinkedFrame(l1, b, b');
    AfterPush(w1, l1, b', s, ClassOf(b[s].size - n));
  }

  lemma SplitQuiet(w: View, b: Blocks, s: nat, n: nat, w1: View, l1: Lists, w': View)
    requires Tiling(b) && SplitWords(w, b, s, n, w1, l1, w')
    ensures Quiet(w, w', b, s, End(b, s))
  {
    assert EndsAtEdge(b, s);
    hide Tiling;
    var c := ClassOf(b[s].size - n);
    assert HeadOk(l1, b, c);
    PushStored(w1, l1, b, c, s);
  }

  /** The state after `n` units are split off the high end of the block at `s`. */
  lemma AfterSplit(w: View, b: Blocks, l: Lists, s: nat, n: nat, w1: View, l1: Lists, w': View)
    requires Consistent(w, b, l) && SplitWords(w, b, s, n, w1, l1, w')
    ensures Consistent(w', Carve(b, s, n), Push(l1, ClassOf(b[s].size - n), s))
    ensures Exact(l1, b) ==> Exact(Push(l1, ClassOf(b[s].size - n), s), Carve(b, s, n))
    ensures Quiet(w, w', b, s, End(b, s))
  {
    SplitLists(w, b, s, n, w1, l1, w');
    SplitQuiet(w, b, s, n, w1, l1, w');
    CarveTiles(b, s, n);
    SplitTags(w, b, s, n, w');
  }

  /** The words after the stores of a split, in the order they are made. */
  ghost function SplitImage(w1: View, h: Option, c: nat, s: nat, k: nat, e: nat): View
    requires Shaped(w1) && s < k < e <= UNITS && c < NUM_LISTS && (h.Some? ==> h.unit < UNITS)
  {
    var w2 := w1.(hdr := w1.hdr[s := PrevTag(w1.hdr[s]) + 16 * (k - s)], ftr := w1.ftr[k - 1 := 16 * (k - s)]);
    var w3 := PushWords(w2, h, c, s);
    w3.(hdr := w3.hdr[k := FREE_MASK + 16 * (e - k)][e := ResetTag(w3.hdr[e])], ftr := w3.ftr[e - 1 := 16 * (e - k)])
  }

  lemma SplitImageWords(w: View, b: Blocks, s: nat, n: nat, w1: View, l1: Lists)
    requires s in b && b[s].free && 1 <= n < b[s].size && n <= MAX_UNITS && End(b, s) <= UNITS
    requires Detached(w, b, {s}, w1, l1)
    requires l1.heads[ClassOf(b[s].size - n)].Some? ==> l1.heads[ClassOf(b[s].size - n)].unit < UNITS
    ensures var c, e := ClassOf(b[s].size - n), End(b, s);
      SplitWords(w, b, s, n, w1, l1, SplitImage(w1, l1.heads[c], c, s, e - n, e))
  {
  }

  lemma AfterSplitImage(w: View, b: Blocks, l: Lists, s: nat, n: nat, w1: View, l1: Lists, c: nat)
    requires Consistent(w, b, l) && Detached(w, b, {s}, w1, l1)
    requires s in b && b[s].free && 1 <= n < b[s].size && n <= MAX_UNITS && End(b, s) <= UNITS &&
      c == ClassOf(b[s].size - n)
    requires l1.heads[c].Some? ==> l1.heads[c].unit < UNITS
    ensures Consistent(SplitImage(w1, l1.heads[c], c, s, End(b, s) - n, End(b, s)), Carve(b, s, n), Push(l1, c, s))
    ensures Exact(l1, b) ==> Exact(Push(l1, c, s), Carve(b, s, n))
    ensures Quiet(w, SplitImage(w1, l1.heads[c], c, s, End(b, s) - n, End(b, s)), b, s, End(b, s))
    ensures var w' := SplitImage(w1, l1.heads[c], c, s, End(b, s) - n, End(b, s));
      |w'.ftr| == UNITS && w'.ftr[End(b, s) - 1] == 16 * n
  {
    hide Consistent, Quiet, Exact, Carve, Push, SplitWords;
    SplitImageWords(w, b, s, n, w1, l1);
    AfterSplit(w, b, l, s, n, w1, l1, SplitImage(w1, l1.heads[c], c, s, End(b, s) - n, End(b, s)));
  }

  /** Storing 0 at offset 4 empties the list of 32-byte blocks and nothing else. */
  lemma AfterClear(w: View, b: Blocks, l: Lists)
    requires Consistent(w, b, l)
    ensures |l.heads| == NUM_LISTS
    ensures Consistent(w.(slots := Set(w.slots, 1, 0)), b, l.(heads := l.heads[1 := None]))
    ensures Exact(l, b) ==> (Exact(l.(heads := l.heads[1 := None]), b) <==> l.heads[1] == None)
  {
    var w' := w.(slots := Set(w.slots, 1, 0));
    forall u | u in b ensures TagsAt(w', b, u, UNITS) {
      assert TagsAt(w, b, u, UNITS);
    }
    ClearHead(l, b, 1);
  }

  /** Link stores and header stores do not interfere. */
  lemma UnlinkHeader(w: View, x: Link, c: nat, hdr: seq<nat>)
    ensures UnlinkWords(w.(hdr := hdr), x, c) == UnlinkWords(w, x, c).(hdr := hdr)
  {
  }

  lemma ClearQuiet(w: View, w': View, b: Blocks, s: nat, e: nat)
    requires Quiet(w, w', b, s, e)
    ensures Quiet(w, w'.(slots := Set(w'.slots, 1, 0)), b, s, e)
  {
  }

  /** An exact fit that empties a list makes the unguarded code lose the list of 32-byte blocks. */
  ghost predicate LosesList(l: Lists, b: Blocks, s: nat)
    requires s in b
  {
    && |l.heads| == NUM_LISTS && s in l.at
    && l.at[s].next == None && ClassOf(b[s].size) != 1 && l.heads[1].Some?
  }

  /** The head of a class, as the search loop of `AllocBlock` sees it. */
  lemma HeadFacts(w: View, b: Blocks, l: Lists, c: nat)
    requires Consistent(w, b, l) && c < NUM_LISTS
    ensures Shaped(w) && |l.heads| == NUM_LISTS && w.slots[c] == PtrOf(l.heads[c])
    ensures l.heads[c].Some? ==>
      var s := l.heads[c].unit;
      && s in b && s in l.at && l.at[s].prev == None && b[s].free && ClassOf(b[s].size) == c
      && s < UNITS && 1 <= b[s].size && SizeTag(w.hdr[s]) == 16 * b[s].size
    ensures l.heads[c] == None && Exact(l, b) ==> forall x :: x in b && b[x].free ==> ClassOf(b[x].size) != c
  {
    assert HeadOk(l, b, c);
    if l.heads[c].Some? {
      var s := l.heads[c].unit;
      assert LinkOk(l, b, s) && EndsAtEdge(b, s) && TagsAt(w, b, s, UNITS);
    } else if Exact(l, b) {
      forall x | x in b && b[x].free ensures ClassOf(b[x].size) != c {
        ClassHasHead(l, b, x);
      }
    }
  }

  lemma ConsistentTiles(w: View, b: Blocks, l: Lists)
    requires Consistent(w, b, l)
    ensures Tiling(b) && Bounded(b) && Shaped(w)
  {
  }

  lemma ConsistentEdge(w: View, b: Blocks, l: Lists, u: nat)
    requires Consistent(w, b, l) && u in b
    ensures u < End(b, u) <= UNITS && IsEdge(b, End(b, u))
  {
    assert EndsAtEdge(b, u);
  }

  lemma ConsistentSmall(w: View, b: Blocks, l: Lists, u: nat)
    requires Consistent(w, b, l) && u in b && !b[u].free
    ensures b[u].size <= MAX_UNITS
  {
  }

  /** The two lists of a split. */
  lemma SplitOffsets(size: nat, n: nat)
    requires 1 <= n < size
    ensures FreeListOf(16 * size) == 4 * ClassOf(size) > 0
    ensures FreeListOf(16 * size - 16 * n) == 4 * ClassOf(size - n)
    ensures FreeListOf(16 * size - 16 * n) == 0 <==> size == n + 1
  {
    ListOffset(size);
    ListOffset(size - n);
  }

  lemma SplitFacts(w: View, b: Blocks, l: Lists, s: nat)
    requires Consistent(w, b, l) && s in l.at && s in b
    ensures b[s].free && Shaped(w) && s < End(b, s) <= UNITS && SizeTag(w.hdr[s]) == 16 * b[s].size
    ensures |l.heads| == NUM_LISTS
    ensures w.nxt[s] == PtrOf(l.at[s].next) && (l.at[s].next.Some? ==> l.at[s].next.unit < UNITS)
    ensures w.ftr[End(b, s) - 1] == 16 * b[s].size
    ensures var c := ClassOf(b[s].size);
      && Detached(w, b, {s}, UnlinkWords(w, l.at[s], c), Unlink(l, c, s))
      && (Exact(l, b) ==> Exact(Unlink(l, c, s), b))
  {
    assert EndsAtEdge(b, s) && TagsAt(w, b, s, UNITS);
    LinkWords(w, b, {}, w, l, s);
    DetachOne(w, b, {}, w, l, s);
  }

  ghost function Spots6(a: nat, b: nat, c: nat, d: nat, e: nat, f: nat): (r: set<nat>)
    ensures |r| <= 6
  {
    {a, b, c, d, e, f}
  }

  /** Where the stores of an unlink lie. */
  ghost function UnlinkSpots(x: Link, c: nat): (r: set<nat>)
    ensures |r| <= 2
  {
    {if x.prev.Some? then PtrOf(x.prev) else 4 * c, PtrOf(x.next)}
  }

  /** The blocks that are handed out. */
  ghost function Live(b: Blocks): set<nat> {
    set u | u in b && !b[u].free
  }

  /** The bytes a client may use in the block at `u`. */
  ghost function Payload(m: seq<Byte>, b: Blocks, u: nat): seq<Byte>
    requires u in b && Ptr(End(b, u)) <= |m| && b[u].size >= 1
  {
    m[Ptr(u) + 4..Ptr(End(b, u))]
  }

  /** Every live block but those in `but` is still there, with the same payload. */
  ghost predicate Kept(m: seq<Byte>, b: Blocks, m': seq<Byte>, b': Blocks, but: set<nat>) {
    forall v {:trigger v in Live(b)} :: v in Live(b) && v !in but ==>
      && v in b' && b'[v] == b[v] && b[v].size >= 1 && Ptr(End(b, v)) <= |m| && Ptr(End(b, v)) <= |m'|
      && Payload(m', b', v) == Payload(m, b, v)
  }

  /** A store into one payload changes that payload and no other. */
  lemma PayloadSplice(m: seq<Byte>, b: Blocks, u: nat, k: nat, s: seq<Byte>, v: nat)
    requires |m| == IMAGE_SIZE && Tiling(b) && u in b && v in b
    requires b[u].size >= 1 && End(b, u) <= UNITS && b[v].size >= 1 && End(b, v) <= UNITS
    requires k + |s| <= 16 * b[u].size - 4
    ensures Payload(Splice(m, NodePtr(u) + k, s), b, v) == if v == u then Splice(Payload(m, b, u), k, s)
      else Payload(m, b, v)
  {
    if v != u {
      BlocksApart(b, u, v);
      SpliceOther(m, NodePtr(u) + k, s, Ptr(v) + 4, Ptr(End(b, v)));
    }
  }

  /** A quiet change keeps the payload of every live block outside its span. */
  lemma QuietKept(m: seq<Byte>, w: View, b: Blocks, m': seq<Byte>, w': View, b': Blocks, s: nat, e: nat)
    requires Mirrors(m, w) && Mirrors(m', w') && |m| == |m'|
    requires Tiling(b) && Quiet(w, w', b, s, e) && s in b && IsEdge(b, e) && s < e
    requires forall v :: v in b && !(s <= v < e) ==> v in b' && b'[v] == b[v]
    ensures Kept(m, b, m', b', set v | v in b && s <= v < e)
  {
    forall v | v in Live(b) && !(s <= v < e)
      ensures v in b' && b'[v] == b[v] && b[v].size >= 1 && Ptr(End(b, v)) <= |m| &&
        Payload(m', b', v) == Payload(m, b, v)
    {
      QuietPayload(w, w', b, s, e, v);
      PayloadBytes(m, w, m', w', v, End(b, v));
    }
  }

  /** The live blocks after a block is carved or a span is fused. */
  lemma LiveAfterCarve(b: Blocks, s: nat, n: nat)
    requires Tiling(b) && s in b && b[s].free && 1 <= n <= b[s].size
    ensures var u := End(b, s) - n;
      && u !in Live(b) && Live(Carve(b, s, n)) == Live(b) + {u}
      && u in Carve(b, s, n) && Carve(b, s, n)[u] == Block(n, false)
    ensures forall v :: v in b && !(s <= v < End(b, s)) ==> v in Carve(b, s, n) && Carve(b, s, n)[v] == b[v]
    ensures forall v :: v in Live(b) ==> !(s <= v < End(b, s))
  {
    forall v | v in b && v != s ensures v in Carve(b, s, n) && Carve(b, s, n)[v] == b[v] && v != End(b, s) - n &&
      !(s <= v < End(b, s)) {
      CarveOther(b, s, n, v);
    }
  }

  lemma LiveAfterFuse(b: Blocks, s: nat, e: nat, u: nat)
    requires Tiling(b) && s in b && IsEdge(b, e) && s <= u < e && u in b && !b[u].free
    requires forall x :: x in b && s <= x < e && x != u ==> b[x].free
    ensures Live(Fuse(b, s, e)) == Live(b) - {u}
    ensures forall v :: v in b && !(s <= v < e) ==> v in Fuse(b, s, e) && Fuse(b, s, e)[v] == b[v]
    ensures forall v :: v in Live(b) && s <= v < e ==> v == u
  {
  }

  /** A store inside the payload of a live block leaves every word outside that payload alone. */
  lemma PayloadStoreWord(m: seq<Byte>, o: nat, s: seq<Byte>, u: nat, e: nat, x: nat, k: nat)
    requires |m| >= K_SIZE && u < e <= UNITS && Ptr(u) + 4 <= o && o + |s| <= Ptr(e) && Ptr(e) <= |m|
    requires x <= UNITS && k < 4 && (x == UNITS ==> k == 0) && (x < u || e <= x || (x == u && k == 0))
    ensures UnitWord(Splice(m, o, s), x, k) == UnitWord(m, x, k)
  {
    if x < u {
      assert Offset(x, k) + 4 <= Ptr(u);
    } else if e <= x {
      assert Ptr(e) <= Offset(x, k);
    }
    WordOther(m, o, s, Offset(x, k));
  }

  lemma PayloadStoreView(m: seq<Byte>, w: View, o: nat, s: seq<Byte>, w': View, u: nat, e: nat)
    requires Mirrors(m, w) && u < e <= UNITS && Ptr(u) + 4 <= o && o + |s| <= Ptr(e) && Ptr(e) <= |m|
    requires Mirrors(Splice(m, o, s), w')
    ensures w'.slots == w.slots
    ensures forall x :: 0 <= x <= UNITS && (x <= u || e <= x) ==> w'.hdr[x] == w.hdr[x]
    ensures forall x :: 0 <= x < UNITS && (x < u || e <= x) ==>
      w'.prv[x] == w.prv[x] && w'.nxt[x] == w.nxt[x] && w'.ftr[x] == w.ftr[x]
  {
    var m' := Splice(m, o, s);
    forall i | 0 <= i < NUM_LISTS ensures w'.slots[i] == w.slots[i] {
      WordOther(m, o, s, 4 * i);
      assert SlotWord(m', i) == SlotWord(m, i);
    }
    forall x | 0 <= x <= UNITS && (x <= u || e <= x) ensures w'.hdr[x] == w.hdr[x] {
      PayloadStoreWord(m, o, s, u, e, x, 0);
    }
    forall x | 0 <= x < UNITS && (x < u || e <= x)
      ensures w'.prv[x] == w.prv[x] && w'.nxt[x] == w.nxt[x] && w'.ftr[x] == w.ftr[x] {
      PayloadStoreWord(m, o, s, u, e, x, 1);
      PayloadStoreWord(m, o, s, u, e, x, 2);
      PayloadStoreWord(m, o, s, u, e, x, 3);
    }
  }

  lemma TableStoreView(m: seq<Byte>, w: View, o: nat, s: seq<Byte>)
    requires Mirrors(m, w) && K_SIZE <= o && o + |s| <= |m|
    ensures Mirrors(Splice(m, o, s), w)
  {
    var m' := Splice(m, o, s);
    forall i | 0 <= i < NUM_LISTS ensures SlotWord(m', i) == SlotWord(m, i) {
      WordOther(m, o, s, 4 * i);
    }
    forall x, k | 0 <= x <= UNITS && 0 <= k < 4 && (x == UNITS ==> k == 0)
      ensures UnitWord(m', x, k) == UnitWord(m, x, k) {
      WordOther(m, o, s, Offset(x, k));
    }
  }

  lemma MirrorsShaped(m: seq<Byte>, w: View)
    requires Mirrors(m, w)
    ensures Shaped(w)
  {
  }

  /** Clients cannot damage the allocator by writing to their own payload. */
  lemma PayloadStoreConsistent(w: View, w': View, b: Blocks, l: Lists, u: nat)
    requires Consistent(w, b, l) && Shaped(w') && u in b && !b[u].free && End(b, u) <= UNITS
    requires w'.slots == w.slots
    requires forall x :: 0 <= x <= UNITS && (x <= u || End(b, u) <= x) ==> w'.hdr[x] == w.hdr[x]
    requires forall x :: 0 <= x < UNITS && (x < u || End(b, u) <= x) ==>
      w'.prv[x] == w.prv[x] && w'.nxt[x] == w.nxt[x] && w'.ftr[x] == w.ftr[x]
    ensures Consistent(w', b, l)
  {
    forall x | x in b ensures TagsAt(w', b, x, UNITS) {
      assert TagsAt(w, b, x, UNITS);
      if x != u {
        BlocksApart(b, u, x);
      }
    }
    forall x | x in l.at ensures x < UNITS && w'.prv[x] == PtrOf(l.at[x].prev) && w'.nxt[x] == PtrOf(l.at[x].next) {
      assert x in FreeBlocks(b);
      BlocksApart(b, u, x);
    }
    hide Linked, Tiling, Bounded;
  }

  /** Units needed for a payload of `size` bytes. */
  function UnitsFor(size: nat): nat { (size + 4 + 15) / 16 }

  lemma RoundupUnits(size: nat)
    requires size + 4 <= MAX_BLOCK
    ensures Roundup(size + 4) == 16 * UnitsFor(size) && 1 <= UnitsFor(size) <= MAX_UNITS
    ensures size <= 16 * UnitsFor(size) - 4 < size + 16
  {
  }

  /** Blocks are whole units, so it makes no difference for their room whether the size is rounded up. */
  lemma RoomInUnits(b: Blocks, l: Lists, size: nat)
    ensures NoRoom(b, 16 * UnitsFor(size)) <==> NoRoom(b, size + 4)
    ensures NoHead(b, l, 16 * UnitsFor(size)) <==> NoHead(b, l, size + 4)
  {
    assert forall k: nat :: 16 * k < 16 * UnitsFor(size) <==> 16 * k < size + 4;
  }

  lemma KeptAll(m: seq<Byte>, b: Blocks, m': seq<Byte>, b': Blocks, s: nat, e: nat, but: set<nat>)
    requires Kept(m, b, m', b', set v | v in b && s <= v < e)
    requires forall v :: v in Live(b) && s <= v < e ==> v in but
    ensures Kept(m, b, m', b', but)
  {
  }

  ghost function Zeros(n: nat): seq<nat> { seq(n, _ => 0) }

  ghost function ZeroView(): View {
    View(Zeros(NUM_LISTS), Zeros(UNITS + 1), Zeros(UNITS), Zeros(UNITS), Zeros(UNITS))
  }

  /** An arena of zero bytes has only zero words. */
  lemma ZeroWords(m: seq<Byte>, w: View)
    requires Mirrors(m, w) && forall i :: 0 <= i < K_SIZE ==> m[i] == 0
    ensures w == ZeroView()
  {
    forall i | 0 <= i < NUM_LISTS ensures w.slots[i] == 0 {
      NumberOfZeros(m[4 * i..4 * i + 4]);
      assert w.slots[i] == SlotWord(m, i);
    }
    forall u, k | 0 <= u <= UNITS && 0 <= k < 4 && (u == UNITS ==> k == 0) ensures UnitWord(m, u, k) == 0 {
      NumberOfZeros(m[Offset(u, k)..Offset(u, k) + 4]);
    }
    assert w.hdr == Zeros(UNITS + 1) by {
      assert forall u :: 0 <= u <= UNITS ==> w.hdr[u] == UnitWord(m, u, 0);
    }
    assert w.prv == Zeros(UNITS) by {
      assert forall u :: 0 <= u < UNITS ==> w.prv[u] == UnitWord(m, u, 1);
    }
    assert w.nxt == Zeros(UNITS) by {
      assert forall u :: 0 <= u < UNITS ==> w.nxt[u] == UnitWord(m, u, 2);
    }
    assert w.ftr == Zeros(UNITS) by {
      assert forall u :: 0 <= u < UNITS ==> w.ftr[u] == UnitWord(m, u, 3);
    }
  }

  const NEW_BLOCKS: Blocks := map[0 := Block(UNITS, true)]
  ghost function NewLists(): Lists {
    Lists(seq(NUM_LISTS, i => if i == NUM_LISTS - 1 then Some(0) else None), map[0 := Link(None, None, 0)])
  }

  /** The words that `Format` leaves. */
  ghost function NewView(): View {
    var w := ZeroView();
    w.(slots := w.slots[NUM_LISTS - 1 := FIRST],
       hdr := w.hdr[0 := 16 * UNITS][UNITS := FREE_MASK], ftr := w.ftr[UNITS - 1 := 16 * UNITS])
  }

  /** The state after `Format`: one free block, alone on the last list. */
  lemma AfterFormat()
    ensures Consistent(NewView(), NEW_BLOCKS, NewLists()) && Exact(NewLists(), NEW_BLOCKS)
  {
    var w', b, l := NewView(), NEW_BLOCKS, NewLists();
    assert EndsAtEdge(b, 0);
    assert TagsAt(w', b, 0, UNITS);
    assert forall i | 0 <= i < NUM_LISTS :: HeadOk(l, b, i);
    assert LinkOk(l, b, 0) && IsHead(l, b, 0);
  }

  /** Words and the bytes outside them determine the image. */
  lemma SameWordsSameImage(m: seq<Byte>, m': seq<Byte>, w: View)
    requires Mirrors(m, w) && Mirrors(m', w) && |m| == |m'| && m[WORDS_END..] == m'[WORDS_END..]
    ensures m == m'
  {
    forall i | 0 <= i < |m| ensures m[i] == m'[i] {
      if i >= WORDS_END {
        assert m[i] == m[WORDS_END..][i - WORDS_END] && m'[i] == m'[WORDS_END..][i - WORDS_END];
      } else {
        SameByte(m, m', w, i);
      }
    }
  }

  lemma SameByte(m: seq<Byte>, m': seq<Byte>, w: View, i: nat)
    requires Mirrors(m, w) && Mirrors(m', w) && |m| == |m'| && i < WORDS_END
    ensures m[i] == m'[i]
  {
    var o;
    if i < FIRST {
      var c := i / 4;
      assert w.slots[c] == SlotWord(m, c) && w.slots[c] == SlotWord(m', c);
      o := 4 * c;
    } else {
      var j, k := (i - FIRST) / 16, (i - FIRST) % 16 / 4;
      SameUnitWord(m, m', w, j, k);
      o := Offset(j, k);
    }
    SameWordSameBytes(m, m', o);
    assert m[i] == m[o..o + 4][i - o] && m'[i] == m'[o..o + 4][i - o];
  }

  lemma SameUnitWord(m: seq<Byte>, m': seq<Byte>, w: View, j: nat, k: nat)
    requires Mirrors(m, w) && Mirrors(m', w) && k < 4 && j <= UNITS && (j == UNITS ==> k == 0)
    ensures UnitWord(m, j, k) == UnitWord(m', j, k)
  {
    assert k == 0 ==> w.hdr[j] == UnitWord(m, j, 0) == UnitWord(m', j, 0);
    assert k == 1 ==> w.prv[j] == UnitWord(m, j, 1) == UnitWord(m', j, 1);
    assert k == 2 ==> w.nxt[j] == UnitWord(m, j, 2) == UnitWord(m', j, 2);
    assert k == 3 ==> w.ftr[j] == UnitWord(m, j, 3) == UnitWord(m', j, 3);
  }

  /** A store among the words leaves the rest of the image alone. */
  lemma TailKept(m: seq<Byte>, o: nat, s: seq<Byte>)
    requires |m| == IMAGE_SIZE && o + |s| <= WORDS_END
    ensures Splice(m, o, s)[WORDS_END..K_SIZE] == m[WORDS_END..K_SIZE]
    ensures Splice(m, o, s)[K_SIZE..] == m[K_SIZE..]
  {
  }

  ghost function Spots4(a: nat, b: nat, c: nat, d: nat): (r: set<nat>)
    ensures |r| <= 4
  {
    {a, b, c, d}
  }

  // What a consistent arena means

  /** Every block is where its tags say, none but the first is large, and free and used units add up to the arena. */
  lemma ArenaFacts(w: View, b: Blocks, l: Lists)
    requires Consistent(w, b, l)
    ensures Tiling(b) && Shaped(w) && SizeTag(w.hdr[UNITS]) == 0
    ensures forall u :: u in Walk(b, 0) <==> u in b
    ensures UnitsOf(b, Walk(b, 0), true) + UnitsOf(b, Walk(b, 0), false) == UNITS
    ensures forall u :: u in b ==>
      && u < End(b, u) <= UNITS && SizeTag(w.hdr[u]) == 16 * b[u].size
      && (FreeTag(w.hdr[End(b, u)]) <==> b[u].free) && (b[u].free ==> w.ftr[End(b, u) - 1] == 16 * b[u].size)
      && (u != 0 ==> b[u].size <= 2 * MAX_UNITS) && (!b[u].free ==> b[u].size <= MAX_UNITS)
  {
    WalkMeetsAll(b, 0);
    Conservation(b, 0);
    forall u | u in b ensures TagsAt(w, b, u, UNITS) {
    }
  }

  /**
   Following `next` from the head of list `c` meets exactly the free blocks of `c + 1` units, each once; for the
   last list, those of more than `MAX_BLOCK` bytes.
   */
  lemma FreeListExactness(w: View, b: Blocks, l: Lists, c: nat)
    requires Consistent(w, b, l) && Exact(l, b) && c < NUM_LISTS
    ensures l.heads[c].Some? ==> l.heads[c].unit in l.at
    ensures var ch := Chain(l, b, l.heads[c]);
      && (forall u :: u in ch <==>
            u in b && b[u].free && if c < NUM_LISTS - 1 then b[u].size == c + 1 else 16 * b[u].size > MAX_BLOCK)
      && (forall i, j :: 0 <= i < j < |ch| ==> ch[i] != ch[j])
  {
    assert HeadOk(l, b, c);
    ListExact(l, b, c);
    assert forall u :: u in l.at <==> u in FreeBlocks(b);
    forall u | u in b ensures 1 <= b[u].size {
      assert EndsAtEdge(b, u);
    }
  }

  class Allocator {
    const build: Build
    const base: nat
    /** The tablet image: arena and hash table. */
    const mem: array<Byte>
    var log: seq<Modification>

    ghost var blocks: Blocks
    ghost var lists: Lists
    /** The arena's words, and the bytes after the arena. */
    ghost var w: View
    ghost var table: seq<Byte>
    /** The image when the log was last emptied. */
    ghost var before: seq<Byte>
    /** What the proofs record about the logged stores. */
    ghost var trace: Trace
    /** The few bytes between the sentinel and the end of the arena. */
    ghost var slack: seq<Byte>

    /** The image holds the words in `w` and the log accounts for every change to it. */
    ghost predicate Backed()
      reads this`log, this`trace, this`before, this`w, this`table, this`slack, mem
    {
      && mem.Length == IMAGE_SIZE
      && Mirrors(mem[..], w) && table == mem[K_SIZE..] && slack == mem[WORDS_END..K_SIZE]
      && Accounts(before, mem[..], log, trace, base)
    }

    ghost predicate Valid()
      reads this, mem
    {
      Backed() && Consistent(w, blocks, lists)
    }

    constructor (image: array<Byte>, base: nat, build: Build)
      requires image.Length == IMAGE_SIZE
      modifies image
      ensures mem == image && this.base == base && this.build == build
      ensures Valid() && ListsExact() && blocks == NEW_BLOCKS && log == [] && trace == Trace([], {}, IMAGE_SIZE, false)
      ensures Formatted() && before == mem[..] && mem[K_SIZE..] == old(image[K_SIZE..])
    {
      this.mem, this.base, this.build := image, base, build;
      new;
      Format();
    }

    /** The arena holds what `Format` leaves in it. */
    ghost predicate Formatted()
      reads this`w, this`slack
    {
      w == NewView() && slack == Zeros(K_SIZE - WORDS_END)
    }

    /** Clear the arena and make it one free block. */
    method Format()
      requires mem.Length == IMAGE_SIZE
      modifies this, mem
      ensures Valid() && ListsExact() && blocks == NEW_BLOCKS && log == [] && trace == Trace([], {}, IMAGE_SIZE, false)
      ensures Formatted() && before == mem[..] && mem[K_SIZE..] == old(mem[K_SIZE..])
    {
      hide Accounts, Mirrors, Consistent, Exact, NewView, Zeros;
      ClearArena();
      FormatWords();
      ClearLog();
    }

    /** The `memset` of `Format`. */
    method ClearArena()
      requires mem.Length == IMAGE_SIZE
      modifies this, mem
      ensures Backed() && w == ZeroView() && slack == Zeros(K_SIZE - WORDS_END) && table == old(mem[K_SIZE..]) &&
        !trace.zero
    {
      forall i | 0 <= i < K_SIZE {
        mem[i] := 0;
      }
      ghost var m := mem[..];
      w, table, slack, before := ViewOf(m), mem[K_SIZE..], mem[WORDS_END..K_SIZE], m;
      log, trace := [], Trace([], {}, IMAGE_SIZE, false);
      ZeroWords(m, w);
      hide ViewOf, ZeroView;
    }

    /** The stores of `Format` after the arena is cleared. */
    method FormatWords()
      requires Backed() && w == ZeroView() && !trace.zero
      modifies this`log, this`trace, this`w, mem, this`blocks, this`lists
      ensures Valid() && ListsExact() && blocks == NEW_BLOCKS && w == NewView() && !trace.zero
    {
      AfterFormat();
      hide Backed, Consistent, Exact;
      var blk := FIRST;
      WriteSlot((NUM_LISTS - 1) * 4, blk, NUM_LISTS - 1, (NUM_LISTS - 1) * 4);
      var blkSize := (K_SIZE - blk - 4) / 16 * 16;
      WriteHeader(blk, ResetTag(blkSize), 0, blk);
      WriteFooter(blk + blkSize, blkSize, UNITS, blk + blkSize - 4);
      WriteHeader(blk + blkSize, SetTag(ReadHeader(blk + blkSize, UNITS)), UNITS, blk + blkSize - 4);
      blocks, lists := NEW_BLOCKS, NewLists();
    }

    /** Every free block can be found from the free-list table. */
    ghost predicate ListsExact()
      reads this`lists, this`blocks
    {
      Exact(lists, blocks)
    }

    /** Every store to the image: write the bytes and log them. */
    method Store(o: nat, s: seq<Byte>, ghost at: nat)
      requires Accounts(before, mem[..], log, trace, base) && o + |s| <= mem.Length && |s| <= MAX_BLOCK
      requires |log| == |trace.sites| && SiteOk(log + [Modification(o, base + o, |s|)], trace.sites + [at], |log|)
      modifies this`log, this`trace, mem
      ensures mem[..] == Splice(old(mem[..]), o, s)
      ensures log == old(log) + [Modification(o, base + o, |s|)] && trace == old(trace).Noted(at, o)
      ensures Accounts(before, mem[..], log, trace, base)
    {
      hide Accounts;
      AccountsStep(before, mem[..], log, trace, base, o, s, at);
      ghost var m := mem[..];
      forall i | 0 <= i < |s| {
        mem[o + i] := s[i];
      }
      assert mem[..] == Splice(m, o, s);
      log, trace := log + [Modification(o, base + o, |s|)], trace.Noted(at, o);
    }

    /** The store of one word of the arena. */
    method StoreWord(o: nat, v: nat, ghost at: nat)
      requires Backed() && o + 4 <= WORDS_END && v < 0x1_0000_0000 && at <= o <= at + 16
      modifies this`log, this`trace, mem
      ensures mem[..] == Splice(old(mem[..]), o, Digits(v, 4)) && Accounts(before, mem[..], log, trace, base)
      ensures table == mem[K_SIZE..] && slack == mem[WORDS_END..K_SIZE]
      ensures |log| == |old(log)| + 1 && trace == old(trace).Noted(at, o)
    {
      assert |log| == |trace.sites|;
      hide Accounts, Mirrors, Splice, Digits;
      ghost var m := mem[..];
      TailKept(m, o, Digits(v, 4));
      Store(o, Digits(v, 4), at);
      ghost var m' := mem[..];
      assert mem[K_SIZE..] == m'[K_SIZE..] && mem[WORDS_END..K_SIZE] == m'[WORDS_END..K_SIZE];
    }

    // Typed reads and stores of the arena's words. `u` is the unit that `blk` points at.

    function ReadSlot(list: nat, ghost c: nat): (v: nat)
      requires Backed() && list == 4 * c && c < NUM_LISTS
      reads this`log, this`trace, this`before, this`w, this`table, this`slack, mem
      ensures v == w.slots[c] && v < 0x1_0000_0000
    {
      assert w.slots[c] == SlotWord(mem[..], c);
      Word(mem[..], list)
    }

    function ReadHeader(blk: nat, ghost u: nat): (v: nat)
      requires Backed() && blk == Ptr(u) && u <= UNITS
      reads this`log, this`trace, this`before, this`w, this`table, this`slack, mem
      ensures v == w.hdr[u] && v < 0x1_0000_0000
    {
      assert w.hdr[u] == UnitWord(mem[..], u, 0);
      Word(mem[..], blk)
    }

    function ReadPrev(blk: nat, ghost u: nat): (v: nat)
      requires Backed() && blk == Ptr(u) && u < UNITS
      reads this`log, this`trace, this`before, this`w, this`table, this`slack, mem
      ensures v == w.prv[u] && v < 0x1_0000_0000
    {
      assert w.prv[u] == UnitWord(mem[..], u, 1);
      Word(mem[..], blk + 4)
    }

    function ReadNext(blk: nat, ghost u: nat): (v: nat)
      requires Backed() && blk == Ptr(u) && u < UNITS
      reads this`log, this`trace, this`before, this`w, this`table, this`slack, mem
      ensures v == w.nxt[u] && v < 0x1_0000_0000
    {
      assert w.nxt[u] == UnitWord(mem[..], u, 2);
      Word(mem[..], blk + 8)
    }

    /** The word before a block: the last word of the block before it, or the last free-list head. */
    function ReadBefore(blk: nat, ghost u: nat): (v: nat)
      requires Backed() && blk == Ptr(u) && u <= UNITS
      reads this`log, this`trace, this`before, this`w, this`table, this`slack, mem
      ensures v < 0x1_0000_0000 && (u > 0 ==> v == w.ftr[u - 1])
    {
      assert u > 0 ==> w.ftr[u - 1] == UnitWord(mem[..], u - 1, 3);
      Word(mem[..], blk - 4)
    }

    method WriteSlot(list: nat, v: nat, ghost c: nat, ghost at: nat)
      requires Backed() && list == 4 * c && c < NUM_LISTS && v < 0x1_0000_0000
      requires at <= list <= at + 16
      modifies this`log, this`trace, this`w, mem
      ensures Backed() && |log| == |old(log)| + 1 && trace.spots == old(trace.spots) + {at}
      ensures trace.low <= old(trace.low) && trace.low <= list && (trace.zero <==> old(trace.zero) || list == 0)
      ensures w == old(w).(slots := old(w).slots[c := v])
    {
      hide Accounts, Mirrors, Splice, Digits;
      MirrorsShaped(mem[..], w);
      PutSlot(mem[..], w, c, v);
      StoreWord(list, v, at);
      w := w.(slots := w.slots[c := v]);
    }

    method WriteHeader(blk: nat, v: nat, ghost u: nat, ghost at: nat)
      requires Backed() && v < 0x1_0000_0000
      requires blk == Ptr(u) && u <= UNITS && at <= blk <= at + 16
      modifies this`log, this`trace, this`w, mem
      ensures Backed() && |log| == |old(log)| + 1 && trace.spots == old(trace.spots) + {at}
      ensures trace.low <= old(trace.low) && trace.zero == old(trace.zero)
      ensures w == old(w).(hdr := old(w).hdr[u := v])
    {
      hide Accounts, Mirrors, Splice, Digits;
      MirrorsShaped(mem[..], w);
      PutHeader(mem[..], w, u, v);
      StoreWord(blk, v, at);
      w := w.(hdr := w.hdr[u := v]);
    }

    method WritePrev(blk: nat, v: nat, ghost u: nat, ghost at: nat)
      requires Backed() && v < 0x1_0000_0000
      requires blk == Ptr(u) && u < UNITS && at <= blk + 4 <= at + 16
      modifies this`log, this`trace, this`w, mem
      ensures Backed() && |log| == |old(log)| + 1 && trace.spots == old(trace.spots) + {at}
      ensures trace.low <= old(trace.low) && trace.zero == old(trace.zero)
      ensures w == old(w).(prv := old(w).prv[u := v])
    {
      hide Accounts, Mirrors, Splice, Digits;
      MirrorsShaped(mem[..], w);
      PutPrev(mem[..], w, u, v);
      StoreWord(blk + 4, v, at);
      w := w.(prv := w.prv[u := v]);
    }

    method WriteNext(blk: nat, v: nat, ghost u: nat, ghost at: nat)
      requires Backed() && v < 0x1_0000_0000
      requires blk == Ptr(u) && u < UNITS && at <= blk + 8 <= at + 16
      modifies this`log, this`trace, this`w, mem
      ensures Backed() && |log| == |old(log)| + 1 && trace.spots == old(trace.spots) + {at}
      ensures trace.low <= old(trace.low) && trace.zero == old(trace.zero)
      ensures w == old(w).(nxt := old(w).nxt[u := v])
    {
      hide Accounts, Mirrors, Splice, Digits;
      MirrorsShaped(mem[..], w);
      PutNext(mem[..], w, u, v);
      StoreWord(blk + 8, v, at);
      w := w.(nxt := w.nxt[u := v]);
    }

    /** Store the last word of the block that ends at `end`. */
    method WriteFooter(end: nat, v: nat, ghost e: nat, ghost at: nat)
      requires Backed() && v < 0x1_0000_0000
      requires end == Ptr(e) && 0 < e <= UNITS && at <= end - 4 <= at + 16
      modifies this`log, this`trace, this`w, mem
      ensures Backed() && |log| == |old(log)| + 1 && trace.spots == old(trace.spots) + {at}
      ensures trace.low <= old(trace.low) && trace.zero == old(trace.zero)
      ensures w == old(w).(ftr := old(w).ftr[e - 1 := v])
    {
      hide Accounts, Mirrors, Splice, Digits;
      MirrorsShaped(mem[..], w);
      PutFooter(mem[..], w, e - 1, v);
      StoreWord(end - 4, v, at);
      w := w.(ftr := w.ftr[e - 1 := v]);
    }

    /** Take a free block off its list; it stays free. */
    method RemoveBlock(blk: nat, size: nat, ghost u: nat, ghost w0: View, ghost gone: set<nat>)
      returns (ghost at: set<nat>)
      requires Backed() && Detached(w0, blocks, gone, w, lists)
      requires blk == Ptr(u) && u in lists.at && u in blocks && size == 16 * blocks[u].size > 0
      modifies this`log, this`trace, this`w, mem, this`lists
      ensures Backed() && |log| <= |old(log)| + 2 && trace.spots <= old(trace.spots) + at && |at| <= 2
      ensures Detached(w0, blocks, gone + {u}, w, lists)
      ensures old(ListsExact()) ==> ListsExact()
      ensures lists == Unlink(old(lists), ClassOf(blocks[u].size), u)
      ensures trace.low <= old(trace.low) && (trace.zero <==> old(trace.zero) || SmallHead(blocks, old(lists), u))
    {
      hide Backed, Detached, Exact, ClassOf, Unlink, FreeListOf;
      ghost var x, c := lists.at[u], ClassOf(blocks[u].size);
      DetachOne(w0, blocks, gone, w, lists, u);
      LinkWords(w0, blocks, gone, w, lists, u);
      ListOffset(blocks[u].size);
      ClassZero(blocks[u].size);
      at := UnlinkSpots(x, c);
      var prev, next := ReadPrev(blk, u), ReadNext(blk, u);
      if prev != 0 {
        WriteNext(prev, next, x.prev.unit, prev);
      } else {
        var list := FreeListOf(size);
        WriteSlot(list, next, c, list);
      }
      if next != 0 {
        WritePrev(next, prev, x.next.unit, next);
      }
      lists := Unlink(lists, c, u);
    }

    /** Store the boundary tags of a free block from `s` to `e`. */
    method TagFree(blk: nat, size: nat, changed: bool, ghost s: nat, ghost e: nat, ghost at: set<nat>)
      requires Backed() && Shaped(w) && s < e <= UNITS && blk == Ptr(s) && size == 16 * (e - s)
      requires (!changed ==> SizeTag(w.hdr[s]) == size) && blk in at && blk + size - 4 in at
      modifies this`log, this`trace, this`w, mem
      ensures Backed() && |log| <= |old(log)| + 3 && trace.spots <= old(trace.spots) + at
      ensures Shaped(w) && trace.low <= old(trace.low) && trace.zero == old(trace.zero)
      ensures w == old(w).(hdr := old(w).hdr[s := PrevTag(old(w).hdr[s]) + size][e := SetTag(old(w).hdr[e])],
                           ftr := if changed || build.alwaysWritesFooter then old(w).ftr[e - 1 := size] else old(w).ftr)
    {
      hide Backed;
      if changed {
        WriteHeader(blk, PrevTag(ReadHeader(blk, s)) + size, s, blk);
      }
      if changed || build.alwaysWritesFooter {
        WriteFooter(blk + size, size, e, blk + size - 4);
      }
      WriteHeader(blk + size, SetTag(ReadHeader(blk + size, e)), e, blk + size - 4);
      assert w.hdr == old(w).hdr[s := PrevTag(old(w).hdr[s]) + size][e := SetTag(old(w).hdr[e])];
    }

    /** Put a block at the front of a free list. */
    method PushFront(blk: nat, list: nat, ghost s: nat, ghost c: nat, ghost h: Option, ghost at: set<nat>)
      requires list in at && blk in at && PtrOf(h) in at
      requires Backed() && blk == Ptr(s) && s < UNITS && list == 4 * c && c < NUM_LISTS
      requires Shaped(w) && w.slots[c] == PtrOf(h) && (h.Some? ==> h.unit < UNITS)
      modifies this`log, this`trace, this`w, mem
      ensures Backed() && Shaped(w) && |log| <= |old(log)| + 4 && trace.spots <= old(trace.spots) + at
      ensures trace.low <= list && trace.low <= old(trace.low) && (trace.zero <==> old(trace.zero) || list == 0)
      ensures w == PushWords(old(w), h, c, s)
    {
      hide Backed;
      var head := ReadSlot(list, c);
      WriteSlot(list, blk, c, list);
      WritePrev(blk, 0, s, blk);
      WriteNext(blk, head, s, blk);
      if head != 0 {
        WritePrev(head, blk, h.unit, head);
      }
    }

    /** The end of `FreeBlock`: tag the block from `s` to `e` as free and put it on its list. */
    method Release(blk: nat, size: nat, changed: bool, ghost s: nat, ghost e: nat, ghost w0: View, ghost gone: set<nat>)
      returns (ghost at: set<nat>)
      requires Backed() && Tiling(blocks) && Bounded(blocks) && Tags(w0, blocks) && Detached(w0, blocks, gone, w, lists)
      requires s in blocks && IsEdge(blocks, e) && s < e <= UNITS && (s != 0 ==> e - s <= 2 * MAX_UNITS)
      requires forall x :: x in blocks && blocks[x].free ==> (x in gone <==> s <= x < e)
      requires blk == Ptr(s) && size == 16 * (e - s) && (!changed ==> SizeTag(w.hdr[s]) == size)
      modifies this`log, this`trace, this`w, mem, this`lists, this`blocks
      ensures Backed() && |log| <= |old(log)| + 7 && trace.spots <= old(trace.spots) + at && |at| <= 4
      ensures Tiling(blocks) && Bounded(blocks) && blocks == Fuse(old(blocks), s, e)
      ensures lists == On(old(lists), e - s, s)
      ensures Consistent(w, blocks, lists) <==> (changed || build.alwaysWritesFooter || w0.ftr[e - 1] == size)
      ensures old(ListsExact()) ==> ListsExact()
      ensures trace.low < FIRST && (trace.zero <==> old(trace.zero) || e - s == 1)
      ensures Quiet(w0, w, old(blocks), s, e)
    {
      hide Backed, Detached, Tiling, Bounded, TagsBut, Tags, Exact, ClassOf, FreeListOf, Quiet, Consistent, Push,
        Fuse, IsEdge,
        PushWords, PtrOf, PrevTag, SetTag;
      ghost var w1, l1, c := w, lists, ClassOf(e - s);
      HeadWord(w0, blocks, gone, w, lists, c);
      ListOffset(e - s);
      ClassZero(e - s);
      ghost var h := l1.heads[c];
      at := Spots4(blk, blk + size - 4, 4 * c, PtrOf(h));
      TagFree(blk, size, changed, s, e, at);
      PushFront(blk, FreeListOf(size), s, c, h, at);
      AfterRelease(w0, blocks, gone, w1, l1, s, e, changed || build.alwaysWritesFooter, w);
      blocks, lists := Fuse(blocks, s, e), Push(l1, c, s);
    }

    /** First step of `FreeBlock`: take in the block before, if it is free and small. */
    method CoalescePrev(blk: nat, size: nat, ghost u: nat)
      returns (blk': nat, size': nat, ghost s: nat, ghost gone: set<nat>, ghost at: set<nat>)
      requires Valid() && u in blocks && !blocks[u].free && blk == Ptr(u) && size == 16 * blocks[u].size
      modifies this`log, this`trace, this`w, mem, this`lists
      ensures Backed() && |log| <= |old(log)| + 2 && trace.spots <= old(trace.spots) + at && |at| <= 2
      ensures Detached(old(w), blocks, gone, w, lists) && (old(ListsExact()) ==> ListsExact())
      ensures s <= u && s in blocks && blk' == Ptr(s) && size' == size + 16 * (u - s)
      ensures gone == if s == u then {} else {s}
      ensures s != u ==> s in old(lists).at
      ensures lists == if s == u then old(lists) else Unlink(old(lists), ClassOf(blocks[s].size), s)
      ensures trace.zero <==> old(trace.zero) || (s != u && SmallHead(blocks, old(lists), s))
      ensures if s == u then forall q :: !AbsorbsPrev(blocks, u, q) else AbsorbsPrev(blocks, u, s)
    {
      SizesSmall(w, blocks, u);
      DetachedNone(w, blocks, lists);
      hide Backed, Detached, Consistent, Exact, AbsorbsPrev, SmallHead, Unlink, ClassOf, Minus32, Ptr, FreeTag;
      ghost var p := PrevCases(w, blocks, lists, u);
      var prevSize := ReadBefore(blk, u);
      var prevBlk := Minus32(blk, prevSize);
      blk', size', s, gone, at := blk, size, u, {}, {};
      if FreeTag(ReadHeader(blk, u)) && size <= MAX_BLOCK && prevSize <= MAX_BLOCK {
        PrevAddress(u, p, prevSize);
        at := RemoveBlock(prevBlk, prevSize, p, w, {});
        blk', size', s, gone := prevBlk, size + prevSize, p, {} + {p};
        assert gone == {s};
      }
    }

    /** Second step of `FreeBlock`: take in the block after, if it is free and both parts are small. */
    method CoalesceNext(size: nat, next: nat, nextSize: nat, ghost u: nat, ghost s: nat, ghost w0: View,
                        ghost gone: set<nat>)
      returns (size': nat, ghost e: nat, ghost gone': set<nat>, ghost at: set<nat>)
      requires Backed() && Tiling(blocks) && Tags(w0, blocks) && Detached(w0, blocks, gone, w, lists)
      requires u in blocks && !blocks[u].free && s <= u && End(blocks, u) !in gone
      requires next == Ptr(End(blocks, u)) && size == 16 * (End(blocks, u) - s)
      requires End(blocks, u) <= UNITS && nextSize == SizeTag(w0.hdr[End(blocks, u)])
      modifies this`log, this`trace, this`w, mem, this`lists
      ensures Backed() && |log| <= |old(log)| + 2 && trace.spots <= old(trace.spots) + at && |at| <= 2
      ensures Detached(w0, blocks, gone', w, lists) && (old(ListsExact()) ==> ListsExact())
      ensures trace.zero <==>
        old(trace.zero) || (AbsorbsNext(blocks, s, u) && SmallHead(blocks, old(lists), End(blocks, u)))
      ensures lists == if AbsorbsNext(blocks, s, u) then Off(blocks, old(lists), End(blocks, u)) else old(lists)
      ensures e <= UNITS && IsEdge(blocks, e) && size' == 16 * (e - s)
      ensures if AbsorbsNext(blocks, s, u) then e == End(blocks, End(blocks, u)) && gone' == gone + {End(blocks, u)}
              else e == End(blocks, u) && gone' == gone
    {
      NextTagged(w0, blocks, u);
      e := End(blocks, u);
      SameTags(w0, blocks, gone, w, lists, e);
      NextAbsorbed(w0, blocks, u, s);
      hide Backed, Detached, Tiling, TagsBut, Exact, SmallHead, Unlink, ClassOf, AbsorbsNext;
      ghost var f := if e == UNITS then e else End(blocks, e);
      size', gone', at := size, gone, {};
      if FreeTag(ReadHeader(next + nextSize, f)) && size <= MAX_BLOCK && nextSize <= MAX_BLOCK {
        at := RemoveBlock(next, nextSize, e, w0, gone);
        size', e, gone' := size + nextSize, f, gone + {e};
      }
    }

    /** Free a block, coalescing it with small free neighbours; the freed span is `s` to `e`. */
    method FreeBlock(blk: nat, ghost u: nat) returns (ghost s: nat, ghost e: nat, ghost at: set<nat>)
      requires Valid() && u in blocks && !blocks[u].free && blk == Ptr(u)
      modifies this`log, this`trace, this`w, mem, this`lists, this`blocks
      ensures Backed() && |log| <= |old(log)| + 11 && trace.spots <= old(trace.spots) + at && |at| <= 8
      ensures Tiling(blocks) && Bounded(blocks)
      ensures s in old(blocks) && IsEdge(old(blocks), e) && s <= u < e <= UNITS && blocks == Fuse(old(blocks), s, e)
      ensures forall x :: x in old(blocks) && s <= x < e && x != u ==> old(blocks)[x].free
      ensures s == SpanStart(old(blocks), u) && e == SpanEnd(old(blocks), u)
      ensures lists == ListsAfterFreeing(old(blocks), old(lists), u)
      ensures End(old(blocks), u) <= UNITS && |old(w).ftr| == UNITS
      ensures Valid() <==>
        || build.alwaysWritesFooter || Coalesces(old(blocks), u)
        || old(w).ftr[End(old(blocks), u) - 1] == 16 * old(blocks)[u].size
      ensures trace.low < FIRST && (trace.zero <==> old(trace.zero) || FreeTrips(old(blocks), old(lists), u))
      ensures old(ListsExact()) ==> ListsExact()
      ensures Quiet(old(w), w, old(blocks), s, e)
    {
      hide Backed, Consistent, Detached, Tiling, Bounded, Tags, Exact, Quiet, Fuse, AbsorbsPrev, AbsorbsNext, IsEdge,
        SmallHead, Unlink, ClassOf, Coalesces, On, Off, ListsAfterFreeing, FreeTrips, SpanStart, SpanEnd;
      ghost var w0, b, l := w, blocks, lists;
      FreeFacts(w0, b, lists, u);
      var size := SizeTag(ReadHeader(blk, u));
      var next := blk + size;
      var nextSize := SizeTag(ReadHeader(next, End(b, u)));
      var blk', size1;
      ghost var gone, gone', at1, at2;
      blk', size1, s, gone, at1 := CoalescePrev(blk, size, u);
      var size2;
      size2, e, gone', at2 := CoalesceNext(size1, next, nextSize, u, s, w0, gone);
      SpanFacts(w0, b, l, u, s, e, gone, gone');
      SameTags(w0, b, gone', w, lists, e);
      ghost var at3 := Release(blk', size2, size2 != size, s, e, w0, gone');
      at := at1 + at2 + at3;
    }

    /** Replace the head of a list by its successor. Without the guard, a missing successor's `prev` is offset 4. */
    method PopHead(list: nat, next: nat, guard: bool, ghost c: nat, ghost x: Link, ghost at: set<nat>)
      requires Backed() && Shaped(w) && list == 4 * c && c < NUM_LISTS
      requires x.prev == None && next == PtrOf(x.next) < 0x1_0000_0000 && (x.next.Some? ==> x.next.unit < UNITS)
      requires list in at && (if next == 0 then 4 else next) in at
      modifies this`log, this`trace, this`w, mem
      ensures Backed() && Shaped(w) && |log| <= |old(log)| + 2 && trace.spots <= old(trace.spots) + at
      ensures trace.low <= list && trace.low <= old(trace.low) && (trace.zero <==> old(trace.zero) || list == 0)
      ensures var w1 := UnlinkWords(old(w), x, c);
        w == if next == 0 && !guard then w1.(slots := Set(w1.slots, 1, 0)) else w1
    {
      hide Backed;
      WriteSlot(list, next, c, list);
      if next != 0 {
        WritePrev(next, 0, x.next.unit, next);
      } else if !guard {
        WriteSlot(4, 0, 1, 4);
      }
    }

    /** Store the tags of what is left of a split block, from `s` to `k`. */
    method TagRest(blk: nat, size: nat, ghost s: nat, ghost k: nat, ghost at: set<nat>)
      requires Backed() && Shaped(w) && s < k <= UNITS && blk == Ptr(s) && size == 16 * (k - s)
      requires blk in at && blk + size - 4 in at
      modifies this`log, this`trace, this`w, mem
      ensures Backed() && Shaped(w) && |log| <= |old(log)| + 2 && trace.spots <= old(trace.spots) + at
      ensures trace.low <= old(trace.low) && trace.zero == old(trace.zero)
      ensures w == old(w).(hdr := old(w).hdr[s := PrevTag(old(w).hdr[s]) + size], ftr := old(w).ftr[k - 1 := size])
    {
      hide Backed;
      WriteHeader(blk, PrevTag(ReadHeader(blk, s)) + size, s, blk);
      WriteFooter(blk + size, size, k, blk + size - 4);
    }

    /** Put what is left of a split block at the front of its list. */
    method PushRest(blk: nat, list: nat, ghost s: nat, ghost c: nat, ghost h: Option, ghost at: set<nat>)
      requires Backed() && blk == Ptr(s) && s < UNITS && list == 4 * c && c < NUM_LISTS
      requires Shaped(w) && w.slots[c] == PtrOf(h) && (h.Some? ==> h.unit < UNITS)
      requires list in at && blk in at && PtrOf(h) in at
      modifies this`log, this`trace, this`w, mem
      ensures Backed() && Shaped(w) && |log| <= |old(log)| + 4 && trace.spots <= old(trace.spots) + at
      ensures trace.low <= list && trace.low <= old(trace.low) && (trace.zero <==> old(trace.zero) || list == 0)
      ensures w == PushWords(old(w), h, c, s)
    {
      hide Backed;
      var head := ReadSlot(list, c);
      WritePrev(blk, 0, s, blk);
      WriteNext(blk, head, s, blk);
      WriteSlot(list, blk, c, list);
      if head != 0 {
        WritePrev(head, blk, h.unit, head);
      }
    }

    /** Store the tags of the piece split off, from `k` to `e`: made free first, then used. */
    method TagPiece(blk: nat, size: nat, ghost k: nat, ghost e: nat, ghost at: set<nat>)
      requires Backed() && Shaped(w) && 0 < k < e <= UNITS && blk == Ptr(k) && size == 16 * (e - k)
      requires blk - 4 in at && blk + size - 4 in at
      modifies this`log, this`trace, this`w, mem
      ensures Backed() && Shaped(w) && |log| <= |old(log)| + 3 && trace.spots <= old(trace.spots) + at
      ensures trace.low <= old(trace.low) && trace.zero == old(trace.zero)
      ensures w == old(w).(hdr := old(w).hdr[k := FREE_MASK + size][e := ResetTag(old(w).hdr[e])],
        ftr := old(w).ftr[e - 1 := size])
    {
      hide Backed;
      WriteHeader(blk, FREE_MASK + size, k, blk - 4);
      WriteFooter(blk + size, size, e, blk + size - 4);
      WriteHeader(blk + size, ResetTag(ReadHeader(blk + size, e)), e, blk + size - 4);
    }

    /** The stores of a split after the block is off its list. */
    method SplitStores(blk: nat, newSize: nat, needed: nat, list: nat,
                       ghost h: Option, ghost c: nat, ghost s: nat, ghost k: nat, ghost e: nat, ghost at: set<nat>)
      requires Backed() && Shaped(w) && s < k < e <= UNITS && c < NUM_LISTS && list == 4 * c
      requires w.slots[c] == PtrOf(h) && (h.Some? ==> h.unit < UNITS)
      requires blk == Ptr(s) && newSize == 16 * (k - s) && needed == 16 * (e - k)
      requires blk in at && blk + newSize - 4 in at && list in at && PtrOf(h) in at && blk + newSize + needed - 4 in at
      modifies this`log, this`trace, this`w, mem
      ensures Backed() && |log| <= |old(log)| + 9 && trace.spots <= old(trace.spots) + at
      ensures trace.low <= old(trace.low) && (trace.zero <==> old(trace.zero) || list == 0)
      ensures w == SplitImage(old(w), h, c, s, k, e)
    {
      hide Backed, PrevTag, ResetTag;
      TagRest(blk, newSize, s, k, at);
      PushRest(blk, list, s, c, h, at);
      TagPiece(blk + newSize, needed, k, e, at);
    }

    /** All the stores of a split. */
    method PopAndSplit(blk: nat, newSize: nat, needed: nat, list: nat, next: nat, list': nat, ghost x: Link,
                       ghost c: nat,
                       ghost h: Option, ghost c': nat, ghost s: nat, ghost k: nat, ghost e: nat, ghost at: set<nat>)
      requires Backed() && Shaped(w) && s < k < e <= UNITS && c < NUM_LISTS && list == 4 * c && c' < NUM_LISTS &&
        list' == 4 * c'
      requires x.prev == None && next == PtrOf(x.next) < 0x1_0000_0000 && (x.next.Some? ==> x.next.unit < UNITS)
      requires Shaped(UnlinkWords(w, x, c)) && UnlinkWords(w, x, c).slots[c'] == PtrOf(h) &&
        (h.Some? ==> h.unit < UNITS)
      requires blk == Ptr(s) && newSize == 16 * (k - s) && needed == 16 * (e - k)
      requires list in at && (if next == 0 then 4 else next) in at && blk in at && blk + newSize - 4 in at
      requires list' in at && PtrOf(h) in at && blk + newSize + needed - 4 in at
      modifies this`log, this`trace, this`w, mem
      ensures Backed() && |log| <= |old(log)| + 11 && trace.spots <= old(trace.spots) + at
      ensures trace.low <= list && (trace.zero <==> old(trace.zero) || list == 0 || list' == 0)
      ensures w == SplitImage(UnlinkWords(old(w), x, c), h, c', s, k, e)
    {
      hide Backed, UnlinkWords, SplitImage, PtrOf;
      PopHead(list, next, true, c, x, at);
      SplitStores(blk, newSize, needed, list', h, c', s, k, e, at);
    }

    /** Split `needed` bytes off the high end of the block at the head of a list. */
    method SplitBlock(blk: nat, size: nat, needed: nat, ghost s: nat, ghost n: nat) returns (r: nat, ghost at: set<nat>)
      requires Valid() && s in lists.at && s in blocks && lists.at[s].prev == None && n <= MAX_UNITS
      requires blk == Ptr(s) && size == 16 * blocks[s].size && needed == 16 * n && 1 <= n < blocks[s].size
      modifies this`log, this`trace, this`w, mem, this`lists, this`blocks
      ensures Valid() && |log| <= |old(log)| + 11
      ensures r == Ptr(End(old(blocks), s) - n) && trace.spots <= old(trace.spots) + (at + {r - 4}) && |at| <= 6
      ensures blocks == Carve(old(blocks), s, n)
      ensures lists == ListsAfterTaking(build.guardsNullNext, old(blocks), old(lists), s, n)
      ensures old(ListsExact()) ==> ListsExact()
      ensures trace.low < FIRST && (trace.zero <==> old(trace.zero) || old(blocks)[s].size == n + 1)
      ensures 0 < End(old(blocks), s) <= UNITS == |w.ftr| && w.ftr[End(old(blocks), s) - 1] == 16 * n
      ensures Quiet(old(w), w, old(blocks), s, End(old(blocks), s))
    {
      hide Backed, Detached, Consistent, Exact, ClassOf, FreeListOf, Quiet, Carve, Push, Unlink, UnlinkWords,
        SplitImage, PtrOf, ListsAfterTaking;
      ghost var w0, b, l0 := w, blocks, lists;
      ghost var e, c, c' := End(b, s), ClassOf(b[s].size), ClassOf(b[s].size - n);
      SplitFacts(w0, b, l0, s);
      SplitOffsets(b[s].size, n);
      var next := ReadNext(blk, s);
      var list, newSize := FreeListOf(size), size - needed;
      var list' := FreeListOf(newSize);
      ghost var w1, l1 := UnlinkWords(w, l0.at[s], c), Unlink(l0, c, s);
      HeadWord(w0, b, {s}, w1, l1, c');
      ghost var h := l1.heads[c'];
      r := blk + newSize;
      at := Spots6(list, if next == 0 then 4 else next, blk, list', PtrOf(h), blk + size - 4);
      AfterSplitImage(w0, b, l0, s, n, w1, l1, c');
      PopAndSplit(blk, newSize, needed, list, next, list', l0.at[s], c, h, c', s, e - n, e, at + {r - 4});
      SplitTakes(build.guardsNullNext, b, l0, s, n);
      blocks, lists := Carve(b, s, n), Push(l1, c', s);
    }

    /** The stores of an exact fit: the block that starts at `end` learns of it, and the list loses its head. */
    method UseStores(end: nat, list: nat, next: nat, ghost x: Link, ghost c: nat, ghost e: nat, ghost at: set<nat>)
      requires Backed() && Shaped(w) && list == 4 * c && c < NUM_LISTS && end == Ptr(e) && 0 < e <= UNITS
      requires x.prev == None && next == PtrOf(x.next) < 0x1_0000_0000 && (x.next.Some? ==> x.next.unit < UNITS)
      requires list in at && (if next == 0 then 4 else next) in at && end - 4 in at
      modifies this`log, this`trace, this`w, mem
      ensures Backed() && |log| <= |old(log)| + 3 && trace.spots <= old(trace.spots) + at
      ensures trace.low <= list && (trace.zero <==> old(trace.zero) || list == 0)
      ensures var w2 := UnlinkWords(old(w), x, c).(hdr := old(w).hdr[e := ResetTag(old(w).hdr[e])]);
        Shaped(w2) && w == if next == 0 && !build.guardsNullNext then w2.(slots := Set(w2.slots, 1, 0)) else w2
    {
      hide Backed, PtrOf;
      UnlinkHeader(w, x, c, w.hdr[e := ResetTag(w.hdr[e])]);
      WriteHeader(end, ResetTag(ReadHeader(end, e)), e, end - 4);
      PopHead(list, next, build.guardsNullNext, c, x, at);
    }

    /** The exact-fit branch of `AllocBlock`: hand out the whole block at the head of a list. */
    method UseBlock(blk: nat, size: nat, list: nat, ghost s: nat) returns (ghost at: set<nat>)
      requires Valid() && s in lists.at && s in blocks && lists.at[s].prev == None && blocks[s].size <= MAX_UNITS
      requires blk == Ptr(s) && size == 16 * blocks[s].size && list == 4 * ClassOf(blocks[s].size)
      modifies this`log, this`trace, this`w, mem, this`lists, this`blocks
      ensures Valid() && |log| <= |old(log)| + 3 && trace.spots <= old(trace.spots) + at && |at| <= 4
      ensures blocks == Carve(old(blocks), s, old(blocks)[s].size)
      ensures lists ==
        ListsAfterTaking(build.guardsNullNext, old(blocks), old(lists), s, old(blocks)[s].size)
      ensures trace.low < FIRST && (trace.zero <==> old(trace.zero) || old(blocks)[s].size == 1)
      ensures 0 < End(old(blocks), s) <= UNITS == |w.ftr| && w.ftr[End(old(blocks), s) - 1] == 16 * old(blocks)[s].size
      ensures old(ListsExact()) ==>
        (ListsExact() <==> build.guardsNullNext || !LosesList(old(lists), old(blocks), s))
      ensures Quiet(old(w), w, old(blocks), s, End(old(blocks), s))
    {
      hide Backed, Detached, Consistent, Exact, ClassOf, Quiet, Carve, UnlinkWords, ListsAfterTaking;
      ghost var w0, b, l0 := w, blocks, lists;
      ghost var e, c := End(b, s), ClassOf(b[s].size);
      SplitFacts(w0, b, l0, s);
      ClassZero(b[s].size);
      ghost var l1 := Unlink(l0, c, s);
      var next := ReadNext(blk, s);
      at := Spots4(blk + size - 4, list, if next == 0 then 4 else next, list);
      UseStores(blk + size, list, next, l0.at[s], c, e, at);
      ghost var w1 := UnlinkWords(w0, l0.at[s], c);
      ghost var w2 := w1.(hdr := w0.hdr[e := ResetTag(w0.hdr[e])]);
      AfterUse(w0, b, l0, s, w1, l1, w2);
      AfterClear(w2, Carve(b, s, b[s].size), l1);
      ClearQuiet(w0, w2, b, s, e);
      blocks := Carve(b, s, b[s].size);
      UseTakes(build.guardsNullNext, b, l0, s);
      lists := if next == 0 && !build.guardsNullNext then l1.(heads := l1.heads[1 := None]) else l1;
    }

    /** The search of `AllocBlock`: the first non-empty list from the class of `size` up. */
    method FindHead(size: nat, ghost n: nat) returns (list: nat, head: nat, ghost c: nat, ghost zero: bool)
      requires Valid() && size == 16 * n && 1 <= n <= MAX_UNITS
      ensures head == PtrOf(FirstHead(lists, ClassOf(n))) && (zero <==> n == 1)
      ensures head != 0 ==>
        && list == 4 * c && c < |lists.heads| && lists.heads[c].Some? && head == PtrOf(lists.heads[c])
        && var s := lists.heads[c].unit;
           && s in blocks && s in lists.at && lists.at[s].prev == None && blocks[s].free && ClassOf(blocks[s].size) == c
           && s < UNITS && n <= blocks[s].size && SizeTag(w.hdr[s]) == 16 * blocks[s].size
      ensures head == 0 <==> NoHead(blocks, lists, size)
      ensures head != 0 ==> c < |lists.heads| && lists.heads[c].Some? && BestHead(blocks, lists, n, lists.heads[c].unit)
    {
      hide Backed, Consistent, Exact, NoHead, BestHead;
      FirstFits(w, blocks, lists, n);
      c := ClassOf(n);
      ListOffset(n);
      ClassZero(n);
      HeadFacts(w, blocks, lists, 0);
      list, head, zero := FreeListOf(size), 0, false;
      while list < FIRST
        invariant list == 4 * c && ClassOf(n) <= c <= NUM_LISTS && head == 0
        invariant FirstHead(lists, ClassOf(n)) == FirstHead(lists, c) && (zero <==> ClassOf(n) == 0 < c)
      {
        HeadFacts(w, blocks, lists, c);
        head, zero := ReadSlot(list, c), zero || list == 0;
        if head != 0 {
          return;
        }
        list, c := list + 4, c + 1;
      }
    }

    /**
     Find a block of at least `size` bytes: the head of the first non-empty list from its class up,
     which starts at unit `s`.
     */
    method AllocBlock(size: nat, ghost n: nat) returns (blk: nat, ghost s: nat, ghost at: set<nat>)
      requires Valid() && size == 16 * n && 1 <= n <= MAX_UNITS
      modifies this`log, this`trace, this`w, mem, this`lists, this`blocks
      ensures Valid() && |log| <= |old(log)| + 11 && |at| <= 6
      ensures blk == 0 ==> trace == old(trace).(zero := trace.zero)
      ensures blk == 0 ==> blocks == old(blocks) && lists == old(lists) && w == old(w) && log == old(log)
      ensures blk == 0 ==> mem[..] == old(mem[..])
      ensures FirstHead(old(lists), ClassOf(n)) == if blk == 0 then None else Some(s)
      ensures trace.zero <==> old(trace.zero) || AllocTrips(old(blocks), old(lists), n)
      ensures blk == 0 <==> NoHead(old(blocks), old(lists), size)
      ensures old(ListsExact()) ==> (blk == 0 <==> NoRoom(old(blocks), size))
      ensures blk != 0 ==>
        && BestHead(old(blocks), old(lists), n, s) && (old(ListsExact()) ==> BestFit(old(blocks), n, s))
        && lists == ListsAfterTaking(build.guardsNullNext, old(blocks), old(lists), s, n)
        && s in old(blocks) && old(blocks)[s].free && n <= old(blocks)[s].size
        && blocks == Carve(old(blocks), s, n)
        && blk == Ptr(End(old(blocks), s) - n) && trace.low < FIRST
        && 0 < End(old(blocks), s) <= UNITS == |w.ftr| && w.ftr[End(old(blocks), s) - 1] == 16 * n
        && trace.spots <= old(trace.spots) + (at + {blk - 4})
        && Quiet(old(w), w, old(blocks), s, End(old(blocks), s))
      ensures blk != 0 && old(ListsExact()) ==>
        (ListsExact() <==>
          build.guardsNullNext || n != old(blocks)[s].size || !LosesList(old(lists), old(blocks), s))
    {
      hide Backed, Consistent, Exact, Quiet, Carve, LosesList, NoHead, BestHead, NoRoom, BestFit, ListsAfterTaking;
      at, s := {}, 0;
      var list, head, c, zero := FindHead(size, n);
      if ListsExact() {
        HeadsSuffice(w, blocks, lists, n, if head == 0 then 0 else lists.heads[c].unit);
      }
      NoteRead(zero);
      if head == 0 {
        return 0, s, at;
      }
      s := lists.heads[c].unit;
      blk, at := TakeHead(head, list, size, s, n);
    }

    /** Take the block at the head of a list, or the high end of it. */
    method TakeHead(head: nat, list: nat, size: nat, ghost s: nat, ghost n: nat) returns (blk: nat, ghost at: set<nat>)
      requires Valid() && s in lists.at && s in blocks && lists.at[s].prev == None && s < UNITS
      requires head == Ptr(s) && list == 4 * ClassOf(blocks[s].size) && SizeTag(w.hdr[s]) == 16 * blocks[s].size
      requires size == 16 * n && 1 <= n <= MAX_UNITS && n <= blocks[s].size
      modifies this`log, this`trace, this`w, mem, this`lists, this`blocks
      ensures Valid() && |log| <= |old(log)| + 11 && |at| <= 6
      ensures blocks == Carve(old(blocks), s, n) && blk == Ptr(End(old(blocks), s) - n)
      ensures lists == ListsAfterTaking(build.guardsNullNext, old(blocks), old(lists), s, n)
      ensures trace.low < FIRST && trace.spots <= old(trace.spots) + (at + {blk - 4})
      ensures trace.zero <==> old(trace.zero) || old(blocks)[s].size == n + 1 || old(blocks)[s].size == n == 1
      ensures 0 < End(old(blocks), s) <= UNITS == |w.ftr| && w.ftr[End(old(blocks), s) - 1] == 16 * n
      ensures Quiet(old(w), w, old(blocks), s, End(old(blocks), s))
      ensures old(ListsExact()) ==>
        (ListsExact() <==>
          build.guardsNullNext || n != old(blocks)[s].size || !LosesList(old(lists), old(blocks), s))
    {
      hide Backed, Consistent, Exact, Quiet, Carve, LosesList, ListsAfterTaking, ClassOf;
      ConsistentTiles(w, blocks, lists);
      var headSize := SizeTag(ReadHeader(head, s));
      if headSize == size {
        at := UseBlock(head, headSize, list, s);
        blk := head;
      } else {
        blk, at := SplitBlock(head, headSize, size, s, n);
      }
    }

    /** Record whether a read was at offset 0. */
    method NoteRead(ghost zero: bool)
      requires Valid()
      modifies this`trace
      ensures Valid() && trace == old(trace).(zero := old(trace.zero) || zero)
    {
      hide Mirrors, Consistent, Sound, SitesOk, StartsAt;
      trace := trace.(zero := trace.zero || zero);
    }

    /** Empty the log: from now on it accounts for changes to the present image. */
    method ClearLog()
      requires Valid()
      modifies this`log, this`trace, this`before
      ensures Valid() && log == [] && trace == Trace([], {}, IMAGE_SIZE, old(trace.zero)) && before == mem[..]
    {
      log, trace, before := [], Trace([], {}, IMAGE_SIZE, trace.zero), mem[..];
    }

    /** Allocate `size` bytes; the result is the offset of the payload, or 0. */
    method Alloc(size: nat) returns (p: nat, ghost u: nat, ghost s: nat, ghost at: set<nat>)
      requires Valid() && size + 4 <= MAX_BLOCK
      modifies this`log, this`trace, this`w, mem, this`lists, this`blocks
      ensures Valid() && |log| <= |old(log)| + 11 && |at| <= 6
      ensures FirstHead(old(lists), ClassOf(UnitsFor(size))) == if p == 0 then None else Some(s)
      ensures trace.zero <==> old(trace.zero) || AllocTrips(old(blocks), old(lists), UnitsFor(size))
      ensures old(Footed(w, blocks)) ==> Footed(w, blocks)
      ensures p == 0 ==> trace == old(trace).(zero := trace.zero)
      ensures p == 0 ==> blocks == old(blocks) && lists == old(lists) && log == old(log) && mem[..] == old(mem[..])
      ensures p == 0 <==> NoHead(old(blocks), old(lists), size + 4)
      ensures old(ListsExact()) ==> (p == 0 <==> NoRoom(old(blocks), size + 4))
      ensures p != 0 ==>
        && BestHead(old(blocks), old(lists), UnitsFor(size), s)
        && (old(ListsExact()) ==> BestFit(old(blocks), UnitsFor(size), s))
        && lists == ListsAfterTaking(build.guardsNullNext, old(blocks), old(lists), s, UnitsFor(size))
        && p == Ptr(u) + 4 && u !in Live(old(blocks)) && Live(blocks) == Live(old(blocks)) + {u}
        && u in blocks && !blocks[u].free && size <= 16 * blocks[u].size - 4 < size + 16
        && s in old(blocks) && old(blocks)[s].free && UnitsFor(size) <= old(blocks)[s].size
        && blocks == Carve(old(blocks), s, UnitsFor(size)) && u == End(old(blocks), s) - UnitsFor(size)
        && trace.spots <= old(trace.spots) + (at + {p - 8}) && trace.low < FIRST
        && Kept(old(mem[..]), old(blocks), mem[..], blocks, {})
      ensures p != 0 && old(ListsExact()) ==>
        (ListsExact() <==>
          build.guardsNullNext || UnitsFor(size) != old(blocks)[s].size || !LosesList(old(lists), old(blocks), s))
    {
      hide Consistent, Quiet, Carve, Exact, LosesList, Accounts, Mirrors, Roundup, UnitsFor, Kept, IsEdge, Tiling,
        Bounded, Live,
        AllocTrips, Footed, FirstHead, ClassOf, NoHead, BestHead, NoRoom, BestFit, ListsAfterTaking;
      RoundupUnits(size);
      RoomInUnits(blocks, lists, size);
      var blkSize := Roundup(size + 4);
      ghost var n := UnitsFor(size);
      ghost var m, w0, b := mem[..], w, blocks;
      var blk;
      blk, s, at := AllocBlock(blkSize, n);
      if blk == 0 {
        return 0, 0, s, at;
      }
      u := End(b, s) - n;
      p := blk + 4;
      ConsistentTiles(w0, b, old(lists));
      LiveAfterCarve(b, s, n);
      ConsistentEdge(w0, b, old(lists), s);
      QuietKept(m, w0, b, mem[..], w, blocks, s, End(b, s));
      KeptAll(m, b, mem[..], blocks, s, End(b, s), {});
      if Footed(w0, b) {
        FootedCarve(w0, w, b, s, n);
      }
    }

    /** Free the block whose payload starts at `ptr`. */
    method Free(ptr: nat, ghost u: nat) returns (ghost s: nat, ghost e: nat, ghost at: set<nat>)
      requires Valid() && u in blocks && !blocks[u].free && ptr == Ptr(u) + 4
      modifies this`log, this`trace, this`w, mem, this`lists, this`blocks
      ensures Backed() && |log| <= |old(log)| + 11 && trace.spots <= old(trace.spots) + at && |at| <= 8
      ensures s in old(blocks) && s <= u < e <= UNITS &&
        blocks == Fuse(old(blocks), s, e) == AfterFreeing(old(blocks), u)
      ensures Live(blocks) == Live(old(blocks)) - {u}
      ensures Kept(old(mem[..]), old(blocks), mem[..], blocks, {u})
      ensures s == SpanStart(old(blocks), u) && e == SpanEnd(old(blocks), u)
      ensures lists == ListsAfterFreeing(old(blocks), old(lists), u)
      ensures End(old(blocks), u) <= UNITS && |old(w).ftr| == UNITS
      ensures Valid() <==>
        || build.alwaysWritesFooter || Coalesces(old(blocks), u)
        || old(w).ftr[End(old(blocks), u) - 1] == 16 * old(blocks)[u].size
      ensures trace.low < FIRST && (trace.zero <==> old(trace.zero) || FreeTrips(old(blocks), old(lists), u))
      ensures old(Footed(w, blocks)) ==> Valid() && Footed(w, blocks)
      ensures old(ListsExact()) ==> ListsExact()
    {
      hide Consistent, Quiet, Fuse, Exact, AbsorbsPrev, AbsorbsNext, Accounts, Mirrors, Coalesces, FreeTrips,
        SpanStart, SpanEnd, ListsAfterFreeing;
      ghost var m, w0, b := mem[..], w, blocks;
      ConsistentTiles(w0, b, lists);
      s, e, at := FreeBlock(ptr - 4, u);
      LiveAfterFuse(b, s, e, u);
      QuietKept(m, w0, b, mem[..], w, blocks, s, e);
      KeptAll(m, b, mem[..], blocks, s, e, {u});
      if Footed(w0, b) {
        FootedFuse(w0, w, b, s, e);
      }
    }

    /** A client's store into the payload of a live block. */
    method WritePayload(o: nat, s: seq<Byte>, ghost u: nat, ghost at: nat)
      requires Valid() && u in blocks && !blocks[u].free
      requires Ptr(u) + 4 <= o && o + |s| <= Ptr(End(blocks, u)) && o + |s| <= mem.Length
      requires |log| == |trace.sites| && SiteOk(log + [Modification(o, base + o, |s|)], trace.sites + [at], |log|)
      modifies this`log, this`trace, this`w, mem
      ensures Valid() && mem[..] == Splice(old(mem[..]), o, s)
      ensures log == old(log) + [Modification(o, base + o, |s|)] && trace == old(trace).Noted(at, o)
    {
      hide Accounts, Mirrors, Consistent, ViewOf;
      ghost var m := mem[..];
      ConsistentEdge(w, blocks, lists, u);
      ConsistentSmall(w, blocks, lists, u);
      Store(o, s, at);
      assert mem[K_SIZE..] == m[K_SIZE..] && mem[WORDS_END..K_SIZE] == m[WORDS_END..K_SIZE];
      ghost var w' := ViewOf(mem[..]);
      PayloadStoreView(m, w, o, s, w', u, End(blocks, u));
      MirrorsShaped(mem[..], w');
      PayloadStoreConsistent(w, w', blocks, lists, u);
      w := w';
    }

    /** A store into the bytes after the arena. */
    method WriteTable(o: nat, s: seq<Byte>, ghost at: nat)
      requires Valid() && K_SIZE <= o && o + |s| <= IMAGE_SIZE && |s| <= MAX_BLOCK
      requires |log| == |trace.sites| && SiteOk(log + [Modification(o, base + o, |s|)], trace.sites + [at], |log|)
      modifies this`log, this`trace, this`table, mem
      ensures Valid() && mem[..] == Splice(old(mem[..]), o, s)
      ensures log == old(log) + [Modification(o, base + o, |s|)] && trace == old(trace).Noted(at, o)
    {
      hide Accounts, Mirrors, Consistent;
      ghost var m := mem[..];
      Store(o, s, at);
      table := mem[K_SIZE..];
      assert mem[WORDS_END..K_SIZE] == m[WORDS_END..K_SIZE];
      TableStoreView(m, w, o, s);
    }
  }

  lemma LiveFacts(a: Allocator, u: nat)
    requires a.Valid() && u in Live(a.blocks)
    ensures Tiling(a.blocks) && u in a.blocks && !a.blocks[u].free && 1 <= a.blocks[u].size <= MAX_UNITS &&
      End(a.blocks, u) <= UNITS
  {
    SizesSmall(a.w, a.blocks, u);
  }
}
