/** Where the allocator as written departs from its invariants: concrete runs. */
module AsWritten {
  import opened Bytes
  import opened Layout
  import opened Blocks
  import opened FreeLists
  import opened Allocation
  import opened Modifications

  /**
   The search for a 16-byte block starts at offset 0, which `Read` as written refuses: the very first
   allocation of at most 12 bytes ends the process.
   */
  method RefusedOffset() returns (a: Allocator)
    ensures a.build == AS_WRITTEN && a.trace.zero
  {
    hide Accounts, Mirrors, Consistent, Exact, Carve, Kept, Live, LosesList, Footed;
    var image := new Byte[IMAGE_SIZE](_ => 0);
    a := new Allocator(image, 0, AS_WRITTEN);
    assert UnitsFor(12) == 1;
    var p, u, s, at := a.Alloc(12);
  }

  lemma StartFooted()
    ensures Footed(NewView(), NEW_BLOCKS)
  {
    AfterFormat();
  }

  /** Allocate when the only free block is the one at the arena start, and is large. */
  method TakeFromStart(a: Allocator, size: nat) returns (p: nat)
    requires a.Valid() && a.ListsExact() && Footed(a.w, a.blocks)
    requires 16 <= size && size + 4 <= MAX_BLOCK && 0 in a.blocks && a.blocks[0].free
    requires UnitsFor(size) + 1 < a.blocks[0].size && size + 4 <= 16 * a.blocks[0].size
    requires forall x :: x in a.blocks && a.blocks[x].free ==> x == 0
    modifies a`log, a`trace, a`w, a`lists, a`blocks, a.mem
    ensures a.Valid() && a.ListsExact() && Footed(a.w, a.blocks) && a.trace.zero == old(a.trace.zero)
    ensures a.blocks == Carve(old(a.blocks), 0, UnitsFor(size))
    ensures p == Ptr(End(old(a.blocks), 0) - UnitsFor(size)) + 4
  {
    assert UnitsFor(size) != 1;
    hide Accounts, Mirrors, Consistent, Exact, Carve, Kept, Live, LosesList, UnitsFor, ClassOf, Footed, FirstHead,
      NoHead, BestHead, ListsAfterTaking;
    ghost var u, s, at;
    p, u, s, at := a.Alloc(size);
  }

  // The blocks along the run of `FooterOverwritten`

  ghost const TAKEN: Blocks := map[0 := Block(UNITS - 2, true), UNITS - 2 := Block(2, false)]

  lemma OneTaken()
    ensures Carve(NEW_BLOCKS, 0, 2) == TAKEN && UnitsFor(28) == 2
  {
  }

  /** Freeing a block between neighbours that it does not absorb. */
  lemma AloneFreed(b: Blocks, l: Lists, u: nat)
    requires u in b && forall q :: !AbsorbsPrev(b, u, q) && !AbsorbsNext(b, q, u)
    ensures SpanStart(b, u) == u && SpanEnd(b, u) == End(b, u) && !Coalesces(b, u)
    ensures FreeTrips(b, l, u) <==> b[u].size == 1
  {
  }

  lemma OneFreed(l: Lists)
    ensures SpanStart(TAKEN, UNITS - 2) == UNITS - 2 && SpanEnd(TAKEN, UNITS - 2) == UNITS
    ensures !Coalesces(TAKEN, UNITS - 2) && !FreeTrips(TAKEN, l, UNITS - 2)
    ensures Fuse(TAKEN, UNITS - 2, UNITS) == map[0 := Block(UNITS - 2, true), UNITS - 2 := Block(2, true)]
  {
    var b, u := TAKEN, UNITS - 2;
    forall q ensures !AbsorbsPrev(b, u, q) && !AbsorbsNext(b, q, u) {
    }
    AloneFreed(b, l, u);
  }

  /** A payload of ones covers the footer of its block. */
  lemma FullWord(m: seq<Byte>, o: nat, s: seq<Byte>, w: View)
    requires |m| == IMAGE_SIZE && o == Ptr(UNITS - 2) + 4 && |s| == 28 && (forall i :: 0 <= i < 28 ==> s[i] == 255)
    requires Mirrors(Splice(m, o, s), w)
    ensures w.ftr[UNITS - 1] != 32
  {
    var m' := Splice(m, o, s);
    assert w.ftr[UNITS - 1] == UnitWord(m', UNITS - 1, 3);
    hide Mirrors;
    var f := Offset(UNITS - 1, 3);
    assert m'[f] == 255 && m'[f..f + 4][0] == 255;
    assert Number(m'[f..f + 4]) % 256 == 255;
  }

  lemma Backing(a: Allocator)
    requires a.Valid()
    ensures Mirrors(a.mem[..], a.w) && |a.log| == |a.trace.sites| && a.mem.Length == IMAGE_SIZE
  {
  }

  /**
   A client fills the 28 bytes it asked for. The last word of the block is among them, and freeing
   the block without coalescing leaves the client's bytes where its footer should be.
   */
  method FooterOverwritten() returns (a: Allocator)
    ensures a.build == AS_WRITTEN && !a.trace.zero
    ensures a.Backed() && UNITS - 2 in a.blocks && a.blocks[UNITS - 2] == Block(2, true) && !a.Valid()
  {
    hide Accounts, Mirrors, Consistent, Exact, Carve, Fuse, Kept, Live, AbsorbsPrev, AbsorbsNext, Splice, Footed,
      FreeTrips, SpanStart, SpanEnd, Coalesces, UnitsFor, ListsAfterFreeing;
    var image := new Byte[IMAGE_SIZE](_ => 0);
    a := new Allocator(image, 0, AS_WRITTEN);
    StartFooted();
    OneTaken();
    var p := TakeFromStart(a, 28);
    Backing(a);
    var ones := seq(28, _ => 255);
    ghost var m := a.mem[..];
    a.WritePayload(p, ones, UNITS - 2, p);
    Backing(a);
    FullWord(m, p, ones, a.w);
    OneFreed(a.lists);
    var s, e, at := a.Free(p, UNITS - 2);
  }

  // The blocks along the run of `ListOrphaned`: three allocations, then two frees

  ghost const TAKEN1: Blocks := map[0 := Block(UNITS - 3, true), UNITS - 3 := Block(3, false)]
  ghost const TAKEN2: Blocks := map[0 := Block(UNITS - 5, true), UNITS - 5 := Block(2, false),
    UNITS - 3 := Block(3, false)]
  ghost const TAKEN3: Blocks :=
    map[0 := Block(UNITS - 7, true), UNITS - 7 := Block(2, false), UNITS - 5 := Block(2, false),
      UNITS - 3 := Block(3, false)]
  ghost const FREED1: Blocks :=
    map[0 := Block(UNITS - 7, true), UNITS - 7 := Block(2, true), UNITS - 5 := Block(2, false),
      UNITS - 3 := Block(3, false)]
  ghost const FREED2: Blocks :=
    map[0 := Block(UNITS - 7, true), UNITS - 7 := Block(2, true), UNITS - 5 := Block(2, false),
      UNITS - 3 := Block(3, true)]

  lemma Takes()
    ensures Carve(NEW_BLOCKS, 0, 3) == TAKEN1 && Carve(TAKEN1, 0, 2) == TAKEN2 && Carve(TAKEN2, 0, 2) == TAKEN3
    ensures UnitsFor(28) == 2 && UnitsFor(44) == 3
  {
  }

  lemma FirstFree(l: Lists)
    ensures SpanStart(TAKEN3, UNITS - 7) == UNITS - 7 && SpanEnd(TAKEN3, UNITS - 7) == UNITS - 5
    ensures !FreeTrips(TAKEN3, l, UNITS - 7) && Fuse(TAKEN3, UNITS - 7, UNITS - 5) == FREED1
  {
    var b, u := TAKEN3, UNITS - 7;
    forall q ensures !AbsorbsPrev(b, u, q) && !AbsorbsNext(b, q, u) {
    }
    AloneFreed(b, l, u);
  }

  lemma SecondFree(l: Lists)
    ensures SpanStart(FREED1, UNITS - 3) == UNITS - 3 && SpanEnd(FREED1, UNITS - 3) == UNITS
    ensures !FreeTrips(FREED1, l, UNITS - 3) && Fuse(FREED1, UNITS - 3, UNITS) == FREED2
  {
    var b, u := FREED1, UNITS - 3;
    forall q ensures !AbsorbsPrev(b, u, q) && !AbsorbsNext(b, q, u) {
    }
    AloneFreed(b, l, u);
  }

  /** In `FREED2` the 48-byte block is alone in its class, so allocating it loses the list of the 32-byte block. */
  lemma Loses(l: Lists, s: nat)
    requires Linked(l, FREED2) && Exact(l, FREED2) && l.at.Keys == FreeBlocks(FREED2)
    requires BestFit(FREED2, 3, s)
    ensures s == UNITS - 3 && LosesList(l, FREED2, s)
  {
    ClassHasHead(l, FREED2, UNITS - 7);
    assert LinkOk(l, FREED2, UNITS - 3);
  }

  lemma ListFacts(a: Allocator)
    requires a.Valid() && a.ListsExact()
    ensures Linked(a.lists, a.blocks) && Exact(a.lists, a.blocks) && a.lists.at.Keys == FreeBlocks(a.blocks)
  {
  }

  /** Allocate 44 bytes and then twice 28. */
  method TakeThree(a: Allocator) returns (p1: nat, p3: nat)
    requires a.Valid() && a.ListsExact() && a.blocks == NEW_BLOCKS && Footed(a.w, a.blocks) && !a.trace.zero
    modifies a`log, a`trace, a`w, a`lists, a`blocks, a.mem
    ensures a.Valid() && a.ListsExact() && a.blocks == TAKEN3 && Footed(a.w, a.blocks) && !a.trace.zero
    ensures p1 == Ptr(UNITS - 3) + 4 && p3 == Ptr(UNITS - 7) + 4
  {
    hide Accounts, Mirrors, Consistent, Exact, Carve, UnitsFor, Footed;
    Takes();
    p1 := TakeFromStart(a, 44);
    var p2 := TakeFromStart(a, 28);
    p3 := TakeFromStart(a, 28);
  }

  /** Free the first and the last of them. */
  method FreeTwo(a: Allocator, p1: nat, p3: nat)
    requires a.Valid() && a.ListsExact() && a.blocks == TAKEN3 && Footed(a.w, a.blocks) && !a.trace.zero
    requires p1 == Ptr(UNITS - 3) + 4 && p3 == Ptr(UNITS - 7) + 4
    modifies a`log, a`trace, a`w, a`lists, a`blocks, a.mem
    ensures a.Valid() && a.ListsExact() && a.blocks == FREED2 && Footed(a.w, a.blocks) && !a.trace.zero
  {
    hide Accounts, Mirrors, Consistent, Exact, Fuse, Kept, Live, AbsorbsPrev, AbsorbsNext, Footed, FreeTrips, SpanStart,
      SpanEnd, Coalesces, ListsAfterFreeing;
    ghost var s, e, at;
    FirstFree(a.lists);
    s, e, at := a.Free(p3, UNITS - 7);
    SecondFree(a.lists);
    s, e, at := a.Free(p1, UNITS - 3);
  }

  /**
   An exact fit that empties its list writes 0 to the head of the list of 32-byte blocks: a free block is
   then on no list that can be reached. No access to offset 0 stops the run before that.
   */
  method ListOrphaned() returns (a: Allocator)
    ensures a.build == AS_WRITTEN && !a.trace.zero && a.Valid() && !a.ListsExact()
  {
    hide Accounts, Mirrors, Consistent, Exact, Carve, Kept, Live, LosesList, UnitsFor, Linked, FreeBlocks, Footed,
      FirstHead, NoHead, BestHead, BestFit, ListsAfterTaking;
    var image := new Byte[IMAGE_SIZE](_ => 0);
    a := new Allocator(image, 0, AS_WRITTEN);
    StartFooted();
    var p1, p3 := TakeThree(a);
    FreeTwo(a, p1, p3);
    ListFacts(a);
    ghost var l := a.lists;
    Takes();
    assert UNITS - 3 in a.blocks && a.blocks[UNITS - 3] == Block(3, true);
    var p4, u4, s4, at4 := a.Alloc(44);
    Loses(l, s4);
  }
}
