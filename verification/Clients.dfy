/**
 The allocator as its clients see it: over every run of allocations, frees and writes, the live
 allocations behave like separate byte buffers.
 */
module Clients {
  import opened Bytes
  import opened Layout
  import opened Blocks
  import opened Allocation
  import opened Modifications
  import FreeLists

  /** Allocate a buffer and fill it, free buffer `i`, or overwrite part of buffer `i`. */
  datatype Op = Take(data: seq<Byte>) | Give(i: nat) | Fill(i: nat, k: nat, data: seq<Byte>)

  /** Operations a client may ask for: buffers fit one block, and writes stay inside their buffer. */
  predicate Allowed(bufs: seq<seq<Byte>>, op: Op) {
    match op
    case Take(data) => |data| + 4 <= MAX_BLOCK
    case Give(i) => i < |bufs|
    case Fill(i, k, data) => i < |bufs| && k + |data| <= |bufs[i]|
  }

  function Without<T>(s: seq<T>, i: nat): seq<T>
    requires i < |s|
  {
    s[..i] + s[i + 1..]
  }

  /** What an operation does to a list of separate buffers. */
  function After(bufs: seq<seq<Byte>>, op: Op): seq<seq<Byte>>
    requires Allowed(bufs, op)
  {
    match op
    case Take(data) => bufs + [data]
    case Give(i) => Without(bufs, i)
    case Fill(i, k, data) => bufs[i := Splice(bufs[i], k, data)]
  }

  ghost predicate HandleOk(m: seq<Byte>, b: Blocks, handle: nat, u: nat, buf: seq<Byte>) {
    && |m| == IMAGE_SIZE
    && u in Live(b) && b[u].size >= 1 && End(b, u) <= UNITS
    && handle == NodePtr(u) && buf <= Payload(m, b, u)
  }

  /** Each handle points at a live block of its own that holds its buffer, and there are no other live blocks. */
  ghost predicate Buffers(m: seq<Byte>, b: Blocks, handles: seq<nat>, us: seq<nat>, bufs: seq<seq<Byte>>) {
    && |handles| == |us| == |bufs|
    && (forall i {:trigger HandleOk(m, b, handles[i], us[i], bufs[i])} :: 0 <= i < |us| ==>
      HandleOk(m, b, handles[i], us[i], bufs[i]))
    && (forall i, j :: 0 <= i < j < |us| ==> us[i] != us[j])
    && (forall u :: u in Live(b) ==> u in us)
  }

  lemma BuffersTaken(m: seq<Byte>, b: Blocks, handles: seq<nat>, us: seq<nat>, bufs: seq<seq<Byte>>,
                     m': seq<Byte>, b': Blocks, u: nat, h: nat, buf: seq<Byte>)
    requires Buffers(m, b, handles, us, bufs) && |m'| == |m| && Kept(m, b, m', b', {})
    requires u !in Live(b) && Live(b') == Live(b) + {u} && HandleOk(m', b', h, u, buf)
    ensures Buffers(m', b', handles + [h], us + [u], bufs + [buf])
  {
    var us' := us + [u];
    forall i | 0 <= i < |us'| ensures HandleOk(m', b', (handles + [h])[i], us'[i], (bufs + [buf])[i]) {
      if i < |us| {
        assert HandleOk(m, b, handles[i], us[i], bufs[i]) && us[i] in Live(b);
      }
    }
    forall i | 0 <= i < |us| ensures us[i] != u {
      assert HandleOk(m, b, handles[i], us[i], bufs[i]);
    }
  }

  lemma BuffersGiven(m: seq<Byte>, b: Blocks, handles: seq<nat>, us: seq<nat>, bufs: seq<seq<Byte>>,
                     m': seq<Byte>, b': Blocks, i: nat)
    requires Buffers(m, b, handles, us, bufs) && |m'| == |m| && i < |us| && Kept(m, b, m', b', {us[i]})
    requires Live(b') == Live(b) - {us[i]}
    ensures Buffers(m', b', Without(handles, i), Without(us, i), Without(bufs, i))
  {
    var us' := Without(us, i);
    forall x | 0 <= x < |us'| ensures HandleOk(m', b', Without(handles, i)[x], us'[x], Without(bufs, i)[x]) {
      var y := if x < i then x else x + 1;
      assert HandleOk(m, b, handles[y], us[y], bufs[y]) && us[y] in Live(b);
    }
    forall u | u in Live(b') ensures u in us' {
      assert u in us;
      var y :| 0 <= y < |us| && us[y] == u;
      assert us'[if y < i then y else y - 1] == u;
    }
  }

  lemma BuffersFilled(m: seq<Byte>, b: Blocks, handles: seq<nat>, us: seq<nat>, bufs: seq<seq<Byte>>, i: nat, k: nat,
                      s: seq<Byte>)
    requires Buffers(m, b, handles, us, bufs) && Tiling(b) && i < |us| && k + |s| <= |bufs[i]|
    ensures handles[i] + k + |s| <= |m|
    ensures Buffers(Splice(m, handles[i] + k, s), b, handles, us, bufs[i := Splice(bufs[i], k, s)])
  {
    assert HandleOk(m, b, handles[i], us[i], bufs[i]);
    var m', bufs' := Splice(m, handles[i] + k, s), bufs[i := Splice(bufs[i], k, s)];
    forall x | 0 <= x < |us| ensures HandleOk(m', b, handles[x], us[x], bufs'[x]) {
      assert HandleOk(m, b, handles[x], us[x], bufs[x]);
      HandleFilled(m, b, handles[i], us[i], bufs[i], k, s, handles[x], us[x], bufs[x]);
    }
    hide HandleOk;
  }

  lemma HandleFilled(m: seq<Byte>, b: Blocks, h: nat, u: nat, buf: seq<Byte>, k: nat, s: seq<Byte>, h': nat, u': nat,
                     buf': seq<Byte>)
    requires Tiling(b) && HandleOk(m, b, h, u, buf) && k + |s| <= |buf| && HandleOk(m, b, h', u', buf')
    ensures h + k + |s| <= |m|
    ensures u' != u ==> HandleOk(Splice(m, h + k, s), b, h', u', buf')
    ensures u' == u ==> HandleOk(Splice(m, h + k, s), b, h, u, Splice(buf, k, s))
  {
    PayloadSplice(m, b, u, k, s, u');
    hide Payload;
  }

  /** The buffers after the first `n` operations; `taken` says which allocations were granted. Others are skipped. */
  function BufsAfter(ops: seq<Op>, taken: seq<bool>, n: nat): seq<seq<Byte>>
    requires n <= |ops| && n <= |taken|
  {
    if n == 0 then [] else
      var bufs := BufsAfter(ops, taken, n - 1);
      if Allowed(bufs, ops[n - 1]) && (ops[n - 1].Take? ==> taken[n - 1]) then After(bufs, ops[n - 1]) else bufs
  }

  lemma {:induction false} BufsPrefix(ops: seq<Op>, taken: seq<bool>, t: bool, n: nat)
    requires n <= |ops| && n <= |taken|
    ensures BufsAfter(ops, taken + [t], n) == BufsAfter(ops, taken, n)
  {
    if n > 0 {
      BufsPrefix(ops, taken, t, n - 1);
    }
  }

  /** The blocks, the free lists, and the block of each handle. */
  datatype Heap = Heap(blocks: Blocks, lists: FreeLists.Lists, us: seq<nat>)

  ghost predicate ExactHeap(h: Heap) {
    FreeLists.Exact(h.lists, h.blocks)
  }

  /**
   The block at `u` is cut off the end of the free block at `s`, for `n` units. Of the heads of the lists that one
   is the best, and unless a list is orphaned it is the best of all free blocks. Only the unguarded build can orphan
   a list, by an exact fit that empties one.
   */
  ghost predicate CarvedFrom(h: Heap, s: nat, n: nat, u: nat, h': Heap, guarded: bool) {
    && BestHead(h.blocks, h.lists, n, s) && h.blocks[s].free && (ExactHeap(h) ==> BestFit(h.blocks, n, s))
    && h'.blocks == Carve(h.blocks, s, n) && u == End(h.blocks, s) - n
    && h'.lists == ListsAfterTaking(guarded, h.blocks, h.lists, s, n)
    && (ExactHeap(h) ==>
          (ExactHeap(h') <==> guarded || n != h.blocks[s].size || !LosesList(h.lists, h.blocks, s)))
  }

  /**
   What an allowed operation does. An allocation is refused only for lack of a head that is large enough, which is
   lack of room unless a list is orphaned, and `Give(i)` frees the block of handle `i`.
   */
  ghost predicate Moves(h: Heap, op: Op, ok: bool, h': Heap, guarded: bool) {
    match op
    case Take(data) =>
      && (if ok then
            && |h'.us| == |h.us| + 1 && h'.us[..|h.us|] == h.us
            && exists s :: CarvedFrom(h, s, UnitsFor(|data|), h'.us[|h.us|], h', guarded)
          else h' == h)
      && (!ok <==> NoHead(h.blocks, h.lists, |data| + 4))
      && (ExactHeap(h) ==> (!ok <==> NoRoom(h.blocks, |data| + 4)))
    case Give(i) =>
      && ok && i < |h.us| && h.us[i] in h.blocks && !h.blocks[h.us[i]].free
      && h' == Heap(AfterFreeing(h.blocks, h.us[i]), ListsAfterFreeing(h.blocks, h.lists, h.us[i]), Without(h.us, i))
      && (ExactHeap(h) ==> ExactHeap(h'))
    case Fill(_, _, _) => ok && h' == h
  }

  /** What a client may rely on in the allocator. */
  ghost predicate Sane(a: Allocator)
    reads a, a.mem
  {
    a.Valid() && a.build.alwaysWritesFooter && (a.build.guardsNullNext ==> a.ListsExact())
  }

  lemma SaneFacts(a: Allocator)
    requires Sane(a)
    ensures a.mem.Length == IMAGE_SIZE && Tiling(a.blocks) && |a.log| == |a.trace.sites|
  {
  }

  lemma SaneLists(a: Allocator)
    requires Sane(a)
    ensures a.build.guardsNullNext ==> a.ListsExact()
  {
  }

  lemma TakeMoves(h: Heap, data: seq<Byte>, s: nat, u: nat, h': Heap, guarded: bool)
    requires CarvedFrom(h, s, UnitsFor(|data|), u, h', guarded) && h'.us == h.us + [u]
    requires !NoHead(h.blocks, h.lists, |data| + 4) && (ExactHeap(h) ==> !NoRoom(h.blocks, |data| + 4))
    ensures Moves(h, Take(data), true, h', guarded)
  {
    hide UnitsFor, NoRoom, NoHead, CarvedFrom, ExactHeap;
    assert h'.us[|h.us|] == u && h'.us[..|h.us|] == h.us;
  }

  lemma RefuseMoves(h: Heap, data: seq<Byte>, guarded: bool)
    requires NoHead(h.blocks, h.lists, |data| + 4) && (ExactHeap(h) ==> NoRoom(h.blocks, |data| + 4))
    ensures Moves(h, Take(data), false, h, guarded)
  {
  }

  /** A new buffer, once it is filled. */
  lemma TakenFilled(m: seq<Byte>, b: Blocks, handles: seq<nat>, us: seq<nat>, bufs: seq<seq<Byte>>,
                    m': seq<Byte>, b': Blocks, u: nat, h: nat, data: seq<Byte>)
    requires Buffers(m, b, handles, us, bufs) && |m'| == |m| && Kept(m, b, m', b', {}) && Tiling(b')
    requires u !in Live(b) && Live(b') == Live(b) + {u} && h + |data| <= |m'|
    requires HandleOk(m', b', h, u, m'[h..h + |data|])
    ensures Buffers(Splice(m', h, data), b', handles + [h], us + [u], bufs + [data])
  {
    assert |handles| == |us| == |bufs|;
    hide Buffers, HandleOk, Kept, Live, Splice;
    var prior := m'[h..h + |data|];
    BuffersTaken(m, b, handles, us, bufs, m', b', u, h, prior);
    BuffersFilled(m', b', handles + [h], us + [u], bufs + [prior], |us|, 0, data);
    FilledWhole(prior, data, bufs);
  }

  method TakeOne(a: Allocator, data: seq<Byte>, ghost handles: seq<nat>, ghost us: seq<nat>, ghost bufs: seq<seq<Byte>>)
    returns (h: nat, ghost u: nat)
    requires Sane(a) && Buffers(a.mem[..], a.blocks, handles, us, bufs) && |data| + 4 <= MAX_BLOCK
    modifies a`log, a`trace, a`w, a`lists, a`blocks, a.mem
    ensures Sane(a)
    ensures Moves(Heap(old(a.blocks), old(a.lists), us), Take(data), h != 0,
                  Heap(a.blocks, a.lists, if h != 0 then us + [u] else us), a.build.guardsNullNext)
    ensures h == 0 ==> Buffers(a.mem[..], a.blocks, handles, us, bufs)
    ensures h != 0 ==> Buffers(a.mem[..], a.blocks, handles + [h], us + [u], bufs + [data])
  {
    hide Buffers, Accounts, Mirrors, Consistent, FreeLists.Exact, Kept, Carve, Live, HandleOk, NoRoom, UnitsFor, Footed,
      AllocTrips, FreeLists.FirstHead, Moves, NoHead, BestHead, BestFit, ListsAfterTaking, LosesList;
    ghost var m, b := a.mem[..], a.blocks;
    ghost var heap := Heap(b, a.lists, us);
    ghost var s, at;
    h, u, s, at := a.Alloc(|data|);
    if h != 0 {
      SaneFacts(a);
      FreshHandle(a, u, |data|);
      TakenFilled(m, b, handles, us, bufs, a.mem[..], a.blocks, u, h, data);
      TakeMoves(heap, data, s, u, Heap(a.blocks, a.lists, us + [u]), a.build.guardsNullNext);
      a.WritePayload(h, data, u, h);
    } else {
      RefuseMoves(heap, data, a.build.guardsNullNext);
    }
  }

  lemma FreshHandle(a: Allocator, u: nat, n: nat)
    requires a.Valid() && u in Live(a.blocks) && n <= 16 * a.blocks[u].size - 4
    ensures u in a.blocks && NodePtr(u) + n <= Ptr(End(a.blocks, u)) <= a.mem.Length == IMAGE_SIZE
    ensures HandleOk(a.mem[..], a.blocks, NodePtr(u), u, a.mem[..][NodePtr(u)..NodePtr(u) + n])
  {
    LiveFacts(a, u);
    PayloadPrefix(a.mem[..], a.blocks, u, n);
  }

  lemma PayloadPrefix(m: seq<Byte>, b: Blocks, u: nat, n: nat)
    requires u in b && b[u].size >= 1 && n <= 16 * b[u].size - 4 && Ptr(End(b, u)) <= |m|
    ensures m[NodePtr(u)..NodePtr(u) + n] == Payload(m, b, u)[..n]
  {
  }

  lemma FilledWhole(prior: seq<Byte>, data: seq<Byte>, bufs: seq<seq<Byte>>)
    requires |prior| == |data|
    ensures (bufs + [prior])[|bufs| := Splice(prior, 0, data)] == bufs + [data]
  {
    assert Splice(prior, 0, data) == data;
  }

  lemma HandleFacts(m: seq<Byte>, b: Blocks, handles: seq<nat>, us: seq<nat>, bufs: seq<seq<Byte>>, i: nat)
    requires Buffers(m, b, handles, us, bufs) && i < |bufs|
    ensures |handles| == |us| == |bufs| && |m| == IMAGE_SIZE
    ensures us[i] in b && !b[us[i]].free && handles[i] == NodePtr(us[i]) && handles[i] + |bufs[i]| <= Ptr(End(b, us[i]))
    ensures End(b, us[i]) <= UNITS && m[handles[i]..handles[i] + |bufs[i]|] == bufs[i]
  {
    assert HandleOk(m, b, handles[i], us[i], bufs[i]);
    var pay := Payload(m, b, us[i]);
    assert m[handles[i]..handles[i] + |bufs[i]|] == pay[..|bufs[i]|];
  }

  method GiveOne(a: Allocator, handles: seq<nat>, i: nat, ghost us: seq<nat>, ghost bufs: seq<seq<Byte>>)
    requires Sane(a) && Buffers(a.mem[..], a.blocks, handles, us, bufs) && i < |bufs| == |handles| == |us|
    modifies a`log, a`trace, a`w, a`lists, a`blocks, a.mem
    ensures Sane(a) && Buffers(a.mem[..], a.blocks, Without(handles, i), Without(us, i), Without(bufs, i))
    ensures Moves(Heap(old(a.blocks), old(a.lists), us), Give(i), true, Heap(a.blocks, a.lists, Without(us, i)),
                  a.build.guardsNullNext)
  {
    hide Buffers, Accounts, Mirrors, Consistent, FreeLists.Exact, Kept, Live, Fuse, AfterFreeing, Footed, FreeTrips,
      SpanStart,
      SpanEnd, Coalesces, ListsAfterFreeing;
    ghost var m, b := a.mem[..], a.blocks;
    HandleFacts(m, b, handles, us, bufs, i);
    ghost var s, e, at := a.Free(handles[i], us[i]);
    BuffersGiven(m, b, handles, us, bufs, a.mem[..], a.blocks, i);
  }

  method FillOne(a: Allocator, handles: seq<nat>, i: nat, k: nat, data: seq<Byte>, ghost us: seq<nat>,
                 ghost bufs: seq<seq<Byte>>)
    requires Sane(a) && Buffers(a.mem[..], a.blocks, handles, us, bufs) && i < |bufs| == |handles| &&
      k + |data| <= |bufs[i]|
    modifies a`log, a`trace, a`w, a.mem
    ensures Sane(a) && Buffers(a.mem[..], a.blocks, handles, us, bufs[i := Splice(bufs[i], k, data)])
  {
    hide Buffers, Accounts, Mirrors, Consistent, FreeLists.Exact;
    HandleFacts(a.mem[..], a.blocks, handles, us, bufs, i);
    SaneFacts(a);
    BuffersFilled(a.mem[..], a.blocks, handles, us, bufs, i, k, data);
    a.WritePayload(handles[i] + k, data, us[i], handles[i] + k);
  }

  /** One operation. */
  method Perform(a: Allocator, op: Op, handles: seq<nat>, ghost us: seq<nat>, ghost bufs: seq<seq<Byte>>)
    returns (ok: bool, handles': seq<nat>, ghost us': seq<nat>)
    requires Sane(a) && Buffers(a.mem[..], a.blocks, handles, us, bufs) && Allowed(bufs, op)
    modifies a`log, a`trace, a`w, a`lists, a`blocks, a.mem
    ensures Sane(a) && Buffers(a.mem[..], a.blocks, handles', us', if ok then After(bufs, op) else bufs)
    ensures Moves(Heap(old(a.blocks), old(a.lists), us), op, ok, Heap(a.blocks, a.lists, us'), a.build.guardsNullNext)
  {
    assert |handles| == |us| == |bufs|;
    ghost var h := Heap(a.blocks, a.lists, us);
    assert op.Fill? ==> Moves(h, op, true, h, a.build.guardsNullNext);
    hide Buffers, Sane, Moves;
    ok, handles', us' := true, handles, us;
    match op
    case Take(data) =>
      var h;
      ghost var u;
      h, u := TakeOne(a, data, handles, us, bufs);
      if h == 0 {
        ok := false;
      } else {
        handles', us' := handles + [h], us + [u];
      }
    case Give(i) =>
      GiveOne(a, handles, i, us, bufs);
      handles', us' := Without(handles, i), Without(us, i);
    case Fill(i, k, data) =>
      FillOne(a, handles, i, k, data, us, bufs);
  }

  /** The heap before each operation and at the end. */
  ghost predicate History(ops: seq<Op>, taken: seq<bool>, heaps: seq<Heap>, n: nat, guarded: bool) {
    && n <= |ops| && |taken| == n && |heaps| == n + 1 && heaps[0].blocks == NEW_BLOCKS && heaps[0].us == []
    && (forall k {:trigger HistoryAt(ops, taken, heaps, k, guarded)} :: 0 <= k < n ==>
          HistoryAt(ops, taken, heaps, k, guarded))
  }

  ghost predicate HistoryAt(ops: seq<Op>, taken: seq<bool>, heaps: seq<Heap>, k: nat, guarded: bool)
    requires k < |ops| && k < |taken| && k + 1 < |heaps|
  {
    && (guarded ==> ExactHeap(heaps[k]))
    && (if Allowed(BufsAfter(ops, taken, k), ops[k]) then Moves(heaps[k], ops[k], taken[k], heaps[k + 1], guarded)
        else heaps[k + 1] == heaps[k])
  }

  lemma HistoryMore(ops: seq<Op>, taken: seq<bool>, heaps: seq<Heap>, n: nat, guarded: bool, ok: bool, h: Heap)
    requires History(ops, taken, heaps, n, guarded) && n < |ops| && (guarded ==> ExactHeap(heaps[n]))
    requires if Allowed(BufsAfter(ops, taken, n), ops[n]) then Moves(heaps[n], ops[n], ok, h, guarded)
             else h == heaps[n]
    ensures History(ops, taken + [ok], heaps + [h], n + 1, guarded)
  {
    hide Moves, Allowed, ExactHeap;
    forall k | 0 <= k < n + 1 ensures HistoryAt(ops, taken + [ok], heaps + [h], k, guarded) {
      BufsPrefix(ops, taken, ok, k);
      assert k < n ==> HistoryAt(ops, taken, heaps, k, guarded);
    }
  }

  /** The next operation of a run; what is not allowed is skipped. */
  method Advance(a: Allocator, op: Op, handles: seq<nat>, bufs: seq<seq<Byte>>, ghost us: seq<nat>)
    returns (ok: bool, handles': seq<nat>, bufs': seq<seq<Byte>>, ghost us': seq<nat>)
    requires Sane(a) && Buffers(a.mem[..], a.blocks, handles, us, bufs)
    modifies a`log, a`trace, a`w, a`lists, a`blocks, a.mem
    ensures Sane(a) && Buffers(a.mem[..], a.blocks, handles', us', bufs')
    ensures bufs' == if Allowed(bufs, op) && (op.Take? ==> ok) then After(bufs, op) else bufs
    ensures var h, h' := old(Heap(a.blocks, a.lists, us)), Heap(a.blocks, a.lists, us');
      if Allowed(bufs, op) then Moves(h, op, ok, h', a.build.guardsNullNext) else h' == h
  {
    hide Buffers, Sane, After, Allowed, Moves;
    ok, handles', bufs', us' := true, handles, bufs, us;
    ghost var h := Heap(a.blocks, a.lists, us);
    if Allowed(bufs, op) {
      ok, handles', us' := Perform(a, op, handles, us, bufs);
      if ok {
        bufs' := After(bufs, op);
      }
      OnlyTakeFails(op, h, ok, Heap(a.blocks, a.lists, us'), a.build.guardsNullNext);
    }
  }

  /**
   Whatever a client does, its buffers hold what separate buffers would hold. At each moment an allocation is
   refused if and only if no list was headed by a large enough block, and unless a list was orphaned, which the
   guarded build never does, if and only if there was no such free block.
   */
  method Run(a: Allocator, ops: seq<Op>)
    returns (handles: seq<nat>, taken: seq<bool>, ghost us: seq<nat>, ghost heaps: seq<Heap>)
    requires Sane(a) && a.blocks == NEW_BLOCKS
    modifies a`log, a`trace, a`w, a`lists, a`blocks, a.mem
    ensures Sane(a) && History(ops, taken, heaps, |ops|, a.build.guardsNullNext)
    ensures heaps[0].lists == old(a.lists) && heaps[|ops|] == Heap(a.blocks, a.lists, us)
    ensures Buffers(a.mem[..], a.blocks, handles, us, BufsAfter(ops, taken, |ops|))
  {
    hide Buffers, Sane, After, Allowed, History, Moves, FreeLists.Exact;
    handles, taken, us, heaps := [], [], [], [Heap(a.blocks, a.lists, [])];
    var bufs: seq<seq<Byte>> := [];
    NoBuffers(a.mem[..]);
    NoHistory(ops, heaps[0], a.build.guardsNullNext);
    SaneLists(a);
    for n := 0 to |ops|
      invariant Sane(a) && |taken| == n && bufs == BufsAfter(ops, taken, n)
      invariant History(ops, taken, heaps, n, a.build.guardsNullNext)
      invariant |heaps| == n + 1 && heaps[0].lists == old(a.lists) && heaps[n] == Heap(a.blocks, a.lists, us)
      invariant a.build.guardsNullNext ==> ExactHeap(heaps[n])
      invariant Buffers(a.mem[..], a.blocks, handles, us, bufs)
    {
      var ok;
      ok, handles, bufs, us := Advance(a, ops[n], handles, bufs, us);
      SaneLists(a);
      HistoryMore(ops, taken, heaps, n, a.build.guardsNullNext, ok, Heap(a.blocks, a.lists, us));
      BufsPrefix(ops, taken, ok, n);
      taken, heaps := taken + [ok], heaps + [Heap(a.blocks, a.lists, us)];
    }
  }

  lemma OnlyTakeFails(op: Op, h: Heap, ok: bool, h': Heap, guarded: bool)
    requires Moves(h, op, ok, h', guarded)
    ensures !op.Take? ==> ok
  {
  }

  lemma NoHistory(ops: seq<Op>, h: Heap, guarded: bool)
    requires h.blocks == NEW_BLOCKS && h.us == []
    ensures History(ops, [], [h], 0, guarded)
  {
  }

  lemma NoBuffers(m: seq<Byte>)
    ensures Buffers(m, NEW_BLOCKS, [], [], [])
  {
  }

  /** Live buffers lie in the arena, hold their contents, and do not overlap. */
  lemma BuffersApart(m: seq<Byte>, b: Blocks, handles: seq<nat>, us: seq<nat>, bufs: seq<seq<Byte>>, i: nat, j: nat)
    requires Buffers(m, b, handles, us, bufs) && Tiling(b) && i < |bufs| && j < |bufs| && i != j
    ensures |handles| == |bufs| && FIRST < handles[i] && handles[i] + |bufs[i]| <= K_SIZE <= |m|
    ensures m[handles[i]..handles[i] + |bufs[i]|] == bufs[i]
    ensures handles[i] + |bufs[i]| <= handles[j] || handles[j] + |bufs[j]| <= handles[i]
  {
    HandleFacts(m, b, handles, us, bufs, i);
    HandleFacts(m, b, handles, us, bufs, j);
    BlocksApart(b, us[i], us[j]);
  }
}
