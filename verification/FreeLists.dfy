/**
 The segregated free lists: doubly linked lists, one per size class, threaded through the link
 words of free blocks, with their heads in the table at the start of the arena.
 */
module FreeLists {
  import opened Layout
  import opened Blocks

  datatype Option = None | Some(unit: nat)

  /** A listed block's neighbours. The rank grows along `next`, so lists are acyclic. */
  datatype Link = Link(prev: Option, next: Option, rank: int)

  /** The list heads by class and the links of every listed block. */
  datatype Lists = Lists(heads: seq<Option>, at: map<nat, Link>)

  function PtrOf(o: Option): nat {
    if o.None? then 0 else Ptr(o.unit)
  }

  /** The words in the arena spell out the lists. */
  ghost predicate Stored(w: View, l: Lists) {
    && Shaped(w)
    && |l.heads| == NUM_LISTS
    && (forall i :: 0 <= i < NUM_LISTS ==> w.slots[i] == PtrOf(l.heads[i]))
    && (forall u {:trigger l.at[u]} {:trigger u in l.at} :: u in l.at ==>
          u < UNITS && w.prv[u] == PtrOf(l.at[u].prev) && w.nxt[u] == PtrOf(l.at[u].next))
  }

  ghost predicate SameClass(b: Blocks, u: nat, v: nat) {
    u in b && v in b && ClassOf(b[u].size) == ClassOf(b[v].size)
  }

  /** A head is a listed block of its class with no predecessor. */
  ghost predicate HeadOk(l: Lists, b: Blocks, i: nat)
    requires i < |l.heads|
  {
    l.heads[i].Some? ==>
      var u := l.heads[i].unit;
      u in l.at && u in b && ClassOf(b[u].size) == i && l.at[u].prev == None
  }

  /** Both neighbours of a listed block are listed in the same class and link back to it. */
  ghost predicate LinkOk(l: Lists, b: Blocks, u: nat)
    requires u in l.at
  {
    var x := l.at[u];
    && u in b && b[u].free
    && (x.next.Some? ==>
          var v := x.next.unit;
          v in l.at && SameClass(b, u, v) && l.at[v].prev == Some(u) && x.rank < l.at[v].rank)
    && (x.prev.Some? ==>
          var v := x.prev.unit;
          v in l.at && SameClass(b, u, v) && l.at[v].next == Some(u) && l.at[v].rank < x.rank)
  }

  ghost predicate Linked(l: Lists, b: Blocks) {
    && |l.heads| == NUM_LISTS
    && (forall i {:trigger HeadOk(l, b, i)} :: 0 <= i < NUM_LISTS ==> HeadOk(l, b, i))
    && (forall u {:trigger LinkOk(l, b, u)} :: u in l.at ==> LinkOk(l, b, u))
  }

  ghost predicate IsHead(l: Lists, b: Blocks, u: nat)
    requires |l.heads| == NUM_LISTS
  {
    u in b && l.heads[ClassOf(b[u].size)] == Some(u)
  }

  /** No list is orphaned: a listed block without predecessor is the head of its class. */
  ghost predicate Exact(l: Lists, b: Blocks) {
    && |l.heads| == NUM_LISTS
    && (forall u {:trigger IsHead(l, b, u)} :: u in l.at && l.at[u].prev == None ==> IsHead(l, b, u))
  }

  /** The head of the first non-empty list from class `c` on. */
  ghost function FirstHead(l: Lists, c: nat): Option
    decreases |l.heads| - c
  {
    if c >= |l.heads| then None else if l.heads[c].Some? then l.heads[c] else FirstHead(l, c + 1)
  }

  /** The first head is that of the lowest non-empty list from class `c` on. */
  lemma {:induction false} FirstHeadIs(l: Lists, c: nat)
    ensures FirstHead(l, c) == None <==> forall i :: c <= i < |l.heads| ==> l.heads[i] == None
    ensures FirstHead(l, c).Some? ==>
      (exists i :: c <= i < |l.heads| && l.heads[i] == FirstHead(l, c) && forall j :: c <= j < i ==> l.heads[j] == None)
    decreases |l.heads| - c
  {
    if c < |l.heads| && l.heads[c] == None {
      FirstHeadIs(l, c + 1);
    }
  }

  /** The lists without the block at `u`, whose class is `c`. */
  ghost function Unlink(l: Lists, c: nat, u: nat): Lists
    requires u in l.at
  {
    var x := l.at[u];
    var at1 := if x.prev.Some? && x.prev.unit in l.at then l.at[x.prev.unit := l.at[x.prev.unit].(next := x.next)]
      else l.at;
    var at2 := if x.next.Some? && x.next.unit in at1 then at1[x.next.unit := at1[x.next.unit].(prev := x.prev)]
      else at1;
    Lists(if x.prev.Some? || c >= |l.heads| then l.heads else l.heads[c := x.next], at2 - {u})
  }

  /** The words after the stores that take a block with links `x` off the list of class `c`. */
  ghost function UnlinkWords(w: View, x: Link, c: nat): View {
    var w1 := if x.prev.Some? then w.(nxt := Set(w.nxt, x.prev.unit, PtrOf(x.next)))
              else w.(slots := Set(w.slots, c, PtrOf(x.next)));
    if x.next.Some? then w1.(prv := Set(w1.prv, x.next.unit, PtrOf(x.prev))) else w1
  }

  ghost function Set(s: seq<nat>, i: nat, v: nat): seq<nat> {
    if i < |s| then s[i := v] else s
  }

  lemma UnlinkStored(w: View, l: Lists, b: Blocks, u: nat)
    requires Stored(w, l) && Linked(l, b) && u in l.at && u in b && LinkOk(l, b, u)
    ensures var w' := UnlinkWords(w, l.at[u], ClassOf(b[u].size));
      && Stored(w', Unlink(l, ClassOf(b[u].size), u))
      && (forall j :: 0 <= j < UNITS && j !in l.at ==> w'.prv[j] == w.prv[j] && w'.nxt[j] == w.nxt[j])
  {
  }

  lemma UnlinkKeepsLinks(l: Lists, b: Blocks, u: nat)
    requires Linked(l, b) && u in l.at && u in b
    ensures Linked(Unlink(l, ClassOf(b[u].size), u), b) && Unlink(l, ClassOf(b[u].size), u).at.Keys == l.at.Keys - {u}
  {
    var l' := Unlink(l, ClassOf(b[u].size), u);
    assert LinkOk(l, b, u);
    forall i | 0 <= i < NUM_LISTS ensures HeadOk(l', b, i) {
      assert HeadOk(l, b, i);
    }
    forall x | x in l'.at ensures LinkOk(l', b, x) {
      assert LinkOk(l, b, x);
    }
  }

  lemma UnlinkKeepsExact(l: Lists, b: Blocks, u: nat)
    requires Linked(l, b) && u in l.at && u in b && Exact(l, b)
    ensures Exact(Unlink(l, ClassOf(b[u].size), u), b)
  {
    var l' := Unlink(l, ClassOf(b[u].size), u);
    assert LinkOk(l, b, u);
    assert l.at[u].prev == None ==> IsHead(l, b, u);
    forall x | x in l'.at && l'.at[x].prev == None ensures IsHead(l', b, x) {
      assert LinkOk(l, b, x);
      assert l.at[x].prev == None ==> IsHead(l, b, x);
    }
  }

  /** The lists with the block at `u` put at the front of the list of class `c`. */
  ghost function Push(l: Lists, c: nat, u: nat): Lists
    requires c < |l.heads|
  {
    var h := l.heads[c];
    var known := h.Some? && h.unit in l.at;
    var at1 := if known then l.at[h.unit := l.at[h.unit].(prev := Some(u))] else l.at;
    Lists(l.heads[c := Some(u)], at1[u := Link(None, h, if known then l.at[h.unit].rank - 1 else 0)])
  }

  /** The words after the stores that put `u` at the front of the list of class `c`. */
  ghost function PushWords(w: View, h: Option, c: nat, u: nat): View {
    var w1 := w.(slots := Set(w.slots, c, Ptr(u)), prv := Set(w.prv, u, 0), nxt := Set(w.nxt, u, PtrOf(h)));
    if h.Some? then w1.(prv := Set(w1.prv, h.unit, Ptr(u))) else w1
  }

  lemma PushStored(w: View, l: Lists, b: Blocks, c: nat, u: nat)
    requires Stored(w, l) && c < NUM_LISTS && u < UNITS && u !in l.at && HeadOk(l, b, c)
    ensures var w' := PushWords(w, l.heads[c], c, u);
      && Stored(w', Push(l, c, u))
      && (forall j :: 0 <= j < UNITS && j != u && j !in l.at ==> w'.prv[j] == w.prv[j] && w'.nxt[j] == w.nxt[j])
  {
  }

  lemma PushKeepsLinks(l: Lists, b: Blocks, u: nat)
    requires Linked(l, b) && u !in l.at && u in b && b[u].free
    requires HeadOk(l, b, ClassOf(b[u].size))
    ensures Linked(Push(l, ClassOf(b[u].size), u), b)
    ensures Push(l, ClassOf(b[u].size), u).at.Keys == l.at.Keys + {u}
  {
    var l' := Push(l, ClassOf(b[u].size), u);
    forall i | 0 <= i < NUM_LISTS ensures HeadOk(l', b, i) {
      assert HeadOk(l, b, i);
    }
    forall x | x in l'.at ensures LinkOk(l', b, x) {
      assert x != u ==> LinkOk(l, b, x);
    }
  }

  lemma PushKeepsExact(l: Lists, b: Blocks, u: nat)
    requires Exact(l, b) && u !in l.at && u in b
    requires HeadOk(l, b, ClassOf(b[u].size))
    ensures Exact(Push(l, ClassOf(b[u].size), u), b)
  {
    var l' := Push(l, ClassOf(b[u].size), u);
    forall x | x in l'.at && l'.at[x].prev == None ensures IsHead(l', b, x) {
      assert x != u ==> IsHead(l, b, x);
    }
  }

  /** Lists depend only on the blocks that are listed. */
  lemma LinkedFrame(l: Lists, b: Blocks, b': Blocks)
    requires Linked(l, b)
    requires forall u :: u in l.at && u in b ==> u in b' && b'[u] == b[u]
    ensures Linked(l, b')
    ensures Exact(l, b) ==> Exact(l, b')
  {
    forall u | u in l.at ensures LinkOk(l, b', u) && u in b && b'[u] == b[u] {
      assert LinkOk(l, b, u);
    }
    forall i | 0 <= i < NUM_LISTS ensures HeadOk(l, b', i) {
      assert HeadOk(l, b, i);
    }
    if Exact(l, b) {
      forall u | u in l.at && l.at[u].prev == None ensures IsHead(l, b', u) {
        assert IsHead(l, b, u);
      }
    }
  }

  /** Emptying a head keeps the links; it orphans a list exactly when there was one. */
  lemma ClearHead(l: Lists, b: Blocks, c: nat)
    requires Linked(l, b) && c < NUM_LISTS
    ensures Linked(l.(heads := l.heads[c := None]), b)
    ensures Exact(l, b) ==> (Exact(l.(heads := l.heads[c := None]), b) <==> l.heads[c] == None)
  {
    var l' := l.(heads := l.heads[c := None]);
    forall i | 0 <= i < NUM_LISTS ensures HeadOk(l', b, i) {
      assert HeadOk(l, b, i);
    }
    forall u | u in l.at ensures LinkOk(l', b, u) {
      assert LinkOk(l, b, u);
    }
    if l.heads[c] == None {
      assert l' == l;
    } else {
      assert HeadOk(l, b, c);
      assert !IsHead(l', b, l.heads[c].unit);
    }
  }

  ghost function Below(l: Lists, u: nat): set<nat>
    requires u in l.at
  {
    set v | v in l.at && l.at[v].rank < l.at[u].rank
  }

  /** A class with a listed block has a head. */
  lemma {:induction false} ClassHasHead(l: Lists, b: Blocks, u: nat)
    requires Linked(l, b) && Exact(l, b) && u in l.at && u in b
    ensures l.heads[ClassOf(b[u].size)].Some?
    decreases Below(l, u)
  {
    assert LinkOk(l, b, u);
    if l.at[u].prev == None {
      assert IsHead(l, b, u);
    } else {
      var v := l.at[u].prev.unit;
      assert v in Below(l, u) && v !in Below(l, v);
      ClassHasHead(l, b, v);
    }
  }

  ghost function Above(l: Lists, u: nat): set<nat>
    requires u in l.at
  {
    set v | v in l.at && l.at[v].rank > l.at[u].rank
  }

  /** The blocks met following `next` from `o`. */
  ghost function Chain(l: Lists, b: Blocks, o: Option): seq<nat>
    requires Linked(l, b) && (o.Some? ==> o.unit in l.at)
    decreases o.Some?, if o.Some? then Above(l, o.unit) else {}
  {
    if o.None? then []
    else
      assert LinkOk(l, b, o.unit);
      var n := l.at[o.unit].next;
      assert n.Some? ==> n.unit in Above(l, o.unit) && n.unit !in Above(l, n.unit);
      [o.unit] + Chain(l, b, n)
  }

  ghost function RankOf(l: Lists, u: nat): int {
    if u in l.at then l.at[u].rank else 0
  }

  /** A listed block at or after `o` in its class. */
  ghost predicate After(l: Lists, b: Blocks, o: Option, u: nat) {
    o.Some? && o.unit in l.at && u in l.at && l.at[u].rank >= l.at[o.unit].rank && SameClass(b, o.unit, u)
  }

  /** A chain stays in one class, and ranks grow along it. */
  lemma {:induction false} ChainOrdered(l: Lists, b: Blocks, o: Option)
    requires Linked(l, b) && (o.Some? ==> o.unit in l.at)
    ensures forall i :: 0 <= i < |Chain(l, b, o)| ==> After(l, b, o, Chain(l, b, o)[i])
    ensures forall i, j :: 0 <= i < j < |Chain(l, b, o)| ==> RankOf(l, Chain(l, b, o)[i]) < RankOf(l, Chain(l, b, o)[j])
    decreases o.Some?, if o.Some? then Above(l, o.unit) else {}
  {
    if o.Some? {
      assert LinkOk(l, b, o.unit);
      var n := l.at[o.unit].next;
      assert n.Some? ==> n.unit in Above(l, o.unit) && n.unit !in Above(l, n.unit);
      ChainOrdered(l, b, n);
      var ch, rest := Chain(l, b, o), Chain(l, b, n);
      assert ch == [o.unit] + rest;
      forall i | 0 <= i < |ch| ensures After(l, b, o, ch[i]) && (i > 0 ==> l.at[ch[i]].rank > l.at[o.unit].rank) {
        if i > 0 {
          assert After(l, b, n, rest[i - 1]);
        }
      }
      forall i, j | 0 <= i < j < |ch| ensures RankOf(l, ch[i]) < RankOf(l, ch[j]) {
        if i > 0 {
          assert ch[i] == rest[i - 1] && ch[j] == rest[j - 1];
        }
      }
    }
  }

  /** A chain holds the successor of each of its members. */
  lemma {:induction false} ChainFollows(l: Lists, b: Blocks, o: Option, u: nat)
    requires Linked(l, b) && (o.Some? ==> o.unit in l.at)
    requires u in Chain(l, b, o) && u in l.at && l.at[u].next.Some?
    ensures l.at[u].next.unit in Chain(l, b, o)
    decreases o.Some?, if o.Some? then Above(l, o.unit) else {}
  {
    assert LinkOk(l, b, o.unit);
    var n := l.at[o.unit].next;
    assert n.Some? ==> n.unit in Above(l, o.unit) && n.unit !in Above(l, n.unit);
    if u == o.unit {
      assert Chain(l, b, n)[0] == n.unit;
    } else {
      ChainFollows(l, b, n, u);
    }
  }

  lemma {:induction false} ChainReaches(l: Lists, b: Blocks, u: nat)
    requires Linked(l, b) && Exact(l, b) && u in l.at && u in b
    requires HeadOk(l, b, ClassOf(b[u].size))
    ensures u in Chain(l, b, l.heads[ClassOf(b[u].size)])
    decreases Below(l, u)
  {
    var head := l.heads[ClassOf(b[u].size)];
    assert LinkOk(l, b, u);
    if l.at[u].prev == None {
      assert IsHead(l, b, u);
      assert Chain(l, b, head)[0] == u;
    } else {
      var v := l.at[u].prev.unit;
      assert v in Below(l, u) && v !in Below(l, v);
      ChainReaches(l, b, v);
      ChainFollows(l, b, head, v);
    }
  }

  /**
   Free-list exactness: following `next` from the head of a class visits each listed block of that
   class once and nothing else.
   */
  lemma ListExact(l: Lists, b: Blocks, c: nat)
    requires Linked(l, b) && Exact(l, b) && c < NUM_LISTS
    requires l.heads[c].Some? ==> l.heads[c].unit in l.at
    ensures var ch := Chain(l, b, l.heads[c]);
      && (forall u :: u in ch <==> u in l.at && u in b && ClassOf(b[u].size) == c)
      && (forall i, j :: 0 <= i < j < |ch| ==> ch[i] != ch[j])
  {
    var ch := Chain(l, b, l.heads[c]);
    assert HeadOk(l, b, c);
    ChainOrdered(l, b, l.heads[c]);
    assert forall u :: u in ch ==> After(l, b, l.heads[c], u);
    forall u | u in l.at && u in b && ClassOf(b[u].size) == c ensures u in ch {
      ChainReaches(l, b, u);
    }
  }
}
