/**
 A tablet: a chained hash table whose records live in the allocator's arena and whose bucket heads
 follow it in the image.
 */
module Tablets {
  import opened Arithmetic
  import opened Bytes
  import opened Layout
  import opened Blocks
  import opened Allocation
  import FreeLists
  import opened HashChains
  import opened Modifications

  const OBJECT: nat := 16

  /** Field widths of an `NVMObject`. */
  ghost predicate Fits(r: Rec) {
    r.next < 0x1_0000_0000 && |r.key| < 0x1_0000 && |r.val| < 0x1_0000 && r.hash < 0x1_0000_0000_0000_0000
  }

  function Header(next: nat, keyLen: nat, valLen: nat, hash: nat): (s: seq<Byte>)
    ensures |s| == OBJECT
  {
    Digits(next, 4) + Digits(keyLen, 2) + Digits(valLen, 2) + Digits(hash, 8)
  }

  function Encoded(r: Rec): (s: seq<Byte>)
    ensures |s| == OBJECT + |r.key| + |r.val|
  {
    Header(r.next, |r.key|, |r.val|, r.hash) + r.key + r.val
  }

  /** The payload of a live block starts with the encoding of a record. */
  ghost predicate Encodes(pay: seq<Byte>, r: Rec) {
    Fits(r) && Encoded(r) <= pay
  }

  lemma HeaderFields(next: nat, keyLen: nat, valLen: nat, hash: nat)
    ensures var h := Header(next, keyLen, valLen, hash);
      && h[0..4] == Digits(next, 4) && h[4..6] == Digits(keyLen, 2) && h[6..8] == Digits(valLen, 2)
      && h[8..16] == Digits(hash, 8)
  {
    hide Digits;
  }

  /** Decoding a stored record gives back its fields. */
  lemma Decode(pay: seq<Byte>, r: Rec)
    requires Encodes(pay, r)
    ensures |pay| >= OBJECT + |r.key| + |r.val|
    ensures Number(pay[0..4]) == r.next && Number(pay[4..6]) == |r.key| && Number(pay[6..8]) == |r.val|
    ensures Number(pay[8..16]) == r.hash
    ensures pay[OBJECT..OBJECT + |r.key|] == r.key
    ensures pay[OBJECT + |r.key|..OBJECT + |r.key| + |r.val|] == r.val
  {
    EncodedParts(pay, r);
    EncodedValue(pay, r);
    Widths();
    hide Header, Encodes, Encoded, Digits, Number;
    NumberOfDigits(r.next, 4);
    NumberOfDigits(|r.key|, 2);
    NumberOfDigits(|r.val|, 2);
    NumberOfDigits(r.hash, 8);
    HeaderFields(r.next, |r.key|, |r.val|, r.hash);
    var h := pay[..OBJECT];
    assert pay[0..4] == h[0..4] && pay[4..6] == h[4..6] && pay[6..8] == h[6..8] && pay[8..16] == h[8..16];
  }

  lemma EncodedValue(pay: seq<Byte>, r: Rec)
    requires Encodes(pay, r)
    ensures |pay| >= OBJECT + |r.key| + |r.val| && pay[OBJECT + |r.key|..OBJECT + |r.key| + |r.val|] == r.val
  {
    hide Header;
    var s, k := Encoded(r), OBJECT + |r.key|;
    assert pay[k..k + |r.val|] == s[k..];
  }

  /** Storing a header and then the data leaves the encoding. */
  lemma EncodeNew(pay: seq<Byte>, r: Rec)
    requires Fits(r) && OBJECT + |r.key| + |r.val| <= |pay|
    ensures Encodes(Splice(Splice(pay, 0, Header(r.next, |r.key|, |r.val|, r.hash)), OBJECT, r.key + r.val), r)
  {
    var h := Header(r.next, |r.key|, |r.val|, r.hash);
    var p := Splice(Splice(pay, 0, h), OBJECT, r.key + r.val);
    assert Encoded(r) == h + (r.key + r.val);
    assert p[..|Encoded(r)|] == Encoded(r);
  }

  lemma EncodeLink(pay: seq<Byte>, r: Rec, v: nat)
    requires Encodes(pay, r) && v < 0x1_0000_0000
    ensures |pay| >= OBJECT && Encodes(Splice(pay, 0, Digits(v, 4)), r.(next := v))
  {
    var p, r' := Splice(pay, 0, Digits(v, 4)), r.(next := v);
    assert forall i :: 4 <= i < |Encoded(r)| ==> Encoded(r')[i] == Encoded(r)[i];
    assert p[..|Encoded(r')|] == Encoded(r');
  }

  lemma EncodedParts(pay: seq<Byte>, r: Rec)
    requires Encodes(pay, r)
    ensures |pay| >= OBJECT + |r.key| + |r.val| && Fits(r)
    ensures pay[..OBJECT] == Header(r.next, |r.key|, |r.val|, r.hash) && pay[OBJECT..OBJECT + |r.key|] == r.key
  {
    var s := Encoded(r);
    assert pay[..OBJECT] == s[..OBJECT] && pay[OBJECT..OBJECT + |r.key|] == s[OBJECT..OBJECT + |r.key|];
  }

  lemma ShorterParts(pay: seq<Byte>, k: nat, lens: seq<Byte>, val: seq<Byte>)
    requires OBJECT <= k && k + |val| <= |pay| && |lens| == 2
    ensures var p := Splice(Splice(pay, 6, lens), k, val);
      && p[..OBJECT] == Splice(pay[..OBJECT], 6, lens)
      && p[OBJECT..k] == pay[OBJECT..k]
      && p[k..k + |val|] == val
      && p[..k + |val|] == p[..OBJECT] + p[OBJECT..k] + p[k..k + |val|]
  {
  }

  /** A shorter value stored over an old one, after its length. */
  lemma EncodeShorter(pay: seq<Byte>, r: Rec, val: seq<Byte>)
    requires Encodes(pay, r) && |val| <= |r.val|
    ensures |pay| >= OBJECT + |r.key| + |val|
    ensures Encodes(Splice(Splice(pay, 6, Digits(|val|, 2)), OBJECT + |r.key|, val), r.(val := val))
  {
    hide Header, Digits, Splice, Encodes, Encoded;
    EncodedParts(pay, r);
    HeaderLength(r.next, |r.key|, |r.val|, |val|, r.hash);
    ShorterParts(pay, OBJECT + |r.key|, Digits(|val|, 2), val);
    EncodesParts(Splice(Splice(pay, 6, Digits(|val|, 2)), OBJECT + |r.key|, val), r.(val := val));
  }

  lemma EncodesParts(p: seq<Byte>, r: Rec)
    requires Fits(r) && |p| >= OBJECT + |r.key| + |r.val|
    requires p[..OBJECT] == Header(r.next, |r.key|, |r.val|, r.hash) && p[OBJECT..OBJECT + |r.key|] == r.key
    requires p[OBJECT + |r.key|..OBJECT + |r.key| + |r.val|] == r.val
    ensures Encodes(p, r)
  {
    hide Header;
    var k, n := OBJECT + |r.key|, OBJECT + |r.key| + |r.val|;
    assert p[..n] == p[..OBJECT] + p[OBJECT..k] + p[k..n];
  }

  lemma HeaderLength(next: nat, keyLen: nat, valLen: nat, valLen': nat, hash: nat)
    ensures Splice(Header(next, keyLen, valLen, hash), 6, Digits(valLen', 2)) == Header(next, keyLen, valLen', hash)
  {
  }

  function SlotOffset(i: nat): nat { K_SIZE + 4 * i }

  ghost predicate HeadAt(m: seq<Byte>, heads: seq<nat>, i: nat)
    requires |m| == IMAGE_SIZE && i < HASH_TABLE_SIZE && |heads| == HASH_TABLE_SIZE
  {
    Word(m, SlotOffset(i)) == heads[i]
  }

  ghost predicate RecHeld(m: seq<Byte>, b: Blocks, recs: map<nat, Rec>, u: nat)
    requires |m| == IMAGE_SIZE && u in recs
  {
    && u in Live(b) && b[u].size >= 1 && End(b, u) <= UNITS
    && Encodes(Payload(m, b, u), recs[u])
  }

  /** The image holds these bucket heads and, in its live blocks, these records. */
  ghost predicate Holds(m: seq<Byte>, b: Blocks, heads: seq<nat>, recs: map<nat, Rec>) {
    && |m| == IMAGE_SIZE && |heads| == HASH_TABLE_SIZE
    && (forall i {:trigger HeadAt(m, heads, i)} :: 0 <= i < HASH_TABLE_SIZE ==> HeadAt(m, heads, i))
    && (forall u {:trigger RecHeld(m, b, recs, u)} :: u in recs ==> RecHeld(m, b, recs, u))
  }

  lemma SameTableWord(m: seq<Byte>, m': seq<Byte>, i: nat)
    requires |m| == |m'| == IMAGE_SIZE && i < HASH_TABLE_SIZE && m'[K_SIZE..] == m[K_SIZE..]
    ensures Word(m', SlotOffset(i)) == Word(m, SlotOffset(i))
  {
    var o := SlotOffset(i);
    assert m[o..o + 4] == m[K_SIZE..][4 * i..4 * i + 4];
    assert m'[o..o + 4] == m'[K_SIZE..][4 * i..4 * i + 4];
  }

  /** Allocating and freeing keep every record outside the block concerned. */
  lemma HoldsKept(m: seq<Byte>, b: Blocks, m': seq<Byte>, b': Blocks, heads: seq<nat>, recs: map<nat, Rec>,
                  but: set<nat>)
    requires Holds(m, b, heads, recs) && |m'| == |m| && m'[K_SIZE..] == m[K_SIZE..]
    requires Kept(m, b, m', b', but)
    ensures Holds(m', b', heads, recs - but)
  {
    forall i | 0 <= i < HASH_TABLE_SIZE ensures HeadAt(m', heads, i) {
      assert HeadAt(m, heads, i);
      SameTableWord(m, m', i);
    }
    var rest := recs - but;
    forall u | u in rest ensures RecHeld(m', b', rest, u) {
      assert RecHeld(m, b, recs, u);
      assert u in Live(b);
    }
  }

  /** A store into the payload of `u` after which the payload encodes `r`. */
  lemma HoldsStore(m: seq<Byte>, b: Blocks, heads: seq<nat>, recs: map<nat, Rec>, u: nat, k: nat, s: seq<Byte>)
    requires Holds(m, b, heads, recs) && Tiling(b) && u in Live(b) && b[u].size >= 1 && End(b, u) <= UNITS
    requires k + |s| <= 16 * b[u].size - 4
    ensures Holds(Splice(m, NodePtr(u) + k, s), b, heads, recs - {u})
    ensures Payload(Splice(m, NodePtr(u) + k, s), b, u) == Splice(Payload(m, b, u), k, s)
  {
    var m' := Splice(m, NodePtr(u) + k, s);
    PayloadSplice(m, b, u, k, s, u);
    forall i | 0 <= i < HASH_TABLE_SIZE ensures HeadAt(m', heads, i) {
      assert HeadAt(m, heads, i);
      WordOther(m, NodePtr(u) + k, s, SlotOffset(i));
    }
    forall v | v in recs - {u} ensures RecHeld(m', b, recs - {u}, v) {
      assert RecHeld(m, b, recs, v);
      PayloadSplice(m, b, u, k, s, v);
    }
  }

  lemma HoldsAdd(m: seq<Byte>, b: Blocks, heads: seq<nat>, recs: map<nat, Rec>, u: nat, r: Rec)
    requires Holds(m, b, heads, recs - {u}) && u in Live(b) && b[u].size >= 1 && End(b, u) <= UNITS
    requires Encodes(Payload(m, b, u), r)
    ensures Holds(m, b, heads, recs[u := r])
  {
    var recs' := recs[u := r];
    forall v | v in recs' ensures RecHeld(m, b, recs', v) {
      assert v != u ==> RecHeld(m, b, recs - {u}, v);
    }
  }

  lemma HoldsHead(m: seq<Byte>, b: Blocks, heads: seq<nat>, recs: map<nat, Rec>, i: nat, v: nat)
    requires Holds(m, b, heads, recs) && i < HASH_TABLE_SIZE && v < 0x1_0000_0000
    ensures Holds(Splice(m, SlotOffset(i), Digits(v, 4)), b, heads[i := v], recs)
  {
    var m' := Splice(m, SlotOffset(i), Digits(v, 4));
    var heads' := heads[i := v];
    forall x | 0 <= x < HASH_TABLE_SIZE ensures HeadAt(m', heads', x) {
      assert HeadAt(m, heads, x);
      if x == i {
        WordSame(m, SlotOffset(i), v);
      } else {
        WordOther(m, SlotOffset(i), Digits(v, 4), SlotOffset(x));
      }
    }
    forall u | u in recs ensures RecHeld(m', b, recs, u) {
      assert RecHeld(m, b, recs, u);
      SpliceOther(m, SlotOffset(i), Digits(v, 4), Ptr(u) + 4, Ptr(End(b, u)));
    }
  }

  /** Reads of a record's fields through its payload. */
  lemma FieldReads(m: seq<Byte>, b: Blocks, heads: seq<nat>, recs: map<nat, Rec>, u: nat)
    requires Holds(m, b, heads, recs) && u in recs
    ensures var p, r := NodePtr(u), recs[u];
      && p + OBJECT + |r.key| + |r.val| <= K_SIZE
      && Number(m[p..p + 4]) == r.next && Number(m[p + 4..p + 6]) == |r.key| && Number(m[p + 6..p + 8]) == |r.val|
      && m[p + OBJECT..p + OBJECT + |r.key|] == r.key
      && m[p + OBJECT + |r.key|..p + OBJECT + |r.key| + |r.val|] == r.val
  {
    assert RecHeld(m, b, recs, u);
    var pay, p, r := Payload(m, b, u), NodePtr(u), recs[u];
    Decode(pay, r);
    var k, e := OBJECT + |r.key|, Ptr(End(b, u));
    hide Encodes, Holds, Number;
    Within(m, p, e, 0, 4);
    Within(m, p, e, 4, 6);
    Within(m, p, e, 6, 8);
    Within(m, p, e, OBJECT, k);
    Within(m, p, e, k, k + |r.val|);
  }

  lemma Within(m: seq<Byte>, p: nat, e: nat, x: nat, y: nat)
    requires p <= e <= |m| && x <= y <= e - p
    ensures m[p..e][x..y] == m[p + x..p + y]
  {
    assert forall i :: 0 <= i < y - x ==> m[p..e][x..y][i] == m[p + x..p + y][i];
  }

  lemma HoldsTwoStores(m: seq<Byte>, b: Blocks, heads: seq<nat>, recs: map<nat, Rec>, u: nat, k: nat, s: seq<Byte>,
                       k': nat, s': seq<Byte>)
    requires Holds(m, b, heads, recs) && Tiling(b) && u in Live(b) && b[u].size >= 1 && End(b, u) <= UNITS
    requires k + |s| <= 16 * b[u].size - 4 && k' + |s'| <= 16 * b[u].size - 4
    ensures Holds(Splice(Splice(m, NodePtr(u) + k, s), NodePtr(u) + k', s'), b, heads, recs - {u})
    ensures Payload(Splice(Splice(m, NodePtr(u) + k, s), NodePtr(u) + k', s'), b,
      u) == Splice(Splice(Payload(m, b, u), k, s), k', s')
  {
    assert |m| == IMAGE_SIZE;
    hide Holds;
    HoldsStore(m, b, heads, recs, u, k, s);
    HoldsStore(Splice(m, NodePtr(u) + k, s), b, heads, recs - {u}, u, k', s');
    assert recs - {u} - {u} == recs - {u};
  }

  /** The stores of a new record. */
  lemma HoldsNode(m: seq<Byte>, b: Blocks, heads: seq<nat>, recs: map<nat, Rec>, u: nat, r: Rec)
    requires Holds(m, b, heads, recs) && Tiling(b) && u in Live(b) && b[u].size >= 1 && End(b, u) <= UNITS
    requires Fits(r) && OBJECT + |r.key| + |r.val| <= 16 * b[u].size - 4
    ensures var m1 := Splice(m, NodePtr(u), Header(r.next, |r.key|, |r.val|, r.hash));
      Holds(Splice(m1, NodePtr(u) + OBJECT, r.key + r.val), b, heads, recs[u := r])
  {
    assert |m| == IMAGE_SIZE;
    hide Holds, Encodes, Header, Tiling, Splice, Payload;
    var h, d := Header(r.next, |r.key|, |r.val|, r.hash), r.key + r.val;
    HoldsTwoStores(m, b, heads, recs, u, 0, h, OBJECT, d);
    var m2 := Splice(Splice(m, NodePtr(u), h), NodePtr(u) + OBJECT, d);
    assert Encodes(Payload(m2, b, u), r) by {
      EncodeNew(Payload(m, b, u), r);
    }
    HoldsAdd(m2, b, heads, recs, u, r);
  }

  /** The store of a link into a record. */
  lemma HoldsLink(m: seq<Byte>, b: Blocks, heads: seq<nat>, recs: map<nat, Rec>, u: nat, v: nat)
    requires Holds(m, b, heads, recs) && Tiling(b) && u in recs && v < 0x1_0000_0000
    ensures u in Live(b) && Ptr(u) + 8 <= Ptr(End(b, u)) <= |m|
    ensures Holds(Splice(m, NodePtr(u), Digits(v, 4)), b, heads, recs[u := recs[u].(next := v)])
  {
    assert RecHeld(m, b, recs, u);
    HoldsStore(m, b, heads, recs, u, 0, Digits(v, 4));
    EncodeLink(Payload(m, b, u), recs[u], v);
    HoldsAdd(Splice(m, NodePtr(u), Digits(v, 4)), b, heads, recs, u, recs[u].(next := v));
  }

  /** A record fits the payload of its block. */
  lemma RecFits(m: seq<Byte>, b: Blocks, heads: seq<nat>, recs: map<nat, Rec>, u: nat)
    requires Holds(m, b, heads, recs) && u in recs
    ensures |m| == IMAGE_SIZE && u in Live(b) && b[u].size >= 1 && End(b, u) <= UNITS
    ensures OBJECT + |recs[u].key| + |recs[u].val| <= 16 * b[u].size - 4
    ensures Encodes(Payload(m, b, u), recs[u])
  {
    assert RecHeld(m, b, recs, u);
    EncodedParts(Payload(m, b, u), recs[u]);
  }

  /** The stores of a shorter value. */
  lemma HoldsShorter(m: seq<Byte>, b: Blocks, heads: seq<nat>, recs: map<nat, Rec>, u: nat, val: seq<Byte>)
    requires Holds(m, b, heads, recs) && Tiling(b) && u in recs && |val| <= |recs[u].val|
    requires NodePtr(u) + OBJECT + |recs[u].key| + |val| <= |m|
    ensures var m1 := Splice(m, NodePtr(u) + 6, Digits(|val|, 2));
      Holds(Splice(m1, NodePtr(u) + OBJECT + |recs[u].key|, val), b, heads, recs[u := recs[u].(val := val)])
  {
    hide Holds, Encodes, Tiling, Digits, Splice, Payload;
    RecFits(m, b, heads, recs, u);
    var pay, k, d := Payload(m, b, u), OBJECT + |recs[u].key|, Digits(|val|, 2);
    HoldsTwoStores(m, b, heads, recs, u, 6, d, k, val);
    var m2, r := Splice(Splice(m, NodePtr(u) + 6, d), NodePtr(u) + k, val), recs[u].(val := val);
    assert Encodes(Payload(m2, b, u), r) by {
      EncodeShorter(pay, recs[u], val);
    }
    HoldsAdd(m2, b, heads, recs, u, r);
  }

  /** Record links lie inside the arena. */
  lemma RecInside(m: seq<Byte>, b: Blocks, t: Table, i: nat, j: nat)
    requires Holds(m, b, t.heads, t.recs) && i < |t.chains| && j <= |t.chains[i]|
    requires j > 0 ==> t.chains[i][j - 1] in t.recs
    ensures j > 0 ==> NodePtr(t.chains[i][j - 1]) < K_SIZE
  {
    if j > 0 {
      assert RecHeld(m, b, t.recs, t.chains[i][j - 1]);
    }
  }

  lemma NodeAddress(a: Allocator, u: nat)
    requires a.Valid() && u in a.blocks
    ensures NodePtr(u) < 0x1_0000_0000
  {
    ConsistentEdge(a.w, a.blocks, a.lists, u);
  }

  lemma HeadBound(tb: Tablet, i: nat)
    requires tb.Rep() && i < HASH_TABLE_SIZE
    ensures |tb.t.heads| == HASH_TABLE_SIZE && tb.t.heads[i] < 0x1_0000_0000
  {
    assert HeadAt(tb.alloc.mem[..], tb.t.heads, i);
  }

  lemma SpotsBound(spots: set<nat>, at: set<nat>, a: nat, b: nat)
    requires spots <= at + {a} + {b}
    ensures |spots| <= |at| + 2
  {
    SubsetSize(spots, at + {a} + {b});
  }

  lemma NextBound(tb: Tablet, u: nat)
    requires tb.Rep() && u in tb.t.recs
    ensures tb.t.recs[u].next < 0x1_0000_0000
  {
    assert RecHeld(tb.alloc.mem[..], tb.alloc.blocks, tb.t.recs, u);
  }

  lemma BlockOf(tb: Tablet, u: nat)
    requires tb.Valid() && u in tb.t.recs
    ensures u in tb.alloc.blocks
  {
    assert u in Live(tb.alloc.blocks);
  }

  lemma KeyParts(r: Rec, i: nat, key: seq<Byte>)
    requires KeyOf(r) == (i, key)
    ensures r.key == key
  {
  }

  lemma SitesLength(a: Allocator)
    requires a.Valid()
    ensures |a.log| == |a.trace.sites|
  {
  }

  /** A new record is in the log as two entries inside the arena: its object header, and then `n` bytes of data. */
  ghost predicate DataLogged(log: seq<Modification>, n: nat) {
    exists k :: 0 <= k < |log| - 1 && DataLoggedAt(log, k, n)
  }

  ghost predicate DataLoggedAt(log: seq<Modification>, k: nat, n: nat)
    requires k + 1 < |log|
  {
    && log[k].len == OBJECT && log[k + 1].des == log[k].des + OBJECT
    && log[k + 1].len == n && log[k + 1].des + n <= K_SIZE
  }

  lemma DataLoggedMore(log: seq<Modification>, e: Modification, n: nat)
    requires DataLogged(log, n)
    ensures DataLogged(log + [e], n)
  {
    var k :| 0 <= k < |log| - 1 && DataLoggedAt(log, k, n);
    assert DataLoggedAt(log + [e], k, n);
  }

  lemma DataLoggedLast(log: seq<Modification>, h: Modification, e: Modification)
    requires h.len == OBJECT && e.des == h.des + OBJECT && e.des + e.len <= K_SIZE
    ensures DataLogged(log + [h] + [e], e.len)
  {
    assert DataLoggedAt(log + [h] + [e], |log|, e.len);
  }

  lemma ShortenedBy(m: seq<Byte>, b: Blocks, heads: seq<nat>, recs: map<nat, Rec>, u: nat, val: seq<Byte>, base: nat)
    requires Holds(m, b, heads, recs) && u in recs && |val| < |recs[u].val|
    ensures var p, k := NodePtr(u), |recs[u].key|; var v := p + OBJECT + k;
      && v + |val| <= |m|
      && Shortened(m, Splice(Splice(m, p + 6, Digits(|val|, 2)), v, val),
                   [Modification(p + 6, base + (p + 6), 2), Modification(v, base + v, |val|)], base, p, k,
                     recs[u].val, val)
  {
    FieldReads(m, b, heads, recs, u);
    hide Holds, Splice, Digits;
  }

  /** A record was inserted at the head of bucket `i`: stores went to the list table, the data and the bucket head. */
  ghost predicate Inserted(t: Table, t': Table, i: nat, log: seq<Modification>, trace: Trace, n: nat) {
    && |t.heads| == |t'.heads| == HASH_TABLE_SIZE && i < HASH_TABLE_SIZE && t.heads[i] != t'.heads[i]
    && trace.low < FIRST && DataLogged(log, n) && |log| <= 14
  }

  /** The two stores that overwrite the value of the record at `p` with a shorter one. */
  ghost predicate Shortened(m: seq<Byte>, m': seq<Byte>, log: seq<Modification>, base: nat, p: nat, keyLen: nat,
                            prior: seq<Byte>, val: seq<Byte>)
  {
    var v := p + OBJECT + keyLen;
    && v + |prior| <= |m| && |val| < |prior| && m[v..v + |prior|] == prior
    && log == [Modification(p + 6, base + (p + 6), 2), Modification(v, base + v, |val|)]
    && m' == Splice(Splice(m, p + 6, Digits(|val|, 2)), v, val)
  }

  /** The blocks among which `Put` looks for room: those left once an old record of the key is freed. */
  ghost function Available(b: Blocks, t: Table, k: Key): Blocks {
    if k in t.owner && t.owner[k] in b then AfterFreeing(b, t.owner[k]) else b
  }

  /** The free lists that `Put` then searches. */
  ghost function AvailableLists(b: Blocks, l: FreeLists.Lists, t: Table, k: Key): FreeLists.Lists {
    if k in t.owner && t.owner[k] in b then ListsAfterFreeing(b, l, t.owner[k]) else l
  }

  /** The first record of bucket `i` has this key. */
  ghost predicate FirstIn(t: Table, i: nat, key: seq<Byte>) {
    i < |t.chains| && t.chains[i] != [] && t.chains[i][0] in t.recs && t.recs[t.chains[i][0]].key == key
  }

  /** The record at position `j` of bucket `i` was replaced by one in block `u`. */
  ghost predicate ReplacedBy(t: Table, t': Table, i: nat, j: nat, u: nat, hash: nat, key: seq<Byte>, val: seq<Byte>) {
    CanReplace(t, i, j, u, hash, key) && t' == Replace(t, i, j, u, hash, key, val)
  }

  ghost predicate Replaced(t: Table, t': Table, hash: nat, key: seq<Byte>, val: seq<Byte>) {
    exists j: nat, u: nat :: ReplacedBy(t, t', BucketOf(hash), j, u, hash, key, val)
  }

  /** The record at position `j` of bucket `i` was removed. */
  ghost predicate RemovedAt(t: Table, t': Table, i: nat, j: nat) {
    && TableOk(t) && i < HASH_TABLE_SIZE && j < |t.chains[i]| && t.chains[i][j] in t.recs
    && t' == Remove(t, i, j)
  }

  ghost predicate Removed(t: Table, t': Table, i: nat, key: seq<Byte>) {
    exists j: nat :: RemovedAt(t, t', i, j) && t.recs[t.chains[i][j]].key == key
  }

  /** `Put` overwrites the value in place. */
  ghost predicate InPlace(t: Table, k: Key, val: seq<Byte>) {
    k in Contents(t) && |val| < |Contents(t)[k]|
  }

  /** The bytes that `Put` and `Add` ask the allocator for, with the block's header. */
  function Need(key: seq<Byte>, val: seq<Byte>): nat { OBJECT + |key| + |val| + 4 }

  /** The bytes after the arena are all zero. */
  ghost predicate Zeroed(m: seq<Byte>) {
    |m| == IMAGE_SIZE && forall i :: K_SIZE <= i < IMAGE_SIZE ==> m[i] == 0
  }

  /** A new bucket head differs from the old one. */
  lemma HeadIsNew(t: Table, u: nat, hash: nat, key: seq<Byte>, val: seq<Byte>)
    requires TableOk(t) && u !in t.recs
    ensures var i, t' := BucketOf(hash), Insert(t, u, hash, key, val);
      |t.heads| == |t'.heads| == HASH_TABLE_SIZE && t.heads[i] != t'.heads[i]
  {
    var i := BucketOf(hash);
    assert ChainAt(t, i);
    assert t.chains[i] != [] ==> LinkedAt(t, i, 0);
  }

  /** Once the first record is unlinked the bucket head differs. */
  lemma HeadIsGone(t: Table, i: nat)
    requires TableOk(t) && i < HASH_TABLE_SIZE && t.chains[i] != [] && t.chains[i][0] in t.recs
    ensures t.heads[i] == NodePtr(t.chains[i][0]) != t.recs[t.chains[i][0]].next
  {
    assert ChainAt(t, i) && LinkedAt(t, i, 0);
  }

  datatype Status = OK | ERROR | Aborted

  class Tablet {
    const alloc: Allocator
    ghost var t: Table

    /** The image holds the table's records, and the allocator keeps its invariants. */
    ghost predicate Rep()
      reads this, alloc, alloc.mem
    {
      RepOf(t.heads, t.recs)
    }

    ghost predicate RepOf(heads: seq<nat>, recs: map<nat, Rec>)
      reads alloc, alloc.mem
    {
      && alloc.Valid() && alloc.build.alwaysWritesFooter
      && (alloc.build.guardsNullNext ==> alloc.ListsExact())
      && Holds(alloc.mem[..], alloc.blocks, heads, recs)
    }

    ghost predicate Valid()
      reads this, alloc, alloc.mem
    {
      Rep() && TableOk(t) && t.recs.Keys == Live(alloc.blocks)
    }

    /** A formatted image: an empty tablet, if and only if the memory after the arena happens to be zero. */
    constructor (image: array<Byte>, base: nat, build: Build)
      requires image.Length == IMAGE_SIZE && build.alwaysWritesFooter
      modifies image
      ensures Valid() <==> Zeroed(old(image[..]))
      ensures t == EmptyTable() && Contents(t) == map[] && fresh(alloc) && alloc.mem == image &&
        alloc.build == build && alloc.base == base
      ensures alloc.Valid() && alloc.ListsExact() && alloc.Formatted() && alloc.blocks == NEW_BLOCKS &&
        image[K_SIZE..] == old(image[K_SIZE..])
    {
      var a := new Allocator(image, base, build);
      alloc := a;
      t := EmptyTable();
      new;
      EmptyHolds(alloc.mem[..], alloc.blocks);
      TailZeroed(old(image[..]), image[..]);
    }

    function ReadHead(i: nat): (v: nat)
      requires Rep() && i < HASH_TABLE_SIZE
      reads this, alloc, alloc.mem
      ensures v == t.heads[i]
    {
      assert HeadAt(alloc.mem[..], t.heads, i);
      Word(alloc.mem[..], SlotOffset(i))
    }

    function ReadLink(p: nat, ghost u: nat): (v: nat)
      requires Rep() && u in t.recs && p == NodePtr(u)
      reads this, alloc, alloc.mem
      ensures v == t.recs[u].next
    {
      FieldReads(alloc.mem[..], alloc.blocks, t.heads, t.recs, u);
      Number(alloc.mem[..][p..p + 4])
    }

    predicate KeyMatches(p: nat, key: seq<Byte>, ghost u: nat)
      requires Rep() && u in t.recs && p == NodePtr(u)
      reads this, alloc, alloc.mem
      ensures KeyMatches(p, key, u) <==> t.recs[u].key == key
    {
      FieldReads(alloc.mem[..], alloc.blocks, t.heads, t.recs, u);
      Number(alloc.mem[..][p + 4..p + 6]) == |key| && alloc.mem[..][p + OBJECT..p + OBJECT + |key|] == key
    }

    function ReadVal(p: nat, keyLen: nat, ghost u: nat): (v: seq<Byte>)
      requires Rep() && u in t.recs && p == NodePtr(u) && keyLen == |t.recs[u].key|
      reads this, alloc, alloc.mem
      ensures v == t.recs[u].val
    {
      FieldReads(alloc.mem[..], alloc.blocks, t.heads, t.recs, u);
      var len := Number(alloc.mem[..][p + 6..p + 8]);
      alloc.mem[..][p + OBJECT + keyLen..p + OBJECT + keyLen + len]
    }

    /** The walk all four operations start with: stop at the first record of the bucket with this key. */
    method Search(i: nat, key: seq<Byte>) returns (q: nat, p: nat, ghost j: nat)
      requires Valid() && i < HASH_TABLE_SIZE
      ensures j <= |t.chains[i]| && p == LinkTo(t.chains[i], j)
      ensures q == if j == 0 then SlotOffset(i) else NodePtr(t.chains[i][j - 1])
      ensures p != 0 <==> (i, key) in Contents(t)
      ensures p != 0 ==>
        && j < |t.chains[i]| && LinkedAt(t, i, j) && t.chains[i][j] in t.recs
        && (i, key) in t.owner && t.owner[(i, key)] == t.chains[i][j]
        && KeyOf(t.recs[t.chains[i][j]]) == (i, key) && Contents(t)[(i, key)] == t.recs[t.chains[i][j]].val
      ensures p == 0 ==> (i, key) !in t.owner
      ensures p != 0 && FirstIn(t, i, key) ==> j == 0
    {
      ghost var ch := t.chains[i];
      assert ChainAt(t, i);
      q, p, j := SlotOffset(i), ReadHead(i), 0;
      while p != 0
        invariant j <= |ch| && p == LinkTo(ch, j) && q == if j == 0 then SlotOffset(i) else NodePtr(ch[j - 1])
        invariant forall x :: 0 <= x < j && ch[x] in t.recs ==> t.recs[ch[x]].key != key
        decreases |ch| - j
      {
        assert LinkedAt(t, i, j);
        if KeyMatches(p, key, ch[j]) {
          LookupHit(t, i, j, key);
          return;
        }
        q, p, j := p, ReadLink(p, ch[j]), j + 1;
      }
      LookupMiss(t, i, key);
    }

    /** Store a record in a fresh block: first the object header, then key and value. */
    method WriteNode(p: nat, r: Rec, ghost u: nat)
      requires Rep() && u in Live(alloc.blocks) && u !in t.recs && p == NodePtr(u)
      requires Fits(r) && OBJECT + |r.key| + |r.val| <= 16 * alloc.blocks[u].size - 4
      modifies this`t, alloc`log, alloc`trace, alloc`w, alloc.mem
      ensures Rep() && t == old(t).(recs := old(t).recs[u := r])
      ensures DataLogged(alloc.log, |r.key| + |r.val|) && alloc.trace.low <= old(alloc.trace.low)
      ensures |alloc.log| == |old(alloc.log)| + 2 && alloc.trace.spots == old(alloc.trace.spots) + {p - 8}
    {
      hide Holds, Accounts, Consistent, Mirrors, FreeLists.Exact, Header, Splice, DataLogged;
      ghost var m, b := alloc.mem[..], alloc.blocks;
      LiveFacts(alloc, u);
      HoldsNode(m, b, t.heads, t.recs, u, r);
      SitesLength(alloc);
      alloc.WritePayload(p, Header(r.next, |r.key|, |r.val|, r.hash), u, p - 8);
      alloc.WritePayload(p + OBJECT, r.key + r.val, u, p - 8);
      t := t.(recs := t.recs[u := r]);
      DataLoggedLast(old(alloc.log), Modification(p, alloc.base + p, OBJECT),
                     Modification(p + OBJECT, alloc.base + (p + OBJECT), |r.key| + |r.val|));
    }

    /** Make the link to position `j` of bucket `i` lead to `v`; `q` is where that link is stored. */
    method WriteLink(q: nat, v: nat, ghost i: nat, ghost j: nat)
      requires Rep() && i < HASH_TABLE_SIZE && i < |t.chains| && j <= |t.chains[i]| && v < 0x1_0000_0000
      requires q == if j == 0 then SlotOffset(i) else NodePtr(t.chains[i][j - 1])
      requires j > 0 ==> t.chains[i][j - 1] in t.recs
      modifies this`t, alloc`log, alloc`trace, alloc`w, alloc`table, alloc.mem
      ensures Rep() && t == SetLink(old(t), i, j, v)
      ensures alloc.log == old(alloc.log) + [Modification(q, alloc.base + q, 4)] &&
        alloc.trace.low <= old(alloc.trace.low)
      ensures alloc.trace.spots == old(alloc.trace.spots) + {q}
    {
      hide Accounts, Consistent, Mirrors, FreeLists.Exact, Splice, Encodes;
      ghost var m, b := alloc.mem[..], alloc.blocks;
      SitesLength(alloc);
      if q >= K_SIZE {
        assert j == 0 by {
          RecInside(m, b, t, i, j);
        }
        HoldsHead(m, b, t.heads, t.recs, i, v);
        hide Holds;
        alloc.WriteTable(q, Digits(v, 4), q);
      } else {
        ghost var u := t.chains[i][j - 1];
        ConsistentTiles(alloc.w, b, alloc.lists);
        HoldsLink(m, b, t.heads, t.recs, u, v);
        LiveFacts(alloc, u);
        hide Holds;
        alloc.WritePayload(q, Digits(v, 4), u, q);
      }
      t := SetLink(t, i, j, v);
    }

    /** Overwrite a value in place with a shorter one: first the length, then the bytes. */
    method WriteShorter(p: nat, keyLen: nat, val: seq<Byte>, ghost u: nat)
      requires alloc.log == [] && alloc.before == alloc.mem[..]
      requires Rep() && u in t.recs && p == NodePtr(u) && keyLen == |t.recs[u].key| && |val| < |t.recs[u].val|
      modifies this`t, alloc`log, alloc`trace, alloc`w, alloc.mem
      ensures Rep() && t == SetVal(old(t), u, val)
      ensures Shortened(alloc.before, alloc.mem[..], alloc.log, alloc.base, p, keyLen, old(t).recs[u].val, val)
      ensures |alloc.log| == 2 && alloc.trace.spots == old(alloc.trace.spots) + {p + 6} + {p + OBJECT + keyLen}
    {
      hide Holds, Accounts, Consistent, Mirrors, FreeLists.Exact, Splice, Encodes, Shortened;
      ghost var m, b := alloc.mem[..], alloc.blocks;
      ConsistentTiles(alloc.w, b, alloc.lists);
      RecFits(m, b, t.heads, t.recs, u);
      ShortenedBy(m, b, t.heads, t.recs, u, val, alloc.base);
      HoldsShorter(m, b, t.heads, t.recs, u, val);
      LiveFacts(alloc, u);
      SitesLength(alloc);
      alloc.WritePayload(p + 6, Digits(|val|, 2), u, p + 6);
      var v := p + OBJECT + keyLen;
      alloc.WritePayload(v, val, u, v);
      assert alloc.log == [Modification(p + 6, alloc.base + (p + 6), 2), Modification(v, alloc.base + v, |val|)];
      t := SetVal(t, u, val);
    }

    /** Get a block for a record of `size` bytes. */
    method AllocNode(size: nat) returns (p: nat, ghost u: nat, ghost at: set<nat>)
      requires Rep() && size + 4 <= MAX_BLOCK
      modifies alloc`log, alloc`trace, alloc`w, alloc`lists, alloc`blocks, alloc.mem
      ensures Rep() && |alloc.log| <= |old(alloc.log)| + 11 && |at| <= 6
      ensures p == 0 ==> alloc.trace.spots == old(alloc.trace.spots) && alloc.trace.low == old(alloc.trace.low)
      ensures p == 0 ==>
        && alloc.blocks == old(alloc.blocks) && alloc.lists == old(alloc.lists)
        && alloc.log == old(alloc.log) && alloc.mem[..] == old(alloc.mem[..])
      ensures p == 0 <==> NoHead(old(alloc.blocks), old(alloc.lists), size + 4)
      ensures old(alloc.ListsExact()) ==> (p == 0 <==> NoRoom(old(alloc.blocks), size + 4))
      ensures p != 0 ==>
        && p == NodePtr(u) && u !in Live(old(alloc.blocks)) && Live(alloc.blocks) == Live(old(alloc.blocks)) + {u}
        && u in alloc.blocks && size <= 16 * alloc.blocks[u].size - 4 && p < 0x1_0000_0000
        && alloc.trace.spots <= old(alloc.trace.spots) + (at + {p - 8}) && alloc.trace.low < FIRST
    {
      hide Holds, Accounts, Consistent, Mirrors, FreeLists.Exact, Kept, Live, AllocTrips, FreeLists.FirstHead, Footed,
        Carve, NoRoom, LosesList, NoHead, BestHead, BestFit, ListsAfterTaking;
      ghost var m, b := alloc.mem[..], alloc.blocks;
      ghost var s;
      p, u, s, at := alloc.Alloc(size);
      if p != 0 {
        HoldsKept(m, b, alloc.mem[..], alloc.blocks, t.heads, t.recs, {});
        assert t.recs - {} == t.recs;
        NodeAddress(alloc, u);
      }
    }

    /** Give back the block of a record. */
    method FreeNode(p: nat, ghost u: nat) returns (ghost at: set<nat>)
      requires Rep() && u in t.recs && p == NodePtr(u)
      modifies this`t, alloc`log, alloc`trace, alloc`w, alloc`lists, alloc`blocks, alloc.mem
      ensures Rep() && |alloc.log| <= |old(alloc.log)| + 11 && |at| <= 8 &&
        alloc.trace.spots <= old(alloc.trace.spots) + at
      ensures t == old(t).(recs := old(t).recs - {u})
      ensures u in old(alloc.blocks) && alloc.blocks == AfterFreeing(old(alloc.blocks), u) && alloc.trace.low < FIRST
      ensures alloc.lists == ListsAfterFreeing(old(alloc.blocks), old(alloc.lists), u)
      ensures old(alloc.ListsExact()) ==> alloc.ListsExact()
      ensures Live(alloc.blocks) == Live(old(alloc.blocks)) - {u}
    {
      ghost var m, b := alloc.mem[..], alloc.blocks;
      RecFits(m, b, t.heads, t.recs, u);
      hide Holds, Accounts, Consistent, Mirrors, FreeLists.Exact, Kept, AfterFreeing, SpanStart, SpanEnd, Coalesces,
        FreeTrips, Footed, Fuse, ListsAfterFreeing;
      ghost var s, e;
      s, e, at := alloc.Free(p, u);
      HoldsKept(m, b, alloc.mem[..], alloc.blocks, t.heads, t.recs, {u});
      t := t.(recs := t.recs - {u});
    }

    /** Put a new record at the head of its bucket. */
    method InsertHead(slot: nat, head: nat, hash: nat, key: seq<Byte>, val: seq<Byte>) returns (ok: bool)
      requires Valid() && (BucketOf(hash), key) !in t.owner && slot == SlotOffset(BucketOf(hash)) &&
        head == t.heads[BucketOf(hash)]
      requires OBJECT + |key| + |val| + 4 <= MAX_BLOCK && hash < 0x1_0000_0000_0000_0000
      requires alloc.log == [] && alloc.trace.spots == {}
      modifies this`t, alloc`log, alloc`trace, alloc`w, alloc`table, alloc`lists, alloc`blocks, alloc.mem
      ensures !ok <==> NoHead(old(alloc.blocks), old(alloc.lists), Need(key, val))
      ensures old(alloc.ListsExact()) ==> (!ok <==> NoRoom(old(alloc.blocks), Need(key, val)))
      ensures !ok ==> alloc.lists == old(alloc.lists)
      ensures ok ==> Valid() && Contents(t) == Contents(old(t))[(BucketOf(hash), key) := val]
      ensures !ok ==> Valid() && t == old(t) && alloc.mem[..] == old(alloc.mem[..]) && alloc.blocks == old(alloc.blocks)
      ensures ok ==> Inserted(old(t), t, BucketOf(hash), alloc.log, alloc.trace, |key| + |val|)
      ensures |alloc.log| <= 14 && |alloc.trace.spots| <= 8
    {
      hide RepOf, TableOk, Contents, Insert, SetLink, KeyOf, BucketOf, DataLogged, NoRoom, NoHead, FreeLists.Exact;
      ghost var t0, i := t, BucketOf(hash);
      TableShape(t0);
      HeadBound(this, i);
      var p, u, at := AllocNode(OBJECT + |key| + |val|);
      if p == 0 {
        return false;
      }
      WriteNode(p, Rec(head, hash, key, val), u);
      ghost var log := alloc.log;
      WriteLink(slot, p, i, 0);
      DataLoggedMore(log, Modification(slot, alloc.base + slot, 4), |key| + |val|);
      HeadIsNew(t0, u, hash, key, val);
      InsertSteps(t0, u, hash, key, val);
      t := Insert(t0, u, hash, key, val);
      SpotsBound(alloc.trace.spots, at, p - 8, slot);
      ok := true;
    }

    /** Free the block of a record and get one for another record. */
    method Reallocate(p: nat, size: nat, ghost x: nat) returns (p': nat, ghost u: nat, ghost at: set<nat>)
      requires Rep() && x in t.recs && p == NodePtr(x) && size + 4 <= MAX_BLOCK && alloc.trace.spots == {}
      modifies this`t, alloc`log, alloc`trace, alloc`w, alloc`lists, alloc`blocks, alloc.mem
      ensures alloc.trace.low < FIRST
      ensures Rep() && |alloc.log| <= |old(alloc.log)| + 22 && |at| <= 14
      ensures t == old(t).(recs := old(t).recs - {x}) && x in old(alloc.blocks)
      ensures p' == 0 ==> alloc.blocks == AfterFreeing(old(alloc.blocks), x)
      ensures p' == 0 ==> alloc.lists == ListsAfterFreeing(old(alloc.blocks), old(alloc.lists), x)
      ensures p' == 0 <==>
        NoHead(AfterFreeing(old(alloc.blocks), x), ListsAfterFreeing(old(alloc.blocks), old(alloc.lists), x), size + 4)
      ensures old(alloc.ListsExact()) ==> (p' == 0 <==> NoRoom(AfterFreeing(old(alloc.blocks), x), size + 4))
      ensures p' != 0 ==>
        && p' == NodePtr(u) < 0x1_0000_0000 && alloc.trace.spots <= at + {p' - 8}
        && u !in Live(old(alloc.blocks)) - {x} && Live(alloc.blocks) == Live(old(alloc.blocks)) - {x} + {u}
        && u in alloc.blocks && size <= 16 * alloc.blocks[u].size - 4
    {
      hide RepOf, NoRoom, NoHead, AfterFreeing, ListsAfterFreeing, Live, FreeLists.Exact;
      ghost var at1 := FreeNode(p, x);
      ghost var at2;
      p', u, at2 := AllocNode(size);
      at := at1 + at2;
    }

    /** Replace the record at position `j` of bucket `i` by one in a new block: free, allocate, write, relink. */
    method ReplaceNode(q: nat, p: nat, i: nat, hash: nat, key: seq<Byte>, val: seq<Byte>, ghost j: nat)
      returns (ok: bool)
      requires Valid() && i == BucketOf(hash) && j < |t.chains[i]| && t.chains[i][j] in t.recs
      requires KeyOf(t.recs[t.chains[i][j]]) == (i, key) && p == NodePtr(t.chains[i][j])
      requires q == if j == 0 then SlotOffset(i) else NodePtr(t.chains[i][j - 1])
      requires OBJECT + |key| + |val| + 4 <= MAX_BLOCK && hash < 0x1_0000_0000_0000_0000
      requires alloc.log == [] && alloc.trace.spots == {}
      modifies this`t, alloc`log, alloc`trace, alloc`w, alloc`table, alloc`lists, alloc`blocks, alloc.mem
      ensures ok ==> Valid() && Contents(t) == Contents(old(t))[(i, key) := val]
      ensures ok ==> alloc.trace.low < FIRST && Replaced(old(t), t, hash, key, val)
      ensures old(t).chains[i][j] in old(alloc.blocks)
      ensures !ok <==>
        NoHead(AfterFreeing(old(alloc.blocks), old(t).chains[i][j]),
               ListsAfterFreeing(old(alloc.blocks), old(alloc.lists), old(t).chains[i][j]), Need(key, val))
      ensures old(alloc.ListsExact()) ==>
        (!ok <==> NoRoom(AfterFreeing(old(alloc.blocks), old(t).chains[i][j]), Need(key, val)))
      ensures !ok ==>
        && Rep() && alloc.blocks == AfterFreeing(old(alloc.blocks), old(t).chains[i][j])
        && alloc.lists == ListsAfterFreeing(old(alloc.blocks), old(alloc.lists), old(t).chains[i][j])
      ensures |alloc.log| <= 25 && (ok ==> |alloc.trace.spots| <= 16)
    {
      hide RepOf, TableOk, Contents, Replace, SetLink, KeyOf, BucketOf, DataLogged, NoRoom, AfterFreeing, NoHead,
        ListsAfterFreeing, FreeLists.Exact;
      ghost var t0 := t;
      TableShape(t0);
      ghost var x := t0.chains[i][j];
      NextBound(this, x);
      var next := ReadLink(p, x);
      var p', u, at := Reallocate(p, OBJECT + |key| + |val|, x);
      if p' == 0 {
        return false;
      }
      ReplaceSteps(t0, i, j, u, hash, key, val);
      WriteNode(p', Rec(next, hash, key, val), u);
      WriteLink(q, p', i, j);
      ReplaceMeans(t0, i, j, u, hash, key, val);
      t := Replace(t0, i, j, u, hash, key, val);
      assert ReplacedBy(t0, t, i, j, u, hash, key, val);
      SpotsBound(alloc.trace.spots, at, p' - 8, q);
      ok := true;
    }

    /** Unlink the record at position `j` of bucket `i` and give back its block. */
    method RemoveNode(q: nat, p: nat, ghost i: nat, ghost j: nat)
      requires Valid() && i < HASH_TABLE_SIZE && j < |t.chains[i]| && t.chains[i][j] in t.recs &&
        p == NodePtr(t.chains[i][j])
      requires q == if j == 0 then SlotOffset(i) else NodePtr(t.chains[i][j - 1])
      requires alloc.log == [] && alloc.trace.spots == {}
      modifies this`t, alloc`log, alloc`trace, alloc`w, alloc`table, alloc`lists, alloc`blocks, alloc.mem
      ensures alloc.trace.low < FIRST && RemovedAt(old(t), t, i, j)
      ensures j == 0 ==> |t.heads| == |old(t).heads| == HASH_TABLE_SIZE && t.heads[i] != old(t).heads[i]
      ensures Valid() && |alloc.log| <= 12 && |alloc.trace.spots| <= 10
      ensures Contents(t) == Contents(old(t)) - {KeyOf(old(t).recs[old(t).chains[i][j]])}
    {
      hide RepOf, TableOk, Contents, KeyOf, Remove, AfterFreeing;
      ghost var t0 := t;
      TableShape(t0);
      ghost var u := t0.chains[i][j];
      RemoveMeans(t0, i, j);
      if j == 0 {
        HeadIsGone(t0, i);
      }
      NextBound(this, u);
      var next := ReadLink(p, u);
      WriteLink(q, next, i, j);
      var at := FreeNode(p, u);
      t := Remove(t0, i, j);
      SpotsBound(alloc.trace.spots, at, q, q);
    }

    /** Overwrite the value of a record in place. */
    method PutShorter(p: nat, key: seq<Byte>, val: seq<Byte>, ghost u: nat)
      requires Valid() && u in t.recs && p == NodePtr(u) && t.recs[u].key == key && |val| < |t.recs[u].val|
      requires alloc.log == [] && alloc.trace.spots == {} && alloc.before == alloc.mem[..]
      modifies this`t, alloc`log, alloc`trace, alloc`w, alloc.mem
      ensures Valid() && Contents(t) == Contents(old(t))[KeyOf(old(t).recs[u]) := val]
      ensures Shortened(alloc.before, alloc.mem[..], alloc.log, alloc.base, p, |key|, old(t).recs[u].val, val)
      ensures |alloc.log| == 2 && |alloc.trace.spots| <= 2
    {
      hide RepOf, TableOk, Contents, SetVal, Shortened, KeyOf;
      SetValMeans(t, u, val);
      WriteShorter(p, |key|, val, u);
      SpotsBound(alloc.trace.spots, {}, p + 6, p + OBJECT + |key|);
    }

    /** Store a value under a key that has the record at position `j` of bucket `i`. */
    method PutFound(q: nat, p: nat, i: nat, hash: nat, key: seq<Byte>, val: seq<Byte>, ghost j: nat) returns (ok: bool)
      requires Valid() && i == BucketOf(hash) && j < |t.chains[i]| && t.chains[i][j] in t.recs
      requires KeyOf(t.recs[t.chains[i][j]]) == (i, key) && p == NodePtr(t.chains[i][j])
      requires q == if j == 0 then SlotOffset(i) else NodePtr(t.chains[i][j - 1])
      requires OBJECT + |key| + |val| + 4 <= MAX_BLOCK && hash < 0x1_0000_0000_0000_0000
      requires alloc.log == [] && alloc.trace.spots == {} && alloc.before == alloc.mem[..]
      modifies this`t, alloc`log, alloc`trace, alloc`w, alloc`table, alloc`lists, alloc`blocks, alloc.mem
      ensures ok ==> Valid() && Contents(t) == Contents(old(t))[(i, key) := val]
      ensures |alloc.log| <= 25 && (ok ==> |alloc.trace.spots| <= 16)
      ensures old(t).chains[i][j] in old(alloc.blocks)
      ensures var u := old(t).chains[i][j]; var prior := old(t).recs[u].val;
        if |val| < |prior| then ok && Shortened(alloc.before, alloc.mem[..], alloc.log, alloc.base, p, |key|, prior,
          val)
        else
          && (!ok <==> NoHead(AfterFreeing(old(alloc.blocks), u),
                              ListsAfterFreeing(old(alloc.blocks), old(alloc.lists), u), Need(key, val)))
          && (old(alloc.ListsExact()) ==> (!ok <==> NoRoom(AfterFreeing(old(alloc.blocks), u), Need(key, val))))
          && (ok ==> alloc.trace.low < FIRST && Replaced(old(t), t, hash, key, val))
          && (!ok ==>
                && Rep() && alloc.blocks == AfterFreeing(old(alloc.blocks), u)
                && alloc.lists == ListsAfterFreeing(old(alloc.blocks), old(alloc.lists), u))
    {
      ghost var u := t.chains[i][j];
      hide RepOf, TableOk, Contents, BucketOf, SetVal, NoRoom, AfterFreeing, Shortened, Replaced, LinkTo, SlotOffset,
        NoHead, ListsAfterFreeing, FreeLists.Exact;
      BlockOf(this, u);
      if |val| < |ReadVal(p, |key|, u)| {
        PutShorter(p, key, val, u);
        ok := true;
      } else {
        ok := ReplaceNode(q, p, i, hash, key, val, j);
      }
    }

    /** Store a value under a key, whether or not the key is there. */
    method Put(hash: nat, key: seq<Byte>, val: seq<Byte>) returns (status: Status)
      requires Valid() && OBJECT + |key| + |val| + 4 <= MAX_BLOCK && hash < 0x1_0000_0000_0000_0000
      modifies this`t, alloc`log, alloc`trace, alloc`w, alloc`table, alloc`lists, alloc`blocks, alloc.mem, alloc`before
      ensures status != ERROR
      ensures status == OK ==> Valid() && Contents(t) == Contents(old(t))[(BucketOf(hash), key) := val]
      ensures status == OK ==> alloc.before == old(alloc.mem[..]) && |alloc.log| <= 25 && |alloc.trace.spots| <= 16
      ensures InPlace(old(t), (BucketOf(hash), key), val) ==>
        && status == OK && (BucketOf(hash), key) in old(t).owner
        && Shortened(old(alloc.mem[..]), alloc.mem[..], alloc.log, alloc.base,
                     NodePtr(old(t).owner[(BucketOf(hash), key)]), |key|, Contents(old(t))[(BucketOf(hash), key)], val)
      ensures !InPlace(old(t), (BucketOf(hash), key), val) ==>
        (status == Aborted <==>
          NoHead(Available(old(alloc.blocks), old(t), (BucketOf(hash), key)),
                 AvailableLists(old(alloc.blocks), old(alloc.lists), old(t), (BucketOf(hash), key)), Need(key, val)))
      ensures old(alloc.ListsExact()) && !InPlace(old(t), (BucketOf(hash), key), val) ==>
        (status == Aborted <==> NoRoom(Available(old(alloc.blocks), old(t), (BucketOf(hash), key)), Need(key, val)))
      ensures status == Aborted ==>
        && Rep() && alloc.blocks == Available(old(alloc.blocks), old(t), (BucketOf(hash), key))
        && alloc.lists == AvailableLists(old(alloc.blocks), old(alloc.lists), old(t), (BucketOf(hash), key))
      ensures status == OK && (BucketOf(hash), key) !in Contents(old(t)) ==>
        Inserted(old(t), t, BucketOf(hash), alloc.log, alloc.trace, |key| + |val|)
      ensures (BucketOf(hash), key) in Contents(old(t)) && |val| < |Contents(old(t))[(BucketOf(hash), key)]| ==>
        InPlace(old(t), (BucketOf(hash), key), val)
      ensures status == OK && (BucketOf(hash), key) in Contents(old(t)) &&
              |val| >= |Contents(old(t))[(BucketOf(hash), key)]| ==>
        alloc.trace.low < FIRST && Replaced(old(t), t, hash, key, val)
    {
      Begin();
      hide RepOf, TableOk, Contents, BucketOf, KeyOf, LinkedAt, NoRoom, AfterFreeing, Shortened, Inserted, Need,
        Replaced, NoHead, ListsAfterFreeing, FreeLists.Exact;
      var i := BucketOf(hash);
      TableShape(t);
      var q, p, j := Search(i, key);
      var ok;
      if p != 0 {
        ok := PutFound(q, p, i, hash, key, val, j);
      } else {
        ok := InsertHead(SlotOffset(i), ReadHead(i), hash, key, val);
      }
      status := if ok then OK else Aborted;
    }

    /** Store a value under a key that is not there yet. */
    method Add(hash: nat, key: seq<Byte>, val: seq<Byte>) returns (status: Status)
      requires Valid() && OBJECT + |key| + |val| + 4 <= MAX_BLOCK && hash < 0x1_0000_0000_0000_0000
      modifies this`t, alloc`log, alloc`trace, alloc`w, alloc`table, alloc`lists, alloc`blocks, alloc.mem, alloc`before
      ensures Valid() && alloc.before == old(alloc.mem[..]) && |alloc.log| <= 25 && |alloc.trace.spots| <= 16
      ensures status == ERROR <==> (BucketOf(hash), key) in Contents(old(t))
      ensures status == OK ==> Contents(t) == Contents(old(t))[(BucketOf(hash), key) := val]
      ensures status != OK ==> t == old(t) && alloc.mem[..] == old(alloc.mem[..])
      ensures status != ERROR ==> (status == Aborted <==> NoHead(old(alloc.blocks), old(alloc.lists), Need(key, val)))
      ensures old(alloc.ListsExact()) && status != ERROR ==>
        (status == Aborted <==> NoRoom(old(alloc.blocks), Need(key, val)))
      ensures status != OK ==> alloc.blocks == old(alloc.blocks) && alloc.lists == old(alloc.lists)
      ensures status == ERROR ==> alloc.log == []
      ensures status == OK ==> Inserted(old(t), t, BucketOf(hash), alloc.log, alloc.trace, |key| + |val|)
    {
      Begin();
      hide RepOf, TableOk, Contents, KeyOf, BucketOf, NoRoom, Inserted, NoHead, FreeLists.Exact;
      var i := BucketOf(hash);
      TableShape(t);
      var q, p, j := Search(i, key);
      if p != 0 {
        return ERROR;
      }
      var ok := InsertHead(SlotOffset(i), ReadHead(i), hash, key, val);
      status := if ok then OK else Aborted;
    }

    /** Remove a key. On a mismatch the walk goes on to the next record, as in `Put`. */
    method Del(hash: nat, key: seq<Byte>) returns (status: Status)
      requires Valid()
      modifies this`t, alloc`log, alloc`trace, alloc`w, alloc`table, alloc`lists, alloc`blocks, alloc.mem, alloc`before
      ensures Valid() && alloc.before == old(alloc.mem[..]) && |alloc.log| <= 25 && |alloc.trace.spots| <= 16
      ensures status == if (BucketOf(hash), key) in Contents(old(t)) then OK else ERROR
      ensures Contents(t) == Contents(old(t)) - {(BucketOf(hash), key)}
      ensures status == OK && FirstIn(old(t), BucketOf(hash), key) ==>
        && |t.heads| == |old(t).heads| == HASH_TABLE_SIZE && t.heads[BucketOf(hash)] != old(t).heads[BucketOf(hash)]
        && alloc.trace.low < FIRST && |alloc.log| <= 12
      ensures status == ERROR ==> alloc.log == []
      ensures status == OK ==>
        Removed(old(t), t, BucketOf(hash), key) && alloc.trace.low < FIRST && |alloc.log| <= 12
      ensures status == ERROR ==> t == old(t) && alloc.mem[..] == old(alloc.mem[..])
    {
      Begin();
      hide RepOf, TableOk, Contents, KeyOf, BucketOf, LinkedAt, FirstIn;
      var i := BucketOf(hash);
      TableShape(t);
      var q, p, j := Search(i, key);
      if p == 0 {
        return ERROR;
      }
      assert t.recs[t.chains[i][j]].key == key by {
        KeyParts(t.recs[t.chains[i][j]], i, key);
      }
      RemoveNode(q, p, i, j);
      status := OK;
    }

    /** Start an operation with an empty log. */
    method Begin()
      requires Valid()
      modifies alloc`log, alloc`trace, alloc`before
      ensures Valid() && alloc.log == [] && alloc.trace.spots == {} && alloc.trace.low == IMAGE_SIZE &&
        alloc.before == alloc.mem[..]
    {
      hide Holds, Accounts, Consistent, Mirrors, FreeLists.Exact, TableOk;
      alloc.ClearLog();
    }

    /** Look a key up; nothing changes. */
    method Get(hash: nat, key: seq<Byte>) returns (status: Status, val: seq<Byte>)
      requires Valid()
      ensures status == (if (BucketOf(hash), key) in Contents(t) then OK else ERROR)
      ensures val == if status == OK then Contents(t)[(BucketOf(hash), key)] else []
    {
      hide RepOf, Contents;
      var i := BucketOf(hash);
      var q, p, j := Search(i, key);
      if p != 0 {
        return OK, ReadVal(p, |key|, t.chains[i][j]);
      }
      return ERROR, [];
    }
  }

  ghost function EmptyTable(): Table {
    Table(seq(HASH_TABLE_SIZE, i => 0), map[], seq(HASH_TABLE_SIZE, i => []), map[])
  }

  lemma EmptyTableOk()
    ensures TableOk(EmptyTable()) && Contents(EmptyTable()) == map[]
  {
    var t := EmptyTable();
    forall i | 0 <= i < HASH_TABLE_SIZE ensures ChainAt(t, i) {
    }
  }

  lemma TailZeroed(m: seq<Byte>, m': seq<Byte>)
    requires |m| == |m'| == IMAGE_SIZE && m[K_SIZE..] == m'[K_SIZE..]
    ensures Zeroed(m) <==> Zeroed(m')
  {
    assert forall i :: K_SIZE <= i < IMAGE_SIZE ==> m[i] == m[K_SIZE..][i - K_SIZE];
    assert forall i :: K_SIZE <= i < IMAGE_SIZE ==> m'[i] == m'[K_SIZE..][i - K_SIZE];
  }

  lemma ZeroHead(m: seq<Byte>, i: nat)
    requires |m| == IMAGE_SIZE && K_SIZE <= i < IMAGE_SIZE && Word(m, SlotOffset((i - K_SIZE) / 4)) == 0
    ensures m[i] == 0
  {
    var o := SlotOffset((i - K_SIZE) / 4);
    DigitsOfNumber(m[o..o + 4]);
    ZeroDigits(4);
    assert m[i] == m[o..o + 4][i - o];
  }

  lemma {:induction false} ZeroDigits(n: nat)
    ensures forall i :: 0 <= i < n ==> Digits(0, n)[i] == 0
  {
    if n > 0 {
      ZeroDigits(n - 1);
    }
  }

  lemma EmptyHolds(m: seq<Byte>, b: Blocks)
    requires |m| == IMAGE_SIZE
    ensures var t := EmptyTable(); (Holds(m, b, t.heads, t.recs) <==> Zeroed(m)) && TableOk(t) && Contents(t) == map[]
  {
    var t := EmptyTable();
    EmptyTableOk();
    if Zeroed(m) {
      forall i | 0 <= i < HASH_TABLE_SIZE ensures HeadAt(m, t.heads, i) {
        NumberOfZeros(m[SlotOffset(i)..SlotOffset(i) + 4]);
      }
    }
    if Holds(m, b, t.heads, t.recs) {
      forall i | K_SIZE <= i < IMAGE_SIZE ensures m[i] == 0 {
        assert HeadAt(m, t.heads, (i - K_SIZE) / 4);
        ZeroHead(m, i);
      }
    }
  }

  /** Nothing clears the bucket heads of a new tablet, and unless they are zero no table describes it. */
  lemma OnlyZeroedIsEmpty(m: seq<Byte>, b: Blocks, t: Table)
    requires Live(b) == {} == t.recs.Keys && Holds(m, b, t.heads, t.recs) && TableOk(t)
    ensures Zeroed(m)
  {
    forall i | K_SIZE <= i < IMAGE_SIZE ensures m[i] == 0 {
      var x := (i - K_SIZE) / 4;
      assert HeadAt(m, t.heads, x) && ChainAt(t, x);
      assert t.chains[x] != [] ==> LinkedAt(t, x, 0);
      ZeroHead(m, i);
    }
  }

  /** Two images formatted over the same bytes after the arena are equal. */
  lemma FormattedAlike(a: Allocator, b: Allocator)
    requires a.Backed() && b.Backed() && a.Formatted() && b.Formatted() && a.mem[K_SIZE..] == b.mem[K_SIZE..]
    ensures a.mem[..] == b.mem[..]
  {
    var m, m' := a.mem[..], b.mem[..];
    TailsMatch(m, m');
    SameWordsSameImage(m, m', a.w);
  }

  lemma TailsMatch(m: seq<Byte>, m': seq<Byte>)
    requires |m| == |m'| == IMAGE_SIZE && m[WORDS_END..K_SIZE] == m'[WORDS_END..K_SIZE] && m[K_SIZE..] == m'[K_SIZE..]
    ensures m[WORDS_END..] == m'[WORDS_END..]
  {
    assert m[WORDS_END..] == m[WORDS_END..K_SIZE] + m[K_SIZE..];
    assert m'[WORDS_END..] == m'[WORDS_END..K_SIZE] + m'[K_SIZE..];
  }
}
