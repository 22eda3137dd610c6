/**
 Looking a key up in the bytes of an image: start at the bucket head that the hash names, and follow the links from
 record to record until one has the key.
 */
module Lookups {
  import opened Bytes
  import opened Layout
  import opened Blocks
  import opened Allocation
  import opened HashChains
  import opened Modifications
  import opened Tablets
  import FreeLists
  import Serving

  /** The record at `p` has this key. */
  ghost predicate KeyAt(m: seq<Byte>, p: nat, key: seq<Byte>) {
    p + 16 + |key| <= |m| && Number(m[p + 4..p + 6]) == |key| && m[p + 16..p + 16 + |key|] == key
  }

  /** Of the records met from `p` on, after at most `n` links, the first with this key has this value. */
  ghost predicate Leads(m: seq<Byte>, p: nat, key: seq<Byte>, val: seq<Byte>, n: nat)
    decreases n
  {
    && p != 0 && p + 16 <= |m|
    && if KeyAt(m, p, key) then
         var v := p + 16 + |key|;
         Number(m[p + 6..p + 8]) == |val| && v + |val| <= |m| && m[v..v + |val|] == val
       else n > 0 && Leads(m, Number(m[p..p + 4]), key, val, n - 1)
  }

  /** The bucket head for a hash. */
  ghost function HeadFor(m: seq<Byte>, hash: nat): nat
    requires |m| == IMAGE_SIZE
  {
    var o := 0x400_0000 + 4 * (hash % 1_000_003);
    Number(m[o..o + 4])
  }

  /** The image leads from the bucket of this hash to a record with this key and value. */
  ghost predicate Finds(m: seq<Byte>, hash: nat, key: seq<Byte>, val: seq<Byte>) {
    |m| == IMAGE_SIZE && exists n: nat :: Leads(m, HeadFor(m, hash), key, val, n)
  }

  lemma HeadIs(tb: Tablet, hash: nat)
    requires tb.Valid()
    ensures HeadFor(tb.alloc.mem[..], hash) == LinkTo(tb.t.chains[BucketOf(hash)], 0)
  {
    assert HeadAt(tb.alloc.mem[..], tb.t.heads, BucketOf(hash)) && ChainAt(tb.t, BucketOf(hash));
  }

  /** What the bytes of a record say. */
  lemma RecordAt(tb: Tablet, u: nat, key: seq<Byte>)
    requires tb.Valid() && u in tb.t.recs
    ensures var m, p, r := tb.alloc.mem[..], NodePtr(u), tb.t.recs[u];
      && p + 16 <= |m| && Number(m[p..p + 4]) == r.next
      && (KeyAt(m, p, key) <==> r.key == key)
      && Number(m[p + 6..p + 8]) == |r.val| && p + 16 + |r.key| + |r.val| <= |m|
      && m[p + 16 + |r.key|..p + 16 + |r.key| + |r.val|] == r.val
  {
    FieldReads(tb.alloc.mem[..], tb.alloc.blocks, tb.t.heads, tb.t.recs, u);
  }

  lemma {:induction false} LeadsAhead(tb: Tablet, i: nat, j: nat, x: nat, key: seq<Byte>)
    requires tb.Valid() && i < HASH_TABLE_SIZE && j <= x < |tb.t.chains[i]|
    requires forall y :: j <= y <= x ==> tb.t.chains[i][y] in tb.t.recs
    requires forall y :: j <= y <= x ==> (tb.t.recs[tb.t.chains[i][y]].key == key <==> y == x)
    ensures Leads(tb.alloc.mem[..], LinkTo(tb.t.chains[i], j), key, tb.t.recs[tb.t.chains[i][x]].val, x - j)
    decreases x - j
  {
    hide Tablet.RepOf, TableOk, Leads;
    TableShape(tb.t);
    ChainLink(tb.t, i, j);
    RecordLeads(tb, tb.t.chains[i][j], key, if j < x then tb.t.recs[tb.t.chains[i][x]].val else [], x - j);
    if j < x {
      LeadsAhead(tb, i, j + 1, x, key);
    }
  }

  lemma ChainLink(t: Table, i: nat, j: nat)
    requires TableOk(t) && i < HASH_TABLE_SIZE && j < |t.chains[i]|
    ensures LinkedAt(t, i, j)
  {
    assert ChainAt(t, i) && LinkedAt(t, i, j);
  }

  /** One step of a lookup, at a record. */
  lemma RecordLeads(tb: Tablet, u: nat, key: seq<Byte>, val: seq<Byte>, n: nat)
    requires tb.Valid() && u in tb.t.recs
    ensures var m, r := tb.alloc.mem[..], tb.t.recs[u];
      && (r.key == key ==> Leads(m, NodePtr(u), key, r.val, n))
      && (r.key != key && n > 0 && Leads(m, r.next, key, val, n - 1) ==> Leads(m, NodePtr(u), key, val, n))
  {
    RecordAt(tb, u, key);
    hide Tablet.RepOf, TableOk, KeyAt;
  }

  lemma RecordLed(tb: Tablet, u: nat, key: seq<Byte>, val: seq<Byte>, n: nat)
    requires tb.Valid() && u in tb.t.recs && Leads(tb.alloc.mem[..], NodePtr(u), key, val, n)
    ensures var m, r := tb.alloc.mem[..], tb.t.recs[u];
      if r.key == key then r.val == val else n > 0 && Leads(m, r.next, key, val, n - 1)
  {
    RecordAt(tb, u, key);
    hide Tablet.RepOf, TableOk, KeyAt;
  }

  lemma {:induction false} LeadsBack(tb: Tablet, i: nat, j: nat, key: seq<Byte>, val: seq<Byte>, n: nat)
    requires tb.Valid() && i < HASH_TABLE_SIZE && j <= |tb.t.chains[i]|
    requires Leads(tb.alloc.mem[..], LinkTo(tb.t.chains[i], j), key, val, n)
    ensures (i, key) in Contents(tb.t) && Contents(tb.t)[(i, key)] == val
    decreases n
  {
    assert LinkTo(tb.t.chains[i], j) != 0;
    hide Tablet.RepOf, TableOk, Leads, Contents;
    TableShape(tb.t);
    ChainLink(tb.t, i, j);
    var u := tb.t.chains[i][j];
    RecordLed(tb, u, key, val, n);
    if tb.t.recs[u].key == key {
      LookupHit(tb.t, i, j, key);
    } else {
      LeadsBack(tb, i, j + 1, key, val, n - 1);
    }
  }

  lemma FirstMatch(t: Table, i: nat, key: seq<Byte>) returns (x: nat)
    requires TableOk(t) && i < HASH_TABLE_SIZE && (i, key) in Contents(t)
    ensures x < |t.chains[i]| && (forall y :: 0 <= y <= x ==> t.chains[i][y] in t.recs)
    ensures forall y :: 0 <= y <= x ==> (t.recs[t.chains[i][y]].key == key <==> y == x)
    ensures t.recs[t.chains[i][x]].val == Contents(t)[(i, key)]
  {
    var k := (i, key);
    OwnedInChain(t, k);
    x :| 0 <= x < |t.chains[i]| && t.chains[i][x] == t.owner[k];
    assert ChainAt(t, i) && OwnerAt(t, k);
    forall y | 0 <= y <= x ensures t.chains[i][y] in t.recs && (t.recs[t.chains[i][y]].key == key <==> y == x) {
      assert LinkedAt(t, i, y);
      if t.recs[t.chains[i][y]].key == key {
        LookupHit(t, i, y, key);
      }
    }
  }

  /** A tablet's map is what can be looked up in its image, in the bucket numbered by the hash modulo the table size. */
  lemma LookupInImage(tb: Tablet, hash: nat, key: seq<Byte>, val: seq<Byte>)
    requires tb.Valid()
    ensures Finds(tb.alloc.mem[..], hash, key, val) <==>
      (BucketOf(hash), key) in Contents(tb.t) && Contents(tb.t)[(BucketOf(hash), key)] == val
  {
    var i, m := BucketOf(hash), tb.alloc.mem[..];
    HeadIs(tb, hash);
    hide Tablet.RepOf, HeadFor, Leads;
    if Finds(m, hash, key, val) {
      var n: nat :| Leads(m, HeadFor(m, hash), key, val, n);
      LeadsBack(tb, i, 0, key, val, n);
    }
    if (i, key) in Contents(tb.t) && Contents(tb.t)[(i, key)] == val {
      var x := FirstMatch(tb.t, i, key);
      LeadsAhead(tb, i, 0, x, key);
    }
  }

  lemma SameBucket(hash: nat, hash': nat)
    ensures BucketOf(hash) == BucketOf(hash') <==> hash % 1_000_003 == hash' % 1_000_003
  {
  }

  /** Whether and with what value the image answers a lookup. */
  ghost predicate Answers(m: seq<Byte>, hash: nat, key: seq<Byte>, status: Status, val: seq<Byte>) {
    && (status == OK ==> Finds(m, hash, key, val))
    && (status != OK ==> status == ERROR && forall v :: !Finds(m, hash, key, v))
  }

  lemma AnswersNow(tb: Tablet, hash: nat, key: seq<Byte>, status: Status, val: seq<Byte>)
    requires tb.Valid() && status == (if (BucketOf(hash), key) in Contents(tb.t) then OK else ERROR)
    requires status == OK ==> val == Contents(tb.t)[(BucketOf(hash), key)]
    ensures Answers(tb.alloc.mem[..], hash, key, status, val)
  {
    hide Tablet.RepOf, TableOk, Contents, Finds, BucketOf;
    forall v ensures Finds(tb.alloc.mem[..], hash, key, v) <==>
      (BucketOf(hash), key) in Contents(tb.t) && Contents(tb.t)[(BucketOf(hash), key)] == v
    {
      LookupInImage(tb, hash, key, v);
    }
  }

  /**
   What a lookup finds in the bytes after a `Put`: the new value under the same key and any hash of the same bucket,
   and under any other key or bucket what it found before.
   */
  method PutThenGet(tb: Tablet, hash: nat, key: seq<Byte>, val: seq<Byte>, hash': nat, key': seq<Byte>)
    returns (put: Status, status: Status, found: seq<Byte>)
    requires tb.Valid() && OBJECT + |key| + |val| + 4 <= MAX_BLOCK && hash < 0x1_0000_0000_0000_0000
    modifies tb, tb.alloc, tb.alloc.mem
    ensures put == OK ==>
      && Finds(tb.alloc.mem[..], hash, key, val) && Answers(tb.alloc.mem[..], hash', key', status, found)
      && (if hash % 1_000_003 == hash' % 1_000_003 && key == key' then status == OK && found == val
          else Answers(old(tb.alloc.mem[..]), hash', key', status, found))
    ensures put == Aborted <==>
      Serving.Refused(old(tb.alloc.blocks), old(tb.alloc.lists), old(tb.t), Serving.Put(hash, key, val))
  {
    hide Tablet.RepOf, TableOk, Contents, Finds, Answers, BucketOf, FreeLists.Exact, NoRoom, NoHead, Available,
      AvailableLists, Shortened, Inserted, Replaced;
    SameBucket(hash, hash');
    ghost var m, c, k' := tb.alloc.mem[..], Contents(tb.t), (BucketOf(hash'), key');
    AnswersNow(tb, hash', key', if k' in c then OK else ERROR, if k' in c then c[k'] else []);
    put := tb.Put(hash, key, val);
    status, found := ERROR, [];
    if put == OK {
      LookupInImage(tb, hash, key, val);
      status, found := tb.Get(hash', key');
      AnswersNow(tb, hash', key', status, found);
    }
  }
}
