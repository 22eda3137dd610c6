/**
 The tablet's hash table as linked records: bucket heads and, per live block, a record whose `next`
 names the following record of its bucket. It denotes a map from keys to values.
 */
module HashChains {
  import opened Bytes
  import opened Layout

  /** A stored object: the fields of an `NVMObject` and its data. */
  datatype Rec = Rec(next: nat, hash: nat, key: seq<Byte>, val: seq<Byte>)

  /** Keys are told apart within a bucket by their bytes alone. */
  type Key = (nat, seq<Byte>)

  function BucketOf(hash: nat): (i: nat)
    ensures i < HASH_TABLE_SIZE
  {
    hash % HASH_TABLE_SIZE
  }

  function KeyOf(r: Rec): Key { (BucketOf(r.hash), r.key) }

  /** The link that leads to position `j` of a chain. */
  function LinkTo(ch: seq<nat>, j: nat): nat {
    if j < |ch| then NodePtr(ch[j]) else 0
  }

  /** `chains` lists the records of each bucket in order; `owner` finds the record of each key. */
  datatype Table = Table(heads: seq<nat>, recs: map<nat, Rec>, chains: seq<seq<nat>>, owner: map<Key, nat>)

  ghost predicate LinkedAt(t: Table, i: nat, j: nat)
    requires i < |t.chains| && j < |t.chains[i]|
  {
    var u := t.chains[i][j];
    && u in t.recs
    && t.recs[u].next == LinkTo(t.chains[i], j + 1)
    && BucketOf(t.recs[u].hash) == i
  }

  ghost predicate Distinct(s: seq<nat>) {
    forall i, j :: 0 <= i < j < |s| ==> s[i] != s[j]
  }

  ghost predicate ChainAt(t: Table, i: nat)
    requires i < |t.chains| && i < |t.heads|
  {
    && t.heads[i] == LinkTo(t.chains[i], 0)
    && Distinct(t.chains[i])
    && (forall j {:trigger LinkedAt(t, i, j)} :: 0 <= j < |t.chains[i]| ==> LinkedAt(t, i, j))
  }

  ghost predicate RecAt(t: Table, u: nat)
    requires u in t.recs && |t.chains| == HASH_TABLE_SIZE
  {
    var k := KeyOf(t.recs[u]);
    u in t.chains[k.0] && k in t.owner && t.owner[k] == u
  }

  ghost predicate OwnerAt(t: Table, k: Key)
    requires k in t.owner
  {
    t.owner[k] in t.recs && KeyOf(t.recs[t.owner[k]]) == k
  }

  ghost predicate TableOk(t: Table) {
    && |t.heads| == |t.chains| == HASH_TABLE_SIZE
    && (forall i {:trigger ChainAt(t, i)} :: 0 <= i < HASH_TABLE_SIZE ==> ChainAt(t, i))
    && (forall u {:trigger RecAt(t, u)} :: u in t.recs ==> RecAt(t, u))
    && (forall k {:trigger OwnerAt(t, k)} :: k in t.owner ==> OwnerAt(t, k))
  }

  /** The map the table denotes. */
  ghost function Contents(t: Table): map<Key, seq<Byte>> {
    map k | k in t.owner && t.owner[k] in t.recs :: t.recs[t.owner[k]].val
  }

  /** Where the link to position `j` of bucket `i` is stored: the head, or the record before it. */
  ghost function SetLink(t: Table, i: nat, j: nat, v: nat): Table
    requires i < |t.chains| && i < |t.heads| && j <= |t.chains[i]|
  {
    if j == 0 then t.(heads := t.heads[i := v])
    else
      var q := t.chains[i][j - 1];
      if q in t.recs then t.(recs := t.recs[q := t.recs[q].(next := v)]) else t
  }

  /** A new record at the head of its bucket. */
  ghost function Insert(t: Table, u: nat, hash: nat, key: seq<Byte>, val: seq<Byte>): Table
    requires |t.heads| == |t.chains| == HASH_TABLE_SIZE
  {
    var i := BucketOf(hash);
    Table(t.heads[i := NodePtr(u)],
          t.recs[u := Rec(t.heads[i], hash, key, val)],
          t.chains[i := [u] + t.chains[i]],
          t.owner[(i, key) := u])
  }

  lemma InsertLinkedAt(t: Table, u: nat, hash: nat, key: seq<Byte>, val: seq<Byte>, i: nat, j: nat)
    requires TableOk(t) && u !in t.recs && i < HASH_TABLE_SIZE
    requires j < |Insert(t, u, hash, key, val).chains[i]|
    ensures LinkedAt(Insert(t, u, hash, key, val), i, j)
  {
    assert ChainAt(t, i);
    if i != BucketOf(hash) {
      assert LinkedAt(t, i, j);
    } else if j > 0 {
      assert LinkedAt(t, i, j - 1);
    }
  }

  lemma InsertOk(t: Table, u: nat, hash: nat, key: seq<Byte>, val: seq<Byte>)
    requires TableOk(t) && u !in t.recs && (BucketOf(hash), key) !in t.owner
    ensures TableOk(Insert(t, u, hash, key, val))
  {
    var t', b := Insert(t, u, hash, key, val), BucketOf(hash);
    forall i | 0 <= i < HASH_TABLE_SIZE ensures ChainAt(t', i) {
      assert ChainAt(t, i);
      forall j | 0 <= j < |t'.chains[i]| ensures LinkedAt(t', i, j) {
        InsertLinkedAt(t, u, hash, key, val, i, j);
      }
      forall j | 0 <= j < |t.chains[i]| ensures t.chains[i][j] != u {
        assert LinkedAt(t, i, j);
      }
    }
    forall x | x in t'.recs ensures RecAt(t', x) {
      assert x != u ==> RecAt(t, x);
    }
    forall k | k in t'.owner ensures OwnerAt(t', k) {
      assert k != (b, key) ==> OwnerAt(t, k);
    }
  }

  lemma InsertContents(t: Table, u: nat, hash: nat, key: seq<Byte>, val: seq<Byte>)
    requires TableOk(t) && u !in t.recs
    ensures Contents(Insert(t, u, hash, key, val)) == Contents(t)[(BucketOf(hash), key) := val]
  {
    forall k | k in t.owner ensures t.owner[k] in t.recs && t.owner[k] != u {
      assert OwnerAt(t, k);
    }
  }

  lemma TableShape(t: Table)
    requires TableOk(t)
    ensures |t.heads| == |t.chains| == HASH_TABLE_SIZE
  {
  }

  /** `Insert` as its stores make it: write the record, then the bucket head. */
  lemma InsertSteps(t: Table, u: nat, hash: nat, key: seq<Byte>, val: seq<Byte>)
    requires TableOk(t) && u !in t.recs && (BucketOf(hash), key) !in t.owner
    ensures TableOk(Insert(t, u, hash, key, val))
    ensures Contents(Insert(t, u, hash, key, val)) == Contents(t)[(BucketOf(hash), key) := val]
    ensures var t1 := SetLink(t.(recs := t.recs[u := Rec(t.heads[BucketOf(hash)], hash, key, val)]), BucketOf(hash),
      0, NodePtr(u));
      t1.heads == Insert(t, u, hash, key, val).heads && t1.recs == Insert(t, u, hash, key, val).recs
    ensures Insert(t, u, hash, key, val).recs.Keys == t.recs.Keys + {u}
  {
    InsertOk(t, u, hash, key, val);
    InsertContents(t, u, hash, key, val);
  }

  /** The record at position `j` of its bucket gets a shorter or equal value in place. */
  ghost function SetVal(t: Table, u: nat, val: seq<Byte>): Table
    requires u in t.recs
  {
    t.(recs := t.recs[u := t.recs[u].(val := val)])
  }

  lemma SetValOk(t: Table, u: nat, val: seq<Byte>)
    requires TableOk(t) && u in t.recs
    ensures TableOk(SetVal(t, u, val))
    ensures Contents(SetVal(t, u, val)) == Contents(t)[KeyOf(t.recs[u]) := val]
  {
    var t' := SetVal(t, u, val);
    assert RecAt(t, u);
    forall i | 0 <= i < HASH_TABLE_SIZE ensures ChainAt(t', i) {
      assert ChainAt(t, i);
      forall j | 0 <= j < |t'.chains[i]| ensures LinkedAt(t', i, j) {
        assert LinkedAt(t, i, j);
      }
    }
    forall x | x in t'.recs ensures RecAt(t', x) {
      assert RecAt(t, x);
    }
    forall k | k in t'.owner ensures OwnerAt(t', k) && OwnerAt(t, k) {
      assert OwnerAt(t, k);
    }
  }

  lemma SetValMeans(t: Table, u: nat, val: seq<Byte>)
    requires TableOk(t) && u in t.recs
    ensures TableOk(SetVal(t, u, val)) && SetVal(t, u, val).recs.Keys == t.recs.Keys
    ensures Contents(SetVal(t, u, val)) == Contents(t)[KeyOf(t.recs[u]) := val]
  {
    SetValOk(t, u, val);
  }

  /** The record at position `j` of bucket `i` is taken out. */
  ghost function Remove(t: Table, i: nat, j: nat): Table
    requires |t.heads| == |t.chains| == HASH_TABLE_SIZE && i < HASH_TABLE_SIZE && j < |t.chains[i]|
    requires t.chains[i][j] in t.recs
  {
    var u := t.chains[i][j];
    var t1 := SetLink(t, i, j, t.recs[u].next);
    Table(t1.heads, t1.recs - {u}, t.chains[i := t.chains[i][..j] + t.chains[i][j + 1..]], t.owner - {KeyOf(t.recs[u])})
  }

  lemma RemoveLinkedAt(t: Table, i: nat, j: nat, x: nat, y: nat)
    requires TableOk(t) && i < HASH_TABLE_SIZE && j < |t.chains[i]| && t.chains[i][j] in t.recs
    requires x < HASH_TABLE_SIZE && y < |Remove(t, i, j).chains[x]|
    ensures LinkedAt(Remove(t, i, j), x, y)
  {
    if x != i {
      RemoveElsewhere(t, i, j, x, y);
    } else if y < j {
      RemoveAfter(t, i, j, y);
    } else {
      RemoveBefore(t, i, j, y);
    }
  }

  lemma RemoveElsewhere(t: Table, i: nat, j: nat, x: nat, y: nat)
    requires TableOk(t) && i < HASH_TABLE_SIZE && j < |t.chains[i]| && t.chains[i][j] in t.recs
    requires x < HASH_TABLE_SIZE && x != i && y < |t.chains[x]|
    ensures LinkedAt(Remove(t, i, j), x, y)
  {
    assert ChainAt(t, i) && ChainAt(t, x) && LinkedAt(t, i, j) && LinkedAt(t, x, y);
    assert j > 0 ==> LinkedAt(t, i, j - 1);
    hide TableOk, ChainAt;
  }

  lemma RemoveAfter(t: Table, i: nat, j: nat, y: nat)
    requires TableOk(t) && i < HASH_TABLE_SIZE && j < |t.chains[i]| && t.chains[i][j] in t.recs && y < j
    ensures LinkedAt(Remove(t, i, j), i, y)
  {
    assert ChainAt(t, i) && LinkedAt(t, i, j) && LinkedAt(t, i, y);
    hide TableOk;
  }

  lemma RemoveBefore(t: Table, i: nat, j: nat, y: nat)
    requires TableOk(t) && i < HASH_TABLE_SIZE && j <= y < |t.chains[i]| - 1 && t.chains[i][j] in t.recs
    ensures LinkedAt(Remove(t, i, j), i, y)
  {
    assert ChainAt(t, i) && LinkedAt(t, i, y + 1);
    assert j > 0 ==> LinkedAt(t, i, j - 1);
    hide TableOk;
  }

  lemma RemoveOk(t: Table, i: nat, j: nat)
    requires TableOk(t) && i < HASH_TABLE_SIZE && j < |t.chains[i]| && t.chains[i][j] in t.recs
    ensures TableOk(Remove(t, i, j))
  {
    var t', u := Remove(t, i, j), t.chains[i][j];
    assert ChainAt(t, i) && LinkedAt(t, i, j) && RecAt(t, u);
    assert j > 0 ==> LinkedAt(t, i, j - 1);
    forall x | 0 <= x < HASH_TABLE_SIZE ensures ChainAt(t', x) {
      assert ChainAt(t, x);
      forall y | 0 <= y < |t'.chains[x]| ensures LinkedAt(t', x, y) {
        RemoveLinkedAt(t, i, j, x, y);
      }
    }
    forall x | x in t'.recs ensures RecAt(t', x) {
      assert RecAt(t, x);
      var ch := t.chains[KeyOf(t.recs[x]).0];
      var y :| 0 <= y < |ch| && ch[y] == x;
    }
    forall k | k in t'.owner ensures OwnerAt(t', k) {
      assert OwnerAt(t, k);
    }
  }

  lemma RemoveContents(t: Table, i: nat, j: nat)
    requires TableOk(t) && i < HASH_TABLE_SIZE && j < |t.chains[i]| && t.chains[i][j] in t.recs
    ensures Contents(Remove(t, i, j)) == Contents(t) - {KeyOf(t.recs[t.chains[i][j]])}
  {
    var u := t.chains[i][j];
    assert RecAt(t, u);
    forall k | k in t.owner ensures t.owner[k] in t.recs && KeyOf(t.recs[t.owner[k]]) == k {
      assert OwnerAt(t, k);
    }
  }

  /** The record at position `j` of bucket `i` is replaced by one at `u` with the same key. */
  ghost function Replace(t: Table, i: nat, j: nat, u: nat, hash: nat, key: seq<Byte>, val: seq<Byte>): Table
    requires |t.heads| == |t.chains| == HASH_TABLE_SIZE && i < HASH_TABLE_SIZE && j < |t.chains[i]|
    requires t.chains[i][j] in t.recs
  {
    var x := t.chains[i][j];
    var t1 := SetLink(t, i, j, NodePtr(u));
    var ch: seq<nat> := t.chains[i][j := u];
    Table(t1.heads, (t1.recs - {x})[u := Rec(t.recs[x].next, hash, key, val)], t.chains[i := ch],
          t.owner[(i, key) := u])
  }

  ghost predicate CanReplace(t: Table, i: nat, j: nat, u: nat, hash: nat, key: seq<Byte>) {
    && TableOk(t) && i < HASH_TABLE_SIZE && j < |t.chains[i]| && t.chains[i][j] in t.recs
    && (u == t.chains[i][j] || u !in t.recs)
    && KeyOf(t.recs[t.chains[i][j]]) == (i, key) && BucketOf(hash) == i
  }

  lemma ReplaceLinkedAt(t: Table, i: nat, j: nat, u: nat, hash: nat, key: seq<Byte>, val: seq<Byte>, x: nat, y: nat)
    requires CanReplace(t, i, j, u, hash, key)
    requires x < HASH_TABLE_SIZE && y < |t.chains[x]|
    ensures LinkedAt(Replace(t, i, j, u, hash, key, val), x, y)
    ensures (x != i || y != j) ==> t.chains[x][y] != u
  {
    assert ChainAt(t, i) && ChainAt(t, x) && LinkedAt(t, i, j) && LinkedAt(t, x, y);
    assert j > 0 ==> LinkedAt(t, i, j - 1);
    assert y + 1 < |t.chains[x]| ==> LinkedAt(t, x, y + 1);
  }

  lemma ReplaceOk(t: Table, i: nat, j: nat, u: nat, hash: nat, key: seq<Byte>, val: seq<Byte>)
    requires CanReplace(t, i, j, u, hash, key)
    ensures TableOk(Replace(t, i, j, u, hash, key, val))
  {
    var t', v := Replace(t, i, j, u, hash, key, val), t.chains[i][j];
    assert ChainAt(t, i) && LinkedAt(t, i, j) && RecAt(t, v);
    assert j > 0 ==> LinkedAt(t, i, j - 1);
    forall x | 0 <= x < HASH_TABLE_SIZE ensures ChainAt(t', x) {
      assert ChainAt(t, x);
      forall y | 0 <= y < |t'.chains[x]| ensures LinkedAt(t', x, y) && ((x != i || y != j) ==> t.chains[x][y] != u) {
        ReplaceLinkedAt(t, i, j, u, hash, key, val, x, y);
      }
    }
    forall x | x in t'.recs ensures RecAt(t', x) {
      if x == u {
        assert t'.chains[i][j] == u;
      } else {
        assert RecAt(t, x);
        var c := KeyOf(t.recs[x]).0;
        var y :| 0 <= y < |t.chains[c]| && t.chains[c][y] == x;
        assert t'.chains[c][y] == x;
      }
    }
    forall k | k in t'.owner ensures OwnerAt(t', k) {
      assert k in t.owner ==> OwnerAt(t, k);
    }
  }

  lemma ReplaceContents(t: Table, i: nat, j: nat, u: nat, hash: nat, key: seq<Byte>, val: seq<Byte>)
    requires CanReplace(t, i, j, u, hash, key)
    ensures Contents(Replace(t, i, j, u, hash, key, val)) == Contents(t)[(i, key) := val]
  {
    var t', v := Replace(t, i, j, u, hash, key, val), t.chains[i][j];
    assert RecAt(t, v) && ChainAt(t, i);
    assert j > 0 ==> LinkedAt(t, i, j - 1);
    forall k | k in t.owner && k != (i, key)
      ensures t.owner[k] in t.recs && t.owner[k] in t'.recs && t'.recs[t.owner[k]].val == t.recs[t.owner[k]].val
    {
      assert OwnerAt(t, k);
    }
    hide TableOk, KeyOf, BucketOf, SetLink;
  }

  /** `Replace` as its stores make it: drop the old record, write the new one, then relink. */
  lemma ReplaceSteps(t: Table, i: nat, j: nat, u: nat, hash: nat, key: seq<Byte>, val: seq<Byte>)
    requires CanReplace(t, i, j, u, hash, key)
    ensures j > 0 ==> t.chains[i][j - 1] in t.recs && t.chains[i][j - 1] != t.chains[i][j] && t.chains[i][j - 1] != u
    ensures var x, t' := t.chains[i][j], Replace(t, i, j, u, hash, key, val);
      var t1 := SetLink(t.(recs := (t.recs - {x})[u := Rec(t.recs[x].next, hash, key, val)]), i, j, NodePtr(u));
      t1.heads == t'.heads && t1.recs == t'.recs
  {
    assert ChainAt(t, i);
    assert j > 0 ==> LinkedAt(t, i, j - 1);
  }

  /** `Replace` keeps the table and changes the map at one key. */
  lemma ReplaceMeans(t: Table, i: nat, j: nat, u: nat, hash: nat, key: seq<Byte>, val: seq<Byte>)
    requires CanReplace(t, i, j, u, hash, key)
    ensures TableOk(Replace(t, i, j, u, hash, key, val))
    ensures Contents(Replace(t, i, j, u, hash, key, val)) == Contents(t)[(i, key) := val]
    ensures Replace(t, i, j, u, hash, key, val).recs.Keys == t.recs.Keys - {t.chains[i][j]} + {u}
  {
    ReplaceOk(t, i, j, u, hash, key, val);
    ReplaceContents(t, i, j, u, hash, key, val);
    assert ChainAt(t, i);
    assert j > 0 ==> LinkedAt(t, i, j - 1);
  }

  /** What `Remove` needs and does. */
  lemma RemoveMeans(t: Table, i: nat, j: nat)
    requires TableOk(t) && i < HASH_TABLE_SIZE && j < |t.chains[i]| && t.chains[i][j] in t.recs
    ensures j > 0 ==> t.chains[i][j - 1] in t.recs && t.chains[i][j - 1] != t.chains[i][j]
    ensures TableOk(Remove(t, i, j))
    ensures Contents(Remove(t, i, j)) == Contents(t) - {KeyOf(t.recs[t.chains[i][j]])}
    ensures Remove(t, i, j).recs.Keys == t.recs.Keys - {t.chains[i][j]}
    ensures var t1 := SetLink(t, i, j, t.recs[t.chains[i][j]].next);
      && t1.heads == Remove(t, i, j).heads && t1.recs - {t.chains[i][j]} == Remove(t, i, j).recs
      && t.chains[i][j] in t1.recs && t1.chains == t.chains && t1.owner == t.owner
  {
    RemoveOk(t, i, j);
    RemoveContents(t, i, j);
    assert ChainAt(t, i);
    assert j > 0 ==> LinkedAt(t, i, j - 1);
  }

  /** A key is in the map exactly when some record of its bucket has it. */
  lemma LookupHit(t: Table, i: nat, j: nat, key: seq<Byte>)
    requires TableOk(t) && i < HASH_TABLE_SIZE && j < |t.chains[i]|
    requires LinkedAt(t, i, j) && t.recs[t.chains[i][j]].key == key
    ensures (i, key) in Contents(t) && Contents(t)[(i, key)] == t.recs[t.chains[i][j]].val
    ensures KeyOf(t.recs[t.chains[i][j]]) == (i, key) && (i, key) in t.owner && t.owner[(i, key)] == t.chains[i][j]
  {
    assert RecAt(t, t.chains[i][j]);
  }

  lemma LookupMiss(t: Table, i: nat, key: seq<Byte>)
    requires TableOk(t) && i < HASH_TABLE_SIZE
    requires forall j :: 0 <= j < |t.chains[i]| && t.chains[i][j] in t.recs ==> t.recs[t.chains[i][j]].key != key
    ensures (i, key) !in t.owner && (i, key) !in Contents(t)
  {
    if (i, key) in t.owner {
      OwnedInChain(t, (i, key));
    }
  }

  lemma OwnedInChain(t: Table, k: Key)
    requires TableOk(t) && k in t.owner
    ensures k.0 < HASH_TABLE_SIZE && t.owner[k] in t.recs && t.owner[k] in t.chains[k.0] &&
      t.recs[t.owner[k]].key == k.1
  {
    assert OwnerAt(t, k);
    assert RecAt(t, t.owner[k]);
  }

  // The walk of `Del`, as written and with the step that the other walks make

  /** The walk of bucket `i` for `key`, at position `j`, returns after at most `n` more rounds. */
  ghost predicate Returns(t: Table, i: nat, key: seq<Byte>, j: nat, advances: bool, n: nat)
    requires i < |t.chains| && j <= |t.chains[i]|
    decreases n
  {
    var ch := t.chains[i];
    || j == |ch|
    || (ch[j] in t.recs && t.recs[ch[j]].key == key)
    || (n > 0 && Returns(t, i, key, if advances then j + 1 else j, advances, n - 1))
  }

  lemma {:induction false} StaysAt(t: Table, i: nat, key: seq<Byte>, j: nat, n: nat)
    requires i < |t.chains| && j < |t.chains[i]| && t.chains[i][j] in t.recs && t.recs[t.chains[i][j]].key != key
    ensures !Returns(t, i, key, j, false, n)
  {
    if n > 0 {
      StaysAt(t, i, key, j, n - 1);
    }
  }

  /** As written, the walk returns exactly when the bucket is empty or its first record has the key. */
  lemma DelReturns(t: Table, i: nat, key: seq<Byte>)
    requires TableOk(t) && i < HASH_TABLE_SIZE
    ensures (exists n: nat :: Returns(t, i, key, 0, false, n)) <==>
      (t.heads[i] == 0 || (t.chains[i] != [] && t.chains[i][0] in t.recs && t.recs[t.chains[i][0]].key == key))
  {
    assert ChainAt(t, i);
    if t.chains[i] == [] || (t.chains[i][0] in t.recs && t.recs[t.chains[i][0]].key == key) {
      assert exists n: nat :: Returns(t, i, key, 0, false, n) by {
        assert Returns(t, i, key, 0, false, i);
      }
    } else {
      assert LinkedAt(t, i, 0);
      forall n: nat ensures !Returns(t, i, key, 0, false, n) {
        StaysAt(t, i, key, 0, n);
      }
    }
  }

  /** A walk that advances returns within one round per record. */
  lemma {:induction false} AdvancingReturns(t: Table, i: nat, key: seq<Byte>, j: nat)
    requires i < |t.chains| && j <= |t.chains[i]|
    ensures Returns(t, i, key, j, true, |t.chains[i]| - j)
    decreases |t.chains[i]| - j
  {
    if j < |t.chains[i]| {
      AdvancingReturns(t, i, key, j + 1);
    }
  }

  /** After any insertion, the walk as written never returns for another key of the same bucket. */
  lemma DelHangs(t: Table, u: nat, hash: nat, key: seq<Byte>, val: seq<Byte>, other: seq<Byte>, n: nat)
    requires |t.heads| == |t.chains| == HASH_TABLE_SIZE && other != key
    ensures !Returns(Insert(t, u, hash, key, val), BucketOf(hash), other, 0, false, n)
  {
    StaysAt(Insert(t, u, hash, key, val), BucketOf(hash), other, 0, n);
  }
}
