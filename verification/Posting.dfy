/**
 What reaches the backups when not every range is posted: the source posts only the first range, and the
 adapter may refuse long ones.
 */
module Posting {
  import opened Arithmetic
  import opened Bytes
  import opened Layout
  import opened Blocks
  import opened Allocation
  import opened Modifications
  import opened Merging
  import opened Replication
  import HashChains
  import opened Tablets
  import opened Serving
  import opened Startup
  import FreeLists

  // How far the first range can reach

  ghost function Span(a: int, n: nat): set<int> {
    if n == 0 then {} else Span(a, n - 1) + {a + n - 1}
  }

  lemma {:induction false} SpanHas(a: int, n: nat, i: int)
    ensures i in Span(a, n) <==> a <= i < a + n
  {
    if n > 0 {
      SpanHas(a, n - 1, i);
    }
  }

  lemma {:induction false} SpanSize(a: int, n: nat)
    ensures |Span(a, n)| == n
  {
    if n > 0 {
      SpanSize(a, n - 1);
      SpanHas(a, n - 1, a + n - 1);
    }
  }

  /** The bytes within a gap after some entry or in it. */
  ghost function Reach(log: seq<Modification>): set<int> {
    if log == [] then {}
    else
      var e := log[|log| - 1];
      Reach(log[..|log| - 1]) + Span(e.des, e.len + GAP)
  }

  lemma {:induction false} ReachSize(log: seq<Modification>)
    requires forall k :: 0 <= k < |log| ==> log[k].len <= MAX_BLOCK
    ensures |Reach(log)| <= |log| * (MAX_BLOCK + GAP)
  {
    if log != [] {
      var n := |log| - 1;
      ReachSize(log[..n]);
      var a, b := Reach(log[..n]), Span(log[n].des, log[n].len + GAP);
      SpanSize(log[n].des, log[n].len + GAP);
      assert |a + b| <= |a| + |b|;
    }
  }

  lemma {:induction false} ReachHas(log: seq<Modification>, k: nat, i: int)
    requires k < |log| && log[k].des <= i < EndOf(log[k]) + GAP
    ensures i in Reach(log)
    decreases |log|
  {
    if k < |log| - 1 {
      ReachHas(log[..|log| - 1], k, i);
    } else {
      SpanHas(log[k].des, log[k].len + GAP, i);
    }
  }

  /** A range that covers only entries and small gaps is no longer than its entries with their gaps. */
  lemma RangeWeight(o: Modification, log: seq<Modification>)
    requires OnlyGaps(o, log) && forall k :: 0 <= k < |log| ==> log[k].len <= MAX_BLOCK
    ensures o.len <= |log| * (MAX_BLOCK + GAP)
  {
    var s := Span(o.des, o.len);
    forall i | i in s ensures i in Reach(log) {
      SpanHas(o.des, o.len, i);
      assert Covers(o, i);
      if Logged(log, i) {
        var k :| 0 <= k < |log| && Covers(log[k], i);
        ReachHas(log, k, i);
      } else {
        var k, k' :| 0 <= k < |log| && 0 <= k' < |log| && EndOf(log[k]) <= i < log[k'].des <= EndOf(log[k]) + GAP;
        ReachHas(log, k, i);
      }
    }
    SpanSize(o.des, o.len);
    ReachSize(log);
    SubsetSize(s, Reach(log));
  }

  lemma AfterFirst(out: seq<Modification>, x: nat)
    requires Separated(out) && x < |out|
    ensures x == 0 || EndOf(out[0]) + GAP < out[x].des
  {
  }

  /** The first range starts at or below every entry. */
  lemma FirstIsLowest(log: seq<Modification>, out: seq<Modification>, base: nat, o: nat)
    requires Merged(log, out, base) && StartsAt(log, o)
    ensures |out| > 0 && out[0].des <= o
  {
    var k :| 0 <= k < |log| && log[k].des == o;
    assert ContainedAt(log[k], out);
    var x :| 0 <= x < |out| && Inside(log[k], out[x]);
    assert x > 0 ==> EndOf(out[0]) + GAP < out[x].des;
  }

  /** Where the first range of `n` entries must end when it starts in the list table. */
  function FirstEnd(n: nat): nat { FIRST + n * (MAX_BLOCK + GAP) }

  /** When the list table was written, the first range ends early, and far before the bucket heads. */
  lemma FirstEndsEarly(log: seq<Modification>, out: seq<Modification>, base: nat, low: nat)
    requires Merged(log, out, base) && (forall k :: 0 <= k < |log| ==> log[k].len <= MAX_BLOCK)
    requires low < FIRST && StartsAt(log, low)
    ensures |out| > 0 && EndOf(out[0]) <= FirstEnd(|log|)
    ensures |log| <= 25 ==> EndOf(out[0]) < K_SIZE
  {
    FirstIsLowest(log, out, base, low);
    assert GoodRange(out[0], log, base);
    RangeWeight(out[0], log);
  }

  // Bucket heads that do not arrive

  lemma WordsDiffer(m: seq<Byte>, m': seq<Byte>, o: nat) returns (i: nat)
    requires o + 4 <= |m| == |m'| && Word(m, o) != Word(m', o)
    ensures o <= i < o + 4 && m[i] != m'[i]
  {
    if m[o..o + 4] == m'[o..o + 4] {
      assert false;
    }
    var k: nat :| k < 4 && m[o..o + 4][k] != m'[o..o + 4][k];
    i := o + k;
  }

  /** A bucket head changed, and none of the ranges that arrived reaches it: the image is out of date. */
  lemma HeadLost(m: seq<Byte>, m': seq<Byte>, rs: seq<Modification>, r: seq<Byte>, i: nat)
    requires |m| == |m'| == IMAGE_SIZE && i < HASH_TABLE_SIZE && Word(m, SlotOffset(i)) != Word(m', SlotOffset(i))
    requires Patched(m, m', rs, r) && forall k :: 0 <= k < |rs| ==> EndOf(rs[k]) <= K_SIZE
    ensures r != m'
  {
    var x := WordsDiffer(m, m', SlotOffset(i));
    assert forall k :: 0 <= k < |rs| ==> !Covers(rs[k], x);
  }

  lemma HeadNow(tablet: Tablet, i: nat)
    requires tablet.Valid() && i < HASH_TABLE_SIZE
    ensures |tablet.t.heads| == HASH_TABLE_SIZE && tablet.alloc.mem.Length == IMAGE_SIZE
    ensures Word(tablet.alloc.mem[..], SlotOffset(i)) == tablet.t.heads[i]
  {
    assert HeadAt(tablet.alloc.mem[..], tablet.t.heads, i);
  }

  // A value overwritten in place

  /** Both stores end up in one range exactly for keys of at most 8 bytes; otherwise the length travels alone. */
  lemma ShortRanges(log: seq<Modification>, out: seq<Modification>, base: nat, p: nat, keyLen: nat, n: nat)
    requires Merged(log, out, base)
    requires log == [Modification(p + 6, base + (p + 6), 2),
      Modification(p + OBJECT + keyLen, base + (p + OBJECT + keyLen), n)]
    ensures |out| > 0 && out[0].des == p + 6
    ensures if keyLen <= 8 then EndOf(out[0]) == p + OBJECT + keyLen + n else EndOf(out[0]) == p + 8
  {
    var a, b := log[0], log[1];
    assert ContainedAt(log[0], out) && ContainedAt(log[1], out);
    var x: nat :| x < |out| && Inside(a, out[x]);
    var y: nat :| y < |out| && Inside(b, out[y]);
    assert GoodRange(out[0], log, base) && GoodRange(out[x], log, base) && GoodRange(out[y], log, base);
    var k: nat :| k < 2 && log[k].des == out[0].des;
    var l: nat :| l < 2 && EndOf(log[l]) == EndOf(out[0]);
    AfterFirst(out, x);
    AfterFirst(out, y);
    if keyLen > 8 {
      assert forall z :: 0 <= z < 2 ==> !Covers(log[z], p + 8);
      assert !InGap(log, p + 8);
      assert !Covers(out[0], p + 8);
    }
  }

  lemma InSameRange(out: seq<Modification>, x: nat, y: nat, a: Modification, b: Modification)
    requires Separated(out) && x < |out| && y < |out| && Inside(a, out[x]) && Inside(b, out[y])
    requires a.des <= b.des <= EndOf(a) + GAP
    ensures x == y
  {
    if x < y {
      Apart(out, x, y);
    } else if y < x {
      Apart(out, y, x);
    }
  }

  lemma Apart(out: seq<Modification>, x: nat, y: nat)
    requires Separated(out) && x < y < |out|
    ensures EndOf(out[x]) + GAP < out[y].des
  {
  }

  /** A range starts and ends with entries; of two entries there are at most two ranges. */
  lemma TwoAtMost(log: seq<Modification>, out: seq<Modification>, base: nat)
    requires Merged(log, out, base) && |log| == 2
    ensures |out| <= 2
  {
    if |out| > 2 {
      assert GoodRange(out[0], log, base) && GoodRange(out[1], log, base) && GoodRange(out[2], log, base);
      Apart(out, 0, 1);
      Apart(out, 1, 2);
    }
  }

  /** The second range, when there is one, is the second entry. */
  lemma SecondRange(log: seq<Modification>, out: seq<Modification>, base: nat, e: nat)
    requires Merged(log, out, base) && |log| == 2 && |out| == 2 && out[0].des == log[0].des && EndOf(log[0]) == e
    requires EndOf(out[0]) >= e && log[0].des <= e
    ensures out[1].des == log[1].des && EndOf(out[1]) == EndOf(log[1])
  {
    assert GoodRange(out[1], log, base);
    Apart(out, 0, 1);
  }

  /** Which lengths the ranges of a shorter value have. */
  lemma ShortLengths(log: seq<Modification>, out: seq<Modification>, base: nat, p: nat, keyLen: nat, n: nat, limit: nat)
    requires Merged(log, out, base)
    requires log == [Modification(p + 6, base + (p + 6), 2),
      Modification(p + OBJECT + keyLen, base + (p + OBJECT + keyLen), n)]
    ensures (forall x :: 0 <= x < |out| ==> out[x].len <= limit) <==>
      if keyLen <= 8 then 10 + keyLen + n <= limit else 2 <= limit && n <= limit
  {
    ShortRanges(log, out, base, p, keyLen, n);
    TwoAtMost(log, out, base);
    assert ContainedAt(log[1], out);
    var y: nat :| y < |out| && Inside(log[1], out[y]);
    if |out| == 2 {
      SecondRange(log, out, base, p + 8);
    }
    hide Merged;
  }

  lemma ShortPatched(m: seq<Byte>, m': seq<Byte>, log: seq<Modification>, out: seq<Modification>, base: nat, p: nat,
                     key: seq<Byte>, prior: seq<Byte>, val: seq<Byte>, r: seq<Byte>)
    requires Shortened(m, m', log, base, p, |key|, prior, val) && Merged(log, out, base) && |out| > 0
    requires Patched(m, m', out[..1], r)
    ensures r == m' <==> |key| <= 8 || val <= prior
  {
    ShortRanges(log, out, base, p, |key|, |val|);
    ShortFits(m, m', log, base, p, |key|, prior, val);
    hide Merged, Shortened, Patched;
    var v := p + OBJECT + |key|;
    if |key| <= 8 || val <= prior {
      forall i | 0 <= i < |m| ensures |r| == |m'| == |m| && r[i] == m'[i] {
        ShortByte(m, m', log, base, p, |key|, prior, val, i);
        OneRange(m, m', out, r, i);
      }
    } else {
      var i: nat :| i < |val| && val[i] != prior[i];
      ShortByte(m, m', log, base, p, |key|, prior, val, v + i);
      OneRange(m, m', out, r, v + i);
    }
  }

  lemma ShortFits(m: seq<Byte>, m': seq<Byte>, log: seq<Modification>, base: nat, p: nat, keyLen: nat,
                  prior: seq<Byte>, val: seq<Byte>)
    requires Shortened(m, m', log, base, p, keyLen, prior, val)
    ensures p + OBJECT + keyLen + |val| <= |m| == |m'| && |val| < |prior| && |m| > 0
  {
  }

  /** The bytes of a value overwritten in place, before and after. */
  lemma ShortByte(m: seq<Byte>, m': seq<Byte>, log: seq<Modification>, base: nat, p: nat, keyLen: nat,
                  prior: seq<Byte>, val: seq<Byte>, i: nat)
    requires Shortened(m, m', log, base, p, keyLen, prior, val) && i < |m|
    ensures |m'| == |m| && |val| <= |prior|
    ensures var v := p + OBJECT + keyLen;
      if v <= i < v + |val| then m'[i] == val[i - v] && m[i] == prior[i - v]
      else p + 6 <= i < p + 8 || m'[i] == m[i]
  {
    var v := p + OBJECT + keyLen;
    if v <= i < v + |val| {
      assert m[v..v + |prior|][i - v] == m[i];
    }
  }

  /** A byte of a backup that got the first range. */
  lemma OneRange(m: seq<Byte>, m': seq<Byte>, out: seq<Modification>, r: seq<Byte>, i: nat)
    requires |out| > 0 && Patched(m, m', out[..1], r) && i < |m|
    ensures |r| == |m| == |m'| && r[i] == if out[0].des <= i < EndOf(out[0]) then m'[i] else m[i]
  {
    var one := out[..1];
    assert Logged(one, i) <==> Covers(out[0], i) by {
      assert Covers(one[0], i) ==> Logged(one, i);
    }
  }

  // The operations with `Sync` as written

  lemma PostsOf(m: seq<Byte>, m': seq<Byte>, out: seq<Modification>, base: nat, n: nat)
    requires |m| == |m'| && n <= |out| && AllInImage(out, base, |m'|)
    ensures AllInImage(out[..n], base, |m'|)
    ensures exists r :: Settles(m, Posts(out[..n], m', base), r) && Patched(m, m', out[..n], r)
  {
    PrefixPatches(m, m', out, base, n);
    assert Settles(m, Posts(out[..n], m', base), Apply(m, Posts(out[..n], m', base)));
  }

  /** All backups hold `r`. */
  ghost predicate Hold(backups: seq<array<Byte>>, r: seq<Byte>)
    reads backups
  {
    forall k :: 0 <= k < |backups| ==> backups[k][..] == r
  }

  lemma SettleAll(images: seq<seq<Byte>>, queues: seq<seq<Posted>>, m: seq<Byte>, q: seq<Posted>, r: seq<Byte>)
    requires |images| == |queues| && Settles(m, q, r)
    requires forall k :: 0 <= k < |images| ==> images[k] == m && queues[k] == q
    ensures AllSettle(images, queues, seq(|images|, _ => r))
  {
    hide Settles;
  }

  /** `Sync` with the `break`: merge the log and post the first range to every backup. */
  method SyncAsWritten(alloc: Allocator, backups: seq<array<Byte>>)
    returns (ghost out: seq<Modification>, ghost r: seq<Byte>)
    requires alloc.Valid() && Serving.Distinct(backups, alloc.mem) && Hold(backups, alloc.before)
    modifies backups
    ensures Hold(backups, r)
    ensures alloc.log == [] ==> r == alloc.mem[..]
    ensures alloc.log != [] ==>
      Merged(alloc.log, out, alloc.base) && |out| > 0 && Patched(alloc.before, alloc.mem[..], out[..1], r)
  {
    LogFacts(alloc);
    ghost var base, before, m := alloc.base, alloc.before, alloc.mem[..];
    hide Merged, Sound, SitesOk, Accounts, Consistent, Mirrors, AllInImage, Settles, Posts, Patched, CanRun, Final;
    out, r := [], m;
    if |alloc.log| == 0 {
      UnloggedSame(before, m);
      return;
    }
    var ranges := MergeLog(alloc);
    out := ranges;
    PostsOf(before, m, ranges, base, 1);
    r :| Settles(before, Posts(out[..1], m, base), r) && Patched(before, m, out[..1], r);
    var queues := PostAll(alloc, ranges[..1], |backups|);
    SettleAll(ImagesOf(backups), queues, before, Posts(out[..1], m, base), r);
    ghost var steps := DeliverAll(queues, backups, seq(|backups|, _ => r), System(m, ImagesOf(backups), queues, true));
    HeldNow(backups, r);
  }

  lemma HeldNow(backups: seq<array<Byte>>, r: seq<Byte>)
    requires ImagesOf(backups) == seq(|backups|, _ => r)
    ensures Hold(backups, r)
  {
    forall k | 0 <= k < |backups| ensures backups[k][..] == r {
      assert ImagesOf(backups)[k] == r;
    }
  }

  /** A byte changed beyond the reach of the first range: the backup is out of date. */
  lemma ByteLost(alloc: Allocator, before: seq<Byte>, out: seq<Modification>, r: seq<Byte>, n: nat, x: nat)
    requires alloc.Valid() && alloc.before == before && alloc.trace.low < FIRST && |alloc.log| <= n <= 25
    requires Merged(alloc.log, out, alloc.base) && |out| > 0 && Patched(before, alloc.mem[..], out[..1], r)
    requires FirstEnd(n) <= x < alloc.mem.Length == |before| && before[x] != alloc.mem[x]
    ensures r != alloc.mem[..]
  {
    LogFacts(alloc);
    FirstEndsEarly(alloc.log, out, alloc.base, alloc.trace.low);
    hide Consistent, Mirrors, Accounts, Merged, Sound, SitesOk;
    assert forall k :: 0 <= k < |out[..1]| ==> !Covers(out[..1][k], x);
    assert r[x] == before[x];
  }

  lemma HeadStays(alloc: Allocator, before: seq<Byte>, out: seq<Modification>, r: seq<Byte>, n: nat, i: nat)
    requires alloc.Valid() && alloc.before == before && alloc.trace.low < FIRST && |alloc.log| <= n <= 25
    requires Merged(alloc.log, out, alloc.base) && |out| > 0 && Patched(before, alloc.mem[..], out[..1], r)
    requires |before| == IMAGE_SIZE && i < HASH_TABLE_SIZE && alloc.mem.Length == IMAGE_SIZE
    requires Word(before, SlotOffset(i)) != Word(alloc.mem[..], SlotOffset(i))
    ensures r != alloc.mem[..]
  {
    var x := WordsDiffer(before, alloc.mem[..], SlotOffset(i));
    hide Consistent, Mirrors, Accounts, Merged, Sound, SitesOk, Patched, Word;
    ByteLost(alloc, before, out, r, n, x);
  }

  // Records that do not arrive

  /** What the image says about a record. */
  lemma RecNow(tablet: Tablet, v: nat)
    requires tablet.Valid() && v in tablet.t.recs
    ensures var m, p, r := tablet.alloc.mem[..], NodePtr(v), tablet.t.recs[v];
      && |m| == IMAGE_SIZE && p + OBJECT + |r.key| + |r.val| <= K_SIZE
      && Word(m, p) == r.next && Number(m[p + 6..p + 8]) == |r.val|
      && m[p + OBJECT + |r.key|..p + OBJECT + |r.key| + |r.val|] == r.val
  {
    assert Holds(tablet.alloc.mem[..], tablet.alloc.blocks, tablet.t.heads, tablet.t.recs);
    FieldReads(tablet.alloc.mem[..], tablet.alloc.blocks, tablet.t.heads, tablet.t.recs, v);
  }

  lemma SeqsDiffer(a: seq<Byte>, b: seq<Byte>) returns (k: nat)
    requires |a| == |b| && a != b
    ensures k < |a| && a[k] != b[k]
  {
    k :| k < |a| && a[k] != b[k];
  }

  lemma SlicesDiffer(m: seq<Byte>, m': seq<Byte>, a: nat, b: nat) returns (x: nat)
    requires a <= b <= |m| == |m'| && m[a..b] != m'[a..b]
    ensures a <= x < b && m[x] != m'[x]
  {
    var k := SeqsDiffer(m[a..b], m'[a..b]);
    x := a + k;
  }

  /** The record at position `j` of bucket `i` has this key, and the one before it lies at `bound` or beyond. */
  ghost predicate FarBehind(t: HashChains.Table, i: nat, j: nat, key: seq<Byte>, bound: nat) {
    && i < |t.chains| && 0 < j < |t.chains[i]| && t.chains[i][j] in t.recs && t.recs[t.chains[i][j]].key == key
    && NodePtr(t.chains[i][j - 1]) >= bound
  }

  /** A key has one position in its bucket. */
  lemma OnePosition(t: HashChains.Table, i: nat, j: nat, j': nat, key: seq<Byte>)
    requires HashChains.TableOk(t) && i < HASH_TABLE_SIZE && j < |t.chains[i]| && j' < |t.chains[i]|
    requires t.chains[i][j] in t.recs && t.recs[t.chains[i][j]].key == key
    requires t.chains[i][j'] in t.recs && t.recs[t.chains[i][j']].key == key
    ensures j == j'
  {
    assert HashChains.ChainAt(t, i) && HashChains.LinkedAt(t, i, j) && HashChains.LinkedAt(t, i, j');
    HashChains.LookupHit(t, i, j, key);
    HashChains.LookupHit(t, i, j', key);
  }

  /** What a removal does to the link before the record. */
  lemma RemovedLink(t: HashChains.Table, t': HashChains.Table, i: nat, j: nat)
    requires RemovedAt(t, t', i, j) && j > 0
    ensures var v := t.chains[i][j - 1]; v in t.recs && v in t'.recs && t.recs[v].next != t'.recs[v].next
  {
    assert HashChains.ChainAt(t, i) && HashChains.LinkedAt(t, i, j) && HashChains.LinkedAt(t, i, j - 1);
  }

  /** What a replacement does: the record's new place, and the link before it. */
  lemma ReplacedLink(t: HashChains.Table, t': HashChains.Table, i: nat, j: nat, u: nat, hash: nat, key: seq<Byte>,
                     val: seq<Byte>)
    requires ReplacedBy(t, t', i, j, u, hash, key, val)
    ensures i < |t.chains| && i < |t.heads| == |t'.heads| && j < |t.chains[i]|
    ensures t.chains[i][j] in t.recs && t.recs[t.chains[i][j]].key == key
    ensures (i, key) in t.owner && t.owner[(i, key)] == t.chains[i][j]
    ensures (i, key) in HashChains.Contents(t) && HashChains.Contents(t)[(i, key)] == t.recs[t.chains[i][j]].val
    ensures (i, key) in t'.owner && t'.owner[(i, key)] == u
    ensures u in t'.recs && t'.recs[u].key == key && t'.recs[u].val == val
    ensures u != t.chains[i][j] && j == 0 ==> t.heads[i] != t'.heads[i]
    ensures u != t.chains[i][j] && j > 0 ==>
      var v := t.chains[i][j - 1]; v in t.recs && v in t'.recs && t.recs[v].next != t'.recs[v].next
  {
    assert HashChains.ChainAt(t, i) && HashChains.LinkedAt(t, i, j) && HashChains.RecAt(t, t.chains[i][j]);
    assert j > 0 ==> HashChains.LinkedAt(t, i, j - 1);
  }

  /** A link word differs between the two images. */
  lemma LinkDiffers(m: seq<Byte>, m': seq<Byte>, p: nat, a: nat, b: nat) returns (x: nat)
    requires |m| == |m'| && p + 4 <= |m| && Word(m, p) == a && Word(m', p) == b && a != b
    ensures p <= x < p + 4 && m[x] != m'[x]
  {
    x := WordsDiffer(m, m', p);
  }

  /** A record that keeps its place and key but not its value differs somewhere after its link. */
  lemma ValueDiffers(m: seq<Byte>, m': seq<Byte>, p: nat, k: nat, a: seq<Byte>, b: seq<Byte>) returns (x: nat)
    requires |m| == |m'| && p + OBJECT + k + |a| <= |m| && p + OBJECT + k + |b| <= |m| && a != b
    requires Number(m[p + 6..p + 8]) == |a| && m[p + OBJECT + k..p + OBJECT + k + |a|] == a
    requires Number(m'[p + 6..p + 8]) == |b| && m'[p + OBJECT + k..p + OBJECT + k + |b|] == b
    ensures p <= x < |m| && m[x] != m'[x]
  {
    if |a| != |b| {
      x := SlicesDiffer(m, m', p + 6, p + 8);
    } else {
      x := SlicesDiffer(m, m', p + OBJECT + k, p + OBJECT + k + |a|);
    }
  }

  lemma Changed(alloc: Allocator)
    requires alloc.Valid() && alloc.trace.low < FIRST
    ensures alloc.log != []
  {
  }

  /** The fields of every record, as an image shows them. */
  ghost predicate Shows(m: seq<Byte>, recs: map<nat, HashChains.Rec>) {
    forall v :: v in recs ==> ShowsAt(m, recs, v)
  }

  ghost predicate ShowsAt(m: seq<Byte>, recs: map<nat, HashChains.Rec>, v: nat)
    requires v in recs
  {
    var p, r := NodePtr(v), recs[v];
    && |m| == IMAGE_SIZE && p + OBJECT + |r.key| + |r.val| <= K_SIZE
    && Word(m, p) == r.next && Number(m[p + 6..p + 8]) == |r.val|
    && m[p + OBJECT + |r.key|..p + OBJECT + |r.key| + |r.val|] == r.val
  }

  lemma ShowsNow(tablet: Tablet)
    requires tablet.Valid()
    ensures Shows(tablet.alloc.mem[..], tablet.t.recs)
  {
    forall v | v in tablet.t.recs ensures ShowsAt(tablet.alloc.mem[..], tablet.t.recs, v) {
      RecNow(tablet, v);
    }
  }

  /**
   A replaced value is lost on the backups when its block moves and the link to it is the bucket head or lies
   beyond the first range, or when its block stays, lies beyond the first range, and the value differs.
   */
  ghost predicate Lost(t: HashChains.Table, t': HashChains.Table, i: nat, key: seq<Byte>, val: seq<Byte>) {
    && (i, key) in t.owner && (i, key) in t'.owner && (i, key) in HashChains.Contents(t)
    && var x, x' := t.owner[(i, key)], t'.owner[(i, key)];
    if x != x' then FirstIn(t, i, key) || exists j: nat :: FarBehind(t, i, j, key, FirstEnd(25))
    else NodePtr(x) >= FirstEnd(25) && HashChains.Contents(t)[(i, key)] != val
  }

  lemma InsertedHead(t: HashChains.Table, t': HashChains.Table, i: nat, log: seq<Modification>, trace: Trace, n: nat)
    requires Inserted(t, t', i, log, trace, n)
    ensures |t.heads| == |t'.heads| == HASH_TABLE_SIZE && i < HASH_TABLE_SIZE && t.heads[i] != t'.heads[i]
    ensures trace.low < FIRST && |log| <= 14 && DataLogged(log, n)
  {
  }

  lemma ValueByte(m: seq<Byte>, m': seq<Byte>, t: HashChains.Table, t': HashChains.Table, v: nat) returns (y: nat)
    requires |m| == |m'| == IMAGE_SIZE && Shows(m, t.recs) && Shows(m', t'.recs)
    requires v in t.recs && v in t'.recs && t.recs[v].key == t'.recs[v].key && t.recs[v].val != t'.recs[v].val
    ensures NodePtr(v) <= y < |m| && m[y] != m'[y]
  {
    assert ShowsAt(m, t.recs, v) && ShowsAt(m', t'.recs, v);
    y := ValueDiffers(m, m', NodePtr(v), |t.recs[v].key|, t.recs[v].val, t'.recs[v].val);
  }

  /** How a lost replacement shows: at the bucket head, in the link before the record, or in the record. */
  lemma LostWhere(t: HashChains.Table, t': HashChains.Table, i: nat, j: nat, u: nat, hash: nat, key: seq<Byte>,
                  val: seq<Byte>)
    requires ReplacedBy(t, t', i, j, u, hash, key, val) && Lost(t, t', i, key, val)
    ensures i < |t.chains| && i < |t.heads| == |t'.heads| && j < |t.chains[i]|
    ensures var x := t.chains[i][j];
      && (u != x && j == 0 ==> t.heads[i] != t'.heads[i])
      && (u != x && j > 0 ==>
            var v := t.chains[i][j - 1];
            NodePtr(v) >= FirstEnd(25) && v in t.recs && v in t'.recs && t.recs[v].next != t'.recs[v].next)
      && (u == x ==>
            && NodePtr(x) >= FirstEnd(25) && x in t.recs && x in t'.recs
            && t.recs[x].key == t'.recs[x].key && t.recs[x].val != t'.recs[x].val)
  {
    ReplacedLink(t, t', i, j, u, hash, key, val);
    assert HashChains.TableOk(t) && i < HASH_TABLE_SIZE;
    hide HashChains.TableOk, HashChains.Replace, HashChains.Contents, FirstEnd;
    if u != t.chains[i][j] && j > 0 {
      Position(t, i, j, key, FirstEnd(25));
    }
  }

  /** A byte that a lost replacement changed beyond the first range. */
  lemma ReplacedByte(m: seq<Byte>, m': seq<Byte>, t: HashChains.Table, t': HashChains.Table, hash: nat, key: seq<Byte>,
                     val: seq<Byte>) returns (y: nat)
    requires |m| == |m'| == IMAGE_SIZE && Shows(m, t.recs) && Shows(m', t'.recs)
    requires Replaced(t, t', hash, key, val) && Lost(t, t', HashChains.BucketOf(hash), key, val)
    requires HeadsDiffer(m, m', t, t', HashChains.BucketOf(hash))
    ensures FirstEnd(25) <= y < |m| && m[y] != m'[y]
  {
    hide Lost, ReplacedBy, Shows, HashChains.BucketOf, Word;
    var i := HashChains.BucketOf(hash);
    var j: nat, u: nat :| ReplacedBy(t, t', i, j, u, hash, key, val);
    LostWhere(t, t', i, j, u, hash, key, val);
    var x := t.chains[i][j];
    if u == x {
      y := ValueByte(m, m', t, t', x);
    } else if j == 0 {
      y := WordsDiffer(m, m', SlotOffset(i));
    } else {
      y := LinkByte(m, m', t, t', t.chains[i][j - 1]);
    }
  }

  /** The bucket head of each image, when the tables differ in it. */
  ghost predicate HeadsDiffer(m: seq<Byte>, m': seq<Byte>, t: HashChains.Table, t': HashChains.Table, i: nat)
    requires |m| == |m'| == IMAGE_SIZE && i < HASH_TABLE_SIZE
  {
    |t.heads| == |t'.heads| == HASH_TABLE_SIZE &&
    (t.heads[i] != t'.heads[i] ==> Word(m, SlotOffset(i)) != Word(m', SlotOffset(i)))
  }

  /** A byte of a link that changed. */
  lemma LinkByte(m: seq<Byte>, m': seq<Byte>, t: HashChains.Table, t': HashChains.Table, v: nat) returns (y: nat)
    requires |m| == |m'| == IMAGE_SIZE && Shows(m, t.recs) && Shows(m', t'.recs)
    requires v in t.recs && v in t'.recs && t.recs[v].next != t'.recs[v].next
    ensures NodePtr(v) <= y < |m| && m[y] != m'[y]
  {
    assert ShowsAt(m, t.recs, v) && ShowsAt(m', t'.recs, v);
    y := LinkDiffers(m, m', NodePtr(v), t.recs[v].next, t'.recs[v].next);
  }

  /** A later record is not first, so the one before it is the far one. */
  lemma Position(t: HashChains.Table, i: nat, j: nat, key: seq<Byte>, bound: nat)
    requires HashChains.TableOk(t) && i < HASH_TABLE_SIZE && 0 < j < |t.chains[i]|
    requires t.chains[i][j] in t.recs && t.recs[t.chains[i][j]].key == key
    requires FirstIn(t, i, key) || exists j': nat :: FarBehind(t, i, j', key, bound)
    ensures NodePtr(t.chains[i][j - 1]) >= bound
  {
    if FirstIn(t, i, key) {
      OnePosition(t, i, 0, j, key);
    } else {
      var j': nat :| FarBehind(t, i, j', key, bound);
      OnePosition(t, i, j', j, key);
    }
  }

  /** `Put`, with what it says about room. */
  method PutNow(tablet: Tablet, hash: nat, key: seq<Byte>, val: seq<Byte>) returns (status: Status)
    requires tablet.Valid() && Need(key, val) <= MAX_BLOCK && hash < 0x1_0000_0000_0000_0000
    modifies tablet, tablet.alloc, tablet.alloc.mem
    ensures status != ERROR
    ensures status == OK ==>
      && tablet.Valid() && tablet.alloc.before == old(tablet.alloc.mem[..])
      && HashChains.Contents(tablet.t) == HashChains.Contents(old(tablet.t))[(HashChains.BucketOf(hash), key) := val]
      && |tablet.alloc.log| <= 25 && |tablet.alloc.trace.spots| <= 16
    ensures status == OK && !InPlace(old(tablet.t), (HashChains.BucketOf(hash), key), val) ==>
      tablet.alloc.trace.low < FIRST
    ensures InPlace(old(tablet.t), (HashChains.BucketOf(hash), key), val) ==>
      && status == OK && (HashChains.BucketOf(hash), key) in old(tablet.t).owner
      && Shortened(old(tablet.alloc.mem[..]), tablet.alloc.mem[..], tablet.alloc.log, tablet.alloc.base,
                   NodePtr(old(tablet.t).owner[(HashChains.BucketOf(hash), key)]), |key|,
                   HashChains.Contents(old(tablet.t))[(HashChains.BucketOf(hash), key)], val)
    ensures status == OK && (HashChains.BucketOf(hash), key) !in HashChains.Contents(old(tablet.t)) ==>
      Inserted(old(tablet.t), tablet.t, HashChains.BucketOf(hash), tablet.alloc.log, tablet.alloc.trace, |key| + |val|)
    ensures status == OK && (HashChains.BucketOf(hash), key) in HashChains.Contents(old(tablet.t)) &&
            !InPlace(old(tablet.t), (HashChains.BucketOf(hash), key), val) ==>
      Replaced(old(tablet.t), tablet.t, hash, key, val)
    ensures status == Aborted <==> Refused(old(tablet.alloc.blocks), old(tablet.alloc.lists), old(tablet.t),
                                           Request.Put(hash, key, val))
    ensures old(tablet.alloc.ListsExact()) ==>
      (status == Aborted <==> Full(old(tablet.alloc.blocks), old(tablet.t), Request.Put(hash, key, val)))
  {
    hide HashChains.Contents, HashChains.BucketOf, HashChains.TableOk, Holds, Accounts, Consistent, Mirrors, NoRoom,
      NoHead, Available, AvailableLists, Shortened, Replaced, FreeLists.Exact, DataLogged;
    status := tablet.Put(hash, key, val);
  }

  /**
   As written, a new key never reaches the backups. A value overwritten in place does exactly when the key
   has at most 8 bytes or the new value is a prefix of the old one.
   */
  method PutAsWritten(tablet: Tablet, backups: seq<array<Byte>>, hash: nat, key: seq<Byte>, val: seq<Byte>)
    returns (status: Status, ghost r: seq<Byte>)
    requires tablet.Valid() && Serving.Distinct(backups, tablet.alloc.mem) && Hold(backups, tablet.alloc.mem[..])
    requires Need(key, val) <= MAX_BLOCK && hash < 0x1_0000_0000_0000_0000
    modifies tablet, tablet.alloc, tablet.alloc.mem, backups
    ensures status == OK ==>
      && tablet.Valid() && Hold(backups, r)
      && HashChains.Contents(tablet.t) == HashChains.Contents(old(tablet.t))[(HashChains.BucketOf(hash), key) := val]
    ensures status == OK && (HashChains.BucketOf(hash), key) !in HashChains.Contents(old(tablet.t)) ==>
      r != tablet.alloc.mem[..]
    ensures InPlace(old(tablet.t), (HashChains.BucketOf(hash), key), val) ==>
      && status == OK
      && (r == tablet.alloc.mem[..] <==>
            |key| <= 8 || val <= HashChains.Contents(old(tablet.t))[(HashChains.BucketOf(hash), key)])
    ensures status != ERROR
    ensures status == Aborted <==> Refused(old(tablet.alloc.blocks), old(tablet.alloc.lists), old(tablet.t),
                                           Request.Put(hash, key, val))
    ensures old(tablet.alloc.ListsExact()) ==>
      (status == Aborted <==> Full(old(tablet.alloc.blocks), old(tablet.t), Request.Put(hash, key, val)))
    ensures status == OK && !InPlace(old(tablet.t), (HashChains.BucketOf(hash), key), val) &&
            (HashChains.BucketOf(hash), key) in HashChains.Contents(old(tablet.t)) &&
            Lost(old(tablet.t), tablet.t, HashChains.BucketOf(hash), key, val) ==>
      r != tablet.alloc.mem[..]
  {
    hide Merged, Sound, SitesOk, Accounts, Consistent, Mirrors, Patched, HashChains.Contents, HashChains.TableOk, Holds,
      HashChains.BucketOf, Shortened, InPlace, Replaced, Lost, Inserted, Shows, FirstEnd, Refused, Full,
      FreeLists.Exact;
    ghost var i, m, t0 := HashChains.BucketOf(hash), tablet.alloc.mem[..], tablet.t;
    HeadNow(tablet, i);
    ShowsNow(tablet);
    status := PutNow(tablet, hash, key, val);
    r := [];
    if status != OK {
      return;
    }
    ghost var out;
    out, r := SyncAsWritten(tablet.alloc, backups);
    HeadNow(tablet, i);
    if (i, key) !in HashChains.Contents(t0) {
      InsertedHead(t0, tablet.t, i, tablet.alloc.log, tablet.alloc.trace, |key| + |val|);
      Changed(tablet.alloc);
      HeadStays(tablet.alloc, m, out, r, 14, i);
    } else if !InPlace(t0, (i, key), val) && Lost(t0, tablet.t, i, key, val) {
      Changed(tablet.alloc);
      ShowsNow(tablet);
      ghost var y := ReplacedByte(m, tablet.alloc.mem[..], t0, tablet.t, hash, key, val);
      ByteLost(tablet.alloc, m, out, r, 25, y);
    }
    if InPlace(t0, (i, key), val) {
      PlaceFacts(t0, (i, key), val);
      ghost var p, prior := NodePtr(t0.owner[(i, key)]), HashChains.Contents(t0)[(i, key)];
      ShortNotEmpty(m, tablet.alloc.mem[..], tablet.alloc.log, tablet.alloc.base, p, |key|, prior, val);
      ShortPatched(m, tablet.alloc.mem[..], tablet.alloc.log, out, tablet.alloc.base, p, key, prior, val, r);
    }
  }

  lemma PlaceFacts(t: HashChains.Table, k: HashChains.Key, val: seq<Byte>)
    requires InPlace(t, k, val)
    ensures k in HashChains.Contents(t) && k in t.owner
  {
  }

  lemma ShortNotEmpty(m: seq<Byte>, m': seq<Byte>, log: seq<Modification>, base: nat, p: nat, keyLen: nat,
                      prior: seq<Byte>, val: seq<Byte>)
    requires Shortened(m, m', log, base, p, keyLen, prior, val)
    ensures log != []
  {
  }

  /** As written, `Add` of a new key never reaches the backups; a refused `Add` leaves them up to date. */
  method AddAsWritten(tablet: Tablet, backups: seq<array<Byte>>, hash: nat, key: seq<Byte>, val: seq<Byte>)
    returns (status: Status, ghost r: seq<Byte>)
    requires tablet.Valid() && Serving.Distinct(backups, tablet.alloc.mem) && Hold(backups, tablet.alloc.mem[..])
    requires Need(key, val) <= MAX_BLOCK && hash < 0x1_0000_0000_0000_0000
    modifies tablet, tablet.alloc, tablet.alloc.mem, backups
    ensures status != Aborted ==> Hold(backups, r) && (r == tablet.alloc.mem[..] <==> status == ERROR)
    ensures status == ERROR <==> (HashChains.BucketOf(hash), key) in HashChains.Contents(old(tablet.t))
    ensures status != ERROR ==>
      (status == Aborted <==> NoHead(old(tablet.alloc.blocks), old(tablet.alloc.lists), Need(key, val)))
    ensures status != ERROR && old(tablet.alloc.ListsExact()) ==>
      (status == Aborted <==> NoRoom(old(tablet.alloc.blocks), Need(key, val)))
  {
    hide Merged, Sound, SitesOk, Accounts, Consistent, Mirrors, Patched, HashChains.Contents, HashChains.TableOk, Holds,
      HashChains.BucketOf, NoRoom, NoHead, FreeLists.Exact;
    ghost var i, m := HashChains.BucketOf(hash), tablet.alloc.mem[..];
    HeadNow(tablet, i);
    status := tablet.Add(hash, key, val);
    r := [];
    if status == Aborted {
      return;
    }
    ghost var out;
    out, r := SyncAsWritten(tablet.alloc, backups);
    HeadNow(tablet, i);
    if status == OK {
      Changed(tablet.alloc);
      HeadStays(tablet.alloc, m, out, r, 14, i);
    }
  }

  /**
   As written, deleting the first record of a bucket never reaches the backups; a failed `Del` leaves them up to
   date.
   */
  method DelAsWritten(tablet: Tablet, backups: seq<array<Byte>>, hash: nat, key: seq<Byte>)
    returns (status: Status, ghost r: seq<Byte>)
    requires tablet.Valid() && Serving.Distinct(backups, tablet.alloc.mem) && Hold(backups, tablet.alloc.mem[..])
    modifies tablet, tablet.alloc, tablet.alloc.mem, backups
    ensures Hold(backups, r)
    ensures status == if (HashChains.BucketOf(hash), key) in HashChains.Contents(old(tablet.t)) then OK else ERROR
    ensures status == ERROR ==> r == tablet.alloc.mem[..]
    ensures status == OK && FirstIn(old(tablet.t), HashChains.BucketOf(hash), key) ==> r != tablet.alloc.mem[..]
    ensures forall j: nat ::
      status == OK && FarBehind(old(tablet.t), HashChains.BucketOf(hash), j, key, FirstEnd(12)) ==>
        r != tablet.alloc.mem[..]
  {
    hide Merged, Sound, SitesOk, Accounts, Consistent, Mirrors, Patched, HashChains.Contents, HashChains.TableOk, Holds,
      HashChains.BucketOf, FirstIn, Removed, FarBehind, FirstEnd, Shows;
    ghost var i, m, t0 := HashChains.BucketOf(hash), tablet.alloc.mem[..], tablet.t;
    HeadNow(tablet, i);
    ShowsNow(tablet);
    status := tablet.Del(hash, key);
    ghost var out;
    out, r := SyncAsWritten(tablet.alloc, backups);
    HeadNow(tablet, i);
    if status == OK {
      Changed(tablet.alloc);
      if FirstIn(t0, i, key) {
        HeadStays(tablet.alloc, m, out, r, 12, i);
      }
      ShowsNow(tablet);
      forall j: nat | FarBehind(t0, i, j, key, FirstEnd(12)) ensures r != tablet.alloc.mem[..] {
        var y := RemovedByte(m, tablet.alloc.mem[..], t0, tablet.t, i, j, key, FirstEnd(12));
        ByteLost(tablet.alloc, m, out, r, 12, y);
      }
    }
  }

  /** A byte that a removal changed beyond the first range. */
  lemma RemovedByte(m: seq<Byte>, m': seq<Byte>, t: HashChains.Table, t': HashChains.Table, i: nat, j: nat,
                    key: seq<Byte>, bound: nat) returns (y: nat)
    requires |m| == |m'| == IMAGE_SIZE && Shows(m, t.recs) && Shows(m', t'.recs)
    requires Removed(t, t', i, key) && FarBehind(t, i, j, key, bound)
    ensures bound <= y < |m| && m[y] != m'[y]
  {
    var k: nat :| RemovedAt(t, t', i, k) && t.recs[t.chains[i][k]].key == key;
    OnePosition(t, i, j, k, key);
    RemovedLink(t, t', i, j);
    hide HashChains.TableOk, HashChains.Remove;
    y := LinkByte(m, m', t, t', t.chains[i][j - 1]);
  }

  /** A `Get` changes nothing, so there is nothing to lose. */
  method GetAsWritten(tablet: Tablet, backups: seq<array<Byte>>, hash: nat, key: seq<Byte>)
    returns (status: Status, val: seq<Byte>, ghost r: seq<Byte>)
    requires tablet.Valid() && Serving.Distinct(backups, tablet.alloc.mem) && Hold(backups, tablet.alloc.mem[..])
    modifies tablet.alloc`log, tablet.alloc`trace, tablet.alloc`before, backups
    ensures Hold(backups, r) && r == tablet.alloc.mem[..] == old(tablet.alloc.mem[..])
    ensures status == (if (HashChains.BucketOf(hash), key) in HashChains.Contents(tablet.t) then OK else ERROR)
  {
    hide Merged, Accounts, Consistent, Mirrors, Patched, HashChains.Contents, HashChains.TableOk, Holds,
      HashChains.BucketOf;
    tablet.Begin();
    status, val := tablet.Get(hash, key);
    ghost var out;
    out, r := SyncAsWritten(tablet.alloc, backups);
  }

  lemma RoomAtStart()
    ensures !Full(NEW_BLOCKS, EmptyTable(), Request.Put(0, [1], [2])) && Need([1], [2]) <= MAX_BLOCK
    ensures (0, [1]) !in HashChains.Contents(EmptyTable()) && HashChains.BucketOf(0) == 0
    ensures !InPlace(EmptyTable(), (0, [1]), [2])
  {
    assert 0 in NEW_BLOCKS && NEW_BLOCKS[0] == Block(UNITS, true);
  }

  /**
   A run with the null next unguarded: a new tablet with one equal backup, and one `Put`, which is answered with OK
   and lost on the backup.
   */
  method BreakLosesUpdate() returns (tablet: Tablet, backup: array<Byte>)
    ensures tablet.Valid() && backup[..] != tablet.alloc.mem[..]
    ensures HashChains.Contents(tablet.t) == map[(0, [1]) := [2]]
  {
    hide Zeroed, Accounts, Mirrors, Consistent, HashChains.TableOk, Holds, HashChains.Contents, Full, Refused, Need,
      EmptyTable, InPlace, HashChains.BucketOf, FreeLists.Exact;
    var image := new Byte[IMAGE_SIZE](_ => 0);
    backup := new Byte[IMAGE_SIZE](_ => 0);
    AllZero(image);
    AllZero(backup);
    ghost var zeros := image[..];
    tablet := new Tablet(image, 0, Build(false, true));
    StillZeroed(zeros, image[..]);
    FormatBackup(backup, 0, Build(false, true), tablet);
    RoomAtStart();
    ghost var r;
    var status;
    status, r := PutAsWritten(tablet, [backup], 0, [1], [2]);
    assert [backup][0] == backup;
  }

  lemma AllZero(a: array<Byte>)
    requires a.Length == IMAGE_SIZE && forall i :: 0 <= i < IMAGE_SIZE ==> a[i] == 0
    ensures Zeroed(a[..])
  {
  }

  // Inline data: the adapter refuses a range longer than it can take

  /** The ranges that the adapter accepts before it refuses one. */
  function Accepted(rs: seq<Modification>, limit: nat): (n: nat)
    ensures n <= |rs| && (forall k :: 0 <= k < n ==> rs[k].len <= limit) && (n < |rs| ==> rs[n].len > limit)
  {
    if rs == [] || rs[0].len > limit then 0 else 1 + Accepted(rs[1..], limit)
  }

  /** The ranges that get as far as backup `k`: after a refusal the other backups are not posted to at all. */
  function Posted(rs: seq<Modification>, limit: nat, k: nat): nat {
    if k == 0 || Accepted(rs, limit) == |rs| then Accepted(rs, limit) else 0
  }

  /** The post for each backup, up to the refusal that ends `Sync`. */
  method PostInline(alloc: Allocator, ranges: seq<Modification>, count: nat, limit: nat)
    returns (ok: bool, queues: seq<seq<Replication.Posted>>)
    requires |ranges| <= NUM_SCATTERS && AllInImage(ranges, alloc.base, alloc.mem.Length)
    ensures |queues| == count && (ok <==> count == 0 || Accepted(ranges, limit) == |ranges|)
    ensures forall k :: 0 <= k < count ==>
      && AllInImage(ranges[..Posted(ranges, limit, k)], alloc.base, alloc.mem.Length)
      && queues[k] == Posts(ranges[..Posted(ranges, limit, k)], alloc.mem[..], alloc.base)
  {
    hide Posts;
    queues, ok := [], true;
    var n := Accepted(ranges, limit);
    for k := 0 to count
      invariant |queues| == k && (ok <==> k == 0 || n == |ranges|)
      invariant forall j :: 0 <= j < k ==>
        && AllInImage(ranges[..Posted(ranges, limit, j)], alloc.base, alloc.mem.Length)
        && queues[j] == Posts(ranges[..Posted(ranges, limit, j)], alloc.mem[..], alloc.base)
    {
      var q := PostRanges(ranges[..if ok then n else 0], alloc.mem[..], alloc.base);
      queues, ok := queues + [q], ok && n == |ranges|;
    }
  }

  ghost predicate PatchedAt(before: seq<Byte>, m: seq<Byte>, out: seq<Modification>, limit: nat, k: nat, r: seq<Byte>) {
    Patched(before, m, out[..Posted(out, limit, k)], r)
  }

  /** The images that the backups are left with. */
  lemma PatchAll(before: seq<Byte>, m: seq<Byte>, out: seq<Modification>, base: nat, limit: nat, n: nat)
    returns (rs: seq<seq<Byte>>)
    requires |before| == |m| && AllInImage(out, base, |m|)
    ensures |rs| == n
    ensures forall k :: 0 <= k < n ==>
      && AllInImage(out[..Posted(out, limit, k)], base, |m|)
      && Settles(before, Posts(out[..Posted(out, limit, k)], m, base), rs[k]) &&
        PatchedAt(before, m, out, limit, k, rs[k])
  {
    rs := [];
    for k := 0 to n
      invariant |rs| == k && forall j :: 0 <= j < k ==>
        && AllInImage(out[..Posted(out, limit, j)], base, |m|)
        && Settles(before, Posts(out[..Posted(out, limit, j)], m, base), rs[j]) &&
          PatchedAt(before, m, out, limit, j, rs[j])
    {
      PostsOf(before, m, out, base, Posted(out, limit, k));
      var r :| Settles(before, Posts(out[..Posted(out, limit, k)], m, base), r)
        && Patched(before, m, out[..Posted(out, limit, k)], r);
      rs := rs + [r];
    }
  }

  /**
   `Sync` when the adapter takes at most `limit` bytes of inline data: it fails exactly when some range is
   longer, and then the first backup gets the ranges before that one and the others nothing.
   */
  method SyncInline(alloc: Allocator, backups: seq<array<Byte>>, limit: nat)
    returns (ok: bool, ghost out: seq<Modification>, ghost rs: seq<seq<Byte>>)
    requires alloc.Valid() && |alloc.trace.spots| <= NUM_SCATTERS && alloc.log != []
    requires Serving.Distinct(backups, alloc.mem) && Hold(backups, alloc.before)
    modifies backups
    ensures Merged(alloc.log, out, alloc.base) && ImagesOf(backups) == rs
    ensures ok <==> |backups| == 0 || forall x :: 0 <= x < |out| ==> out[x].len <= limit
    ensures ok ==> Hold(backups, alloc.mem[..])
    ensures forall k :: 0 <= k < |backups| ==> PatchedAt(alloc.before, alloc.mem[..], out, limit, k, rs[k])
  {
    LogFacts(alloc);
    ghost var base, before, m := alloc.base, alloc.before, alloc.mem[..];
    hide Merged, Sound, SitesOk, Accounts, Consistent, Mirrors, Settles, Posts, PatchedAt, CanRun, Final, AllInImage;
    var ranges := MergeLog(alloc);
    out := ranges;
    rs := PatchAll(before, m, ranges, base, limit, |backups|);
    var queues;
    ok, queues := PostInline(alloc, ranges, |backups|, limit);
    ghost var steps := DeliverAll(queues, backups, rs, System(m, ImagesOf(backups), queues, true));
    if ok {
      forall k | 0 <= k < |backups| ensures backups[k][..] == m {
        assert ImagesOf(backups)[k] == rs[k] && ranges[..|ranges|] == ranges;
        SettlesOnce(before, Posts(ranges, m, base), m, rs[k]);
      }
    }
  }

  lemma SettlesOnce(m: seq<Byte>, q: seq<Replication.Posted>, a: seq<Byte>, b: seq<Byte>)
    requires Settles(m, q, a) && Settles(m, q, b)
    ensures a == b
  {
  }

  /** A new record is longer than the adapter takes: the ranges before it end inside the arena. */
  lemma RefusedBefore(log: seq<Modification>, out: seq<Modification>, base: nat, limit: nat, n: nat, k: nat)
    requires Merged(log, out, base) && DataLogged(log, n) && OBJECT + n > limit
    ensures Accepted(out, limit) < |out|
    ensures forall z :: 0 <= z < Posted(out, limit, k) ==> EndOf(out[z]) <= K_SIZE
  {
    var x: nat :| x < |log| - 1 && DataLoggedAt(log, x, n);
    assert ContainedAt(log[x], out) && ContainedAt(log[x + 1], out);
    var y: nat :| y < |out| && Inside(log[x], out[y]);
    var y': nat :| y' < |out| && Inside(log[x + 1], out[y']);
    InSameRange(out, y, y', log[x], log[x + 1]);
    assert out[y].len > limit;
    forall z: nat | z < Posted(out, limit, k) ensures EndOf(out[z]) <= K_SIZE {
      Apart(out, z, y);
    }
  }

  /**
   `Put` when the adapter takes at most `limit` bytes inline. A new key whose record is longer is refused and
   reaches no backup; a value overwritten in place is refused exactly when its range, or one of its two, is
   longer. If nothing is refused, the backups are up to date.
   */
  method PutInline(tablet: Tablet, backups: seq<array<Byte>>, hash: nat, key: seq<Byte>, val: seq<Byte>, limit: nat)
    returns (status: Status, ok: bool)
    requires tablet.Valid() && Serving.Distinct(backups, tablet.alloc.mem) && Hold(backups, tablet.alloc.mem[..])
    requires Need(key, val) <= MAX_BLOCK && hash < 0x1_0000_0000_0000_0000
    modifies tablet, tablet.alloc, tablet.alloc.mem, backups
    ensures status != ERROR && (status == OK && ok ==> Hold(backups, tablet.alloc.mem[..]))
    ensures status == Aborted <==> Refused(old(tablet.alloc.blocks), old(tablet.alloc.lists), old(tablet.t),
                                           Request.Put(hash, key, val))
    ensures status == OK && (HashChains.BucketOf(hash), key) !in HashChains.Contents(old(tablet.t)) &&
            OBJECT + |key| + |val| > limit ==>
      (ok <==> |backups| == 0) && forall k :: 0 <= k < |backups| ==> backups[k][..] != tablet.alloc.mem[..]
    ensures InPlace(old(tablet.t), (HashChains.BucketOf(hash), key), val) ==>
      && status == OK
      && (ok <==> |backups| == 0 ||
                  if |key| <= 8 then 10 + |key| + |val| <= limit else 2 <= limit && |val| <= limit)
  {
    hide Merged, Sound, SitesOk, Accounts, Consistent, Mirrors, HashChains.Contents, HashChains.TableOk, Holds,
      HashChains.BucketOf, Shortened, InPlace, PatchedAt, DataLogged, Inserted, Replaced, Refused, Full,
      FreeLists.Exact;
    ghost var i, m, t0 := HashChains.BucketOf(hash), tablet.alloc.mem[..], tablet.t;
    HeadNow(tablet, i);
    status := PutNow(tablet, hash, key, val);
    ok := false;
    if status != OK {
      return;
    }
    ghost var p, prior := 0, [];
    if InPlace(t0, (i, key), val) {
      PlaceFacts(t0, (i, key), val);
      p, prior := NodePtr(t0.owner[(i, key)]), HashChains.Contents(t0)[(i, key)];
      ShortNotEmpty(m, tablet.alloc.mem[..], tablet.alloc.log, tablet.alloc.base, p, |key|, prior, val);
    } else {
      if (i, key) !in HashChains.Contents(t0) {
        InsertedHead(t0, tablet.t, i, tablet.alloc.log, tablet.alloc.trace, |key| + |val|);
      }
      Changed(tablet.alloc);
    }
    ghost var out, rs;
    ok, out, rs := SyncInline(tablet.alloc, backups, limit);
    HeadNow(tablet, i);
    if InPlace(t0, (i, key), val) {
      ShortAccepted(m, tablet.alloc.mem[..], tablet.alloc.log, out, tablet.alloc.base, p, key, prior, val, limit);
    } else if (i, key) !in HashChains.Contents(t0) && OBJECT + |key| + |val| > limit {
      RefusedBefore(tablet.alloc.log, out, tablet.alloc.base, limit, |key| + |val|, 0);
      forall k | 0 <= k < |backups| ensures backups[k][..] != tablet.alloc.mem[..] {
        RefusedBefore(tablet.alloc.log, out, tablet.alloc.base, limit, |key| + |val|, k);
        PatchedFacts(m, tablet.alloc.mem[..], out, limit, k, rs[k]);
        HeadLost(m, tablet.alloc.mem[..], out[..Posted(out, limit, k)], rs[k], i);
        assert ImagesOf(backups)[k] == rs[k];
      }
    }
  }

  lemma ShortAccepted(m: seq<Byte>, m': seq<Byte>, log: seq<Modification>, out: seq<Modification>, base: nat, p: nat,
                      key: seq<Byte>, prior: seq<Byte>, val: seq<Byte>, limit: nat)
    requires Shortened(m, m', log, base, p, |key|, prior, val) && Merged(log, out, base)
    ensures (forall x :: 0 <= x < |out| ==> out[x].len <= limit) <==>
      if |key| <= 8 then 10 + |key| + |val| <= limit else 2 <= limit && |val| <= limit
  {
    hide Merged;
    ShortLengths(log, out, base, p, |key|, |val|, limit);
  }

  lemma PatchedFacts(m: seq<Byte>, m': seq<Byte>, out: seq<Modification>, limit: nat, k: nat, r: seq<Byte>)
    requires PatchedAt(m, m', out, limit, k, r)
    ensures Patched(m, m', out[..Posted(out, limit, k)], r)
  {
  }
}
