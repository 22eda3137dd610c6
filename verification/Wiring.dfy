/**
 What a filled index gives the cluster: masters and backups that name each other, and queue pairs
 connected one to one.
 */
module Wiring {
  import opened Arithmetic
  import opened Placement

  /** All tablets of all servers are filed. */
  ghost predicate Complete(c: Config, x: Index, qs: seq<seq<Qp>>) {
    FiledUpTo(c, x, qs, c.n, 0, 0)
  }

  lemma FiledOne(c: Config, x: Index, qs: seq<seq<Qp>>, i: nat, j: nat, k: nat)
    requires Complete(c, x, qs) && InRange(c, i, j, k)
    ensures Shaped(c, x) && c.r < c.n && i < |qs| && Filed(c, x, i, j, k, qs[i])
  {
    assert FiledFor(c, x, qs, i, j, k);
  }

  /** The `r`-th backup of a master sits `r + 1` servers further on. */
  lemma BackupOf(c: Config, x: Index, qs: seq<seq<Qp>>, m: nat, k: nat, r: nat)
    requires Complete(c, x, qs) && m < c.n && k < c.t && r < c.r
    ensures c.Id(m, 0, k) < |x.tablets| && r < |x.tablets[c.Id(m, 0, k)].link|
    ensures x.tablets[c.Id(m, 0, k)].link[r] == c.Id(HolderOf(c, m, r + 1), r + 1, k)
  {
    var i := HolderOf(c, m, r + 1);
    HolderInverse(c, i, r + 1, m);
    FiledOne(c, x, qs, i, r + 1, k);
    Bounds(c, m, 0, k);
  }

  ghost predicate MasterAt(c: Config, x: Index, id: nat, r: nat)
    requires id < |x.tablets| && r < |x.tablets[id].link|
  {
    var b := x.tablets[id].link[r];
    && b < |x.tablets| && x.tablets[b].isBackup && |x.tablets[b].link| > 0 && x.tablets[b].link[0] == id
    && x.tablets[b].server != x.tablets[id].server
  }

  /** Each backup named by a master names that master and is elsewhere. */
  lemma BackupsNameMaster(c: Config, x: Index, qs: seq<seq<Qp>>, id: nat, r: nat)
    requires Complete(c, x, qs) && id < |x.tablets| && !x.tablets[id].isBackup && r < c.r
    ensures r < |x.tablets[id].link| && MasterAt(c, x, id, r)
  {
    var i, j, k := IdSurjective(c, id);
    FiledOne(c, x, qs, i, j, k);
    BackupOf(c, x, qs, i, k, r);
    var h := HolderOf(c, i, r + 1);
    HolderInverse(c, h, r + 1, i);
    FiledOne(c, x, qs, h, r + 1, k);
    Bounds(c, h, r + 1, k);
  }

  /** No two replicas of a tablet share a server; in particular its backups are all different. */
  lemma BackupsApart(c: Config, x: Index, qs: seq<seq<Qp>>, id: nat, r: nat, r': nat)
    requires Complete(c, x, qs) && id < |x.tablets| && !x.tablets[id].isBackup && r < r' < c.r
    ensures r' < |x.tablets[id].link| && MasterAt(c, x, id, r) && MasterAt(c, x, id, r')
    ensures x.tablets[id].link[r] != x.tablets[id].link[r']
    ensures x.tablets[x.tablets[id].link[r]].server != x.tablets[x.tablets[id].link[r']].server
  {
    BackupsNameMaster(c, x, qs, id, r);
    BackupsNameMaster(c, x, qs, id, r');
    var i, j, k := IdSurjective(c, id);
    FiledOne(c, x, qs, i, j, k);
    BackupOf(c, x, qs, i, k, r);
    BackupOf(c, x, qs, i, k, r');
    FiledOne(c, x, qs, HolderOf(c, i, r + 1), r + 1, k);
    FiledOne(c, x, qs, HolderOf(c, i, r' + 1), r' + 1, k);
  }

  /** The master that a backup names is a master and names it back, exactly once. */
  lemma MasterNamesBackup(c: Config, x: Index, qs: seq<seq<Qp>>, id: nat) returns (r: nat)
    requires Complete(c, x, qs) && id < |x.tablets| && x.tablets[id].isBackup
    ensures |x.tablets[id].link| > 0 && x.tablets[id].link[0] < |x.tablets|
    ensures var m := x.tablets[id].link[0];
      && !x.tablets[m].isBackup && r < c.r <= |x.tablets[m].link|
      && (forall y :: 0 <= y < c.r ==> (x.tablets[m].link[y] == id <==> y == r))
  {
    var i, j, k := IdSurjective(c, id);
    FiledOne(c, x, qs, i, j, k);
    Bounds(c, i, j, k);
    r := j - 1;
    var s := c.MasterOf(i, j);
    FiledOne(c, x, qs, s, 0, k);
    var m := c.Id(s, 0, k);
    forall y | 0 <= y < c.r && y != r ensures x.tablets[m].link[y] != id {
      BackupsApart(c, x, qs, m, if y < r then y else r, if y < r then r else y);
    }
  }

  // Routing tables

  /** Every slot of the key map leads to a master: slot `i * t + k` to master `k` of server `i`. */
  lemma KeyMapMasters(c: Config, x: Index, qs: seq<seq<Qp>>, s: nat) returns (i: nat, k: nat)
    requires Complete(c, x, qs) && s < c.n * c.t
    ensures s < |x.keyMap| && i < c.n && k < c.t && s == i * c.t + k
    ensures x.keyMap[s] == c.Id(i, 0, k) < |x.tablets|
    ensures !x.tablets[x.keyMap[s]].isBackup && x.tablets[x.keyMap[s]].server == i
  {
    i, k := SlotDigits(c, s);
    FiledOne(c, x, qs, i, 0, k);
    Bounds(c, i, 0, k);
  }

  lemma SlotDigits(c: Config, s: nat) returns (i: nat, k: nat)
    requires s < c.n * c.t
    ensures i < c.n && k < c.t && s == i * c.t + k
    ensures c.Id(0, i, k) == s
  {
    i, k := Divide(s, c.n, c.t);
  }

  // Queue pairs

  /** A queue pair: which tablet it belongs to, and its number there. */
  datatype Pair = Pair(tablet: nat, number: nat)

  /** The pairs that are connected: all of a master's, and the first of a backup's. */
  ghost predicate Used(c: Config, x: Index, p: Pair) {
    p.tablet < |x.tablets| && p.number < (if x.tablets[p.tablet].isBackup then 1 else c.r)
  }

  /** `p` is set up to talk to `q`. */
  ghost predicate Connected(c: Config, x: Index, p: Pair, q: Pair) {
    && Used(c, x, p) && q.tablet < |x.tablets|
    && var tb := x.tablets[p.tablet];
    if tb.isBackup then
      && |tb.link| > 0 && q.tablet == tb.link[0] && q.number < c.r <= |x.tablets[q.tablet].link|
      && (forall y :: 0 <= y <= q.number ==> (x.tablets[q.tablet].link[y] == p.tablet <==> y == q.number))
    else
      p.number < |tb.link| && q == Pair(tb.link[p.number], 0)
  }

  lemma MatchBackup(c: Config, x: Index, qs: seq<seq<Qp>>, p: Pair) returns (q: Pair)
    requires Complete(c, x, qs) && Used(c, x, p) && x.tablets[p.tablet].isBackup
    ensures q.tablet != p.tablet && Connected(c, x, p, q) && Connected(c, x, q, p)
    ensures forall q' :: Connected(c, x, p, q') ==> q' == q
  {
    hide Complete;
    var r := MasterNamesBackup(c, x, qs, p.tablet);
    q := Pair(x.tablets[p.tablet].link[0], r);
    forall q' | Connected(c, x, p, q') ensures q' == q {
      assert x.tablets[q.tablet].link[q'.number] == p.tablet;
    }
  }

  lemma ConnectedBack(c: Config, x: Index, p: Pair, q: Pair, r: nat)
    requires Used(c, x, p) && !x.tablets[p.tablet].isBackup && p.number < |x.tablets[p.tablet].link|
    requires q == Pair(x.tablets[p.tablet].link[p.number], 0) && MasterAt(c, x, p.tablet, p.number)
    requires r < c.r <= |x.tablets[p.tablet].link|
    requires forall y :: 0 <= y < c.r ==> (x.tablets[p.tablet].link[y] == q.tablet <==> y == r)
    ensures Connected(c, x, q, p)
  {
    assert x.tablets[p.tablet].link[p.number] == q.tablet;
  }

  lemma MatchMaster(c: Config, x: Index, qs: seq<seq<Qp>>, p: Pair) returns (q: Pair)
    requires Complete(c, x, qs) && Used(c, x, p) && !x.tablets[p.tablet].isBackup
    ensures q.tablet != p.tablet && Connected(c, x, p, q) && Connected(c, x, q, p)
    ensures forall q' :: Connected(c, x, p, q') ==> q' == q
  {
    hide Complete;
    BackupsNameMaster(c, x, qs, p.tablet, p.number);
    q := Pair(x.tablets[p.tablet].link[p.number], 0);
    var r := MasterNamesBackup(c, x, qs, q.tablet);
    ConnectedBack(c, x, p, q, r);
  }

  /** Each used pair is connected to exactly one pair, of another tablet, which is connected back to it. */
  lemma PerfectMatching(c: Config, x: Index, qs: seq<seq<Qp>>, p: Pair) returns (q: Pair)
    requires Complete(c, x, qs) && Used(c, x, p)
    ensures q.tablet != p.tablet && Connected(c, x, p, q) && Connected(c, x, q, p)
    ensures forall q' :: Connected(c, x, p, q') ==> q' == q
  {
    hide Complete, Connected;
    if x.tablets[p.tablet].isBackup {
      q := MatchBackup(c, x, qs, p);
    } else {
      q := MatchMaster(c, x, qs, p);
    }
  }

  /** `SettingupQPConnect`: the remote ends of a tablet's queue pairs. */
  method SettingupQPConnect(c: Config, x: Index, id: nat, ghost qs: seq<seq<Qp>>) returns (peers: seq<Qp>)
    requires Complete(c, x, qs) && id < |x.tablets|
    ensures |peers| == if x.tablets[id].isBackup then 1 else c.r
    ensures forall y, q :: 0 <= y < |peers| && Connected(c, x, Pair(id, y), q) ==>
      q.number < |x.tablets[q.tablet].qpis| && peers[y] == x.tablets[q.tablet].qpis[q.number]
  {
    QpisShape(c, x, qs);
    var info := x.tablets[id];
    if info.isBackup {
      ghost var r := MasterNamesBackup(c, x, qs, id);
      hide Complete;
      var master := x.tablets[info.link[0]];
      var i := 0;
      while master.link[i] != id
        invariant i <= r
        decreases r - i
      {
        assert i < c.r - 1;
        i := i + 1;
      }
      peers := [master.qpis[i]];
      forall q | Connected(c, x, Pair(id, 0), q) ensures q == Pair(info.link[0], i) {
        assert master.link[q.number] == id;
      }
    } else {
      peers := [];
      hide Complete;
      for i := 0 to c.r
        invariant |peers| == i
        invariant forall y, q :: 0 <= y < i && Connected(c, x, Pair(id, y), q) ==>
          q.number < |x.tablets[q.tablet].qpis| && peers[y] == x.tablets[q.tablet].qpis[q.number]
      {
        BackupsNameMaster(c, x, qs, id, i);
        peers := peers + [x.tablets[info.link[i]].qpis[0]];
      }
    }
  }

  lemma SliceLength(c: Config, qpis: seq<Qp>, y: nat)
    requires |qpis| == c.Per() * c.r && y < c.Per()
    ensures |Slice(c, qpis, y)| == c.r
  {
    Product(y + 1, c.Per(), c.r);
  }

  lemma QpisAt(c: Config, x: Index, qs: seq<seq<Qp>>, id: nat)
    requires Complete(c, x, qs) && id < |x.tablets|
    ensures |x.tablets[id].qpis| == c.r
  {
    var i, j, k := IdSurjective(c, id);
    FiledOne(c, x, qs, i, j, k);
    Bounds(c, i, j, k);
    SliceLength(c, qs[i], c.Id(0, j, k));
    hide Slice;
  }

  lemma QpisShape(c: Config, x: Index, qs: seq<seq<Qp>>)
    requires Complete(c, x, qs)
    ensures forall id :: 0 <= id < |x.tablets| ==> |x.tablets[id].qpis| == c.r
  {
    hide Complete;
    forall id | 0 <= id < |x.tablets| ensures |x.tablets[id].qpis| == c.r {
      QpisAt(c, x, qs, id);
    }
  }

  // Join messages

  /** The queue pairs of a server's tablets: `Per` tablets with `r` pairs each. */
  ghost predicate Hardware(c: Config, own: seq<seq<Qp>>) {
    |own| == c.Per() && forall y :: 0 <= y < |own| ==> |own[y]| == c.r
  }

  /** The message lists the pairs of the first `n` tablets, one tablet after the other. */
  ghost predicate Flat(c: Config, own: seq<seq<Qp>>, qpis: seq<Qp>, n: nat) {
    |qpis| == n * c.r && forall y, z :: 0 <= y < n && y < |own| && 0 <= z < c.r && z < |own[y]| ==>
      FlatAt(c, own, qpis, y, z)
  }

  ghost predicate FlatAt(c: Config, own: seq<seq<Qp>>, qpis: seq<Qp>, y: nat, z: nat)
    requires y < |own| && z < |own[y]|
  {
    y * c.r + z < |qpis| && qpis[y * c.r + z] == own[y][z]
  }

  lemma FlatMore(c: Config, own: seq<seq<Qp>>, qpis: seq<Qp>, n: nat)
    requires Hardware(c, own) && Flat(c, own, qpis, n) && n < |own|
    ensures Flat(c, own, qpis + own[n], n + 1)
  {
    var q := qpis + own[n];
    assert |q| == (n + 1) * c.r;
    forall y, z | 0 <= y < n + 1 && 0 <= z < c.r ensures FlatAt(c, own, q, y, z) {
      if y < n {
        assert FlatAt(c, own, qpis, y, z);
      }
    }
  }

  /** The loops of `Join` that list all queue pairs of a server. */
  method FlattenPairs(c: Config, own: seq<seq<Qp>>) returns (qpis: seq<Qp>)
    requires Hardware(c, own)
    ensures |qpis| == c.Per() * c.r
    ensures forall y :: 0 <= y < c.Per() ==> Slice(c, qpis, y) == own[y]
  {
    hide Flat;
    qpis := [];
    FlatNone(c, own);
    for i := 0 to c.Per()
      invariant Flat(c, own, qpis, i)
    {
      ghost var before := qpis;
      for j := 0 to c.r
        invariant qpis == before + own[i][..j]
      {
        qpis := qpis + [own[i][j]];
      }
      assert qpis == before + own[i];
      FlatMore(c, own, before, i);
    }
    FlatShape(c, own, qpis, c.Per());
    forall y | 0 <= y < c.Per() ensures Slice(c, qpis, y) == own[y] {
      Unflatten(c, own, qpis, y);
    }
  }

  lemma FlatNone(c: Config, own: seq<seq<Qp>>)
    ensures Flat(c, own, [], 0)
  {
  }

  lemma FlatShape(c: Config, own: seq<seq<Qp>>, qpis: seq<Qp>, n: nat)
    requires Flat(c, own, qpis, n)
    ensures |qpis| == n * c.r
  {
  }

  /** Unpacking by position gives back each tablet's own pairs. */
  lemma Unflatten(c: Config, own: seq<seq<Qp>>, qpis: seq<Qp>, y: nat)
    requires Hardware(c, own) && Flat(c, own, qpis, c.Per()) && y < c.Per()
    ensures |qpis| == c.Per() * c.r && Slice(c, qpis, y) == own[y]
  {
    SliceLength(c, qpis, y);
    forall z | 0 <= z < c.r ensures Slice(c, qpis, y)[z] == own[y][z] {
      assert FlatAt(c, own, qpis, y, z);
    }
  }

  // Whole runs

  function Min(a: nat, b: nat): nat { if a <= b then a else b }

  /** Any sequence of join requests: the first `n` are accepted, and answered together once all are in. */
  method JoinAll(co: Coordinator, rs: seq<Request>)
    requires co.Valid() && co.accepted == []
    requires forall i :: 0 <= i < |rs| ==> |rs[i].qpis| == co.c.Per() * co.c.r
    modifies co
    ensures co.Valid() && co.accepted == rs[..Min(|rs|, co.c.n)]
    ensures co.replies == if |rs| < co.c.n then [] else Replies(rs[..co.c.n])
    ensures |rs| >= co.c.n ==>
      Complete(co.c, co.index, Messages(rs[..co.c.n])) && co.totalStorage == Storage(rs[..co.c.n])
  {
    hide Recorded;
    for i := 0 to |rs|
      invariant co.Valid() && co.accepted == rs[..Min(i, co.c.n)]
    {
      co.HandleServerRequestJoin(rs[i]);
    }
    RecordedFacts(co.c, co.index, co.accepted);
  }

  /** The server that gets reply `i` finds, at position `y` of its entry, the tablet filed with its own pairs. */
  lemma OwnPairs(c: Config, x: Index, rs: seq<Request>, i: nat, own: seq<seq<Qp>>, y: nat)
    requires Complete(c, x, Messages(rs)) && |rs| == c.n && i < c.n && y < c.Per()
    requires Hardware(c, own) && |rs[i].qpis| == c.Per() * c.r && Slice(c, rs[i].qpis, y) == own[y]
    ensures Replies(rs)[i] == Reply(rs[i].session, i)
    ensures i < |x.servers| && y < |x.servers[i].tablets|
    ensures var id := x.servers[i].tablets[y];
      id < |x.tablets| && x.tablets[id].server == i && x.tablets[id].qpis == own[y] && id == i * c.Per() + y
  {
    var j, k := Divide(y, 1 + c.r, c.t);
    assert c.Id(0, j, k) == y;
    IdBound(c, i, j, k);
    FiledOne(c, x, Messages(rs), i, j, k);
    hide Slice;
  }

  /** The servers' own queue pairs are what their join messages list. */
  ghost predicate Sent(c: Config, rs: seq<Request>, own: seq<seq<seq<Qp>>>) {
    && |rs| == |own| == c.n
    && (forall i :: 0 <= i < c.n ==> Hardware(c, own[i]) && |rs[i].qpis| == c.Per() * c.r)
    && (forall i, y :: 0 <= i < c.n && 0 <= y < c.Per() ==> Slice(c, rs[i].qpis, y) == own[i][y])
  }

  lemma TabletOf(c: Config, x: Index, rs: seq<Request>, own: seq<seq<seq<Qp>>>, id: nat) returns (i: nat, y: nat)
    requires Complete(c, x, Messages(rs)) && Sent(c, rs, own) && id < |x.tablets|
    ensures i < c.n && y < c.Per() && id == i * c.Per() + y && |x.servers| == c.n && |x.servers[i].tablets| == c.Per()
    ensures x.servers[i].tablets[y] == id && x.tablets[id].server == i && x.tablets[id].qpis == own[i][y]
  {
    i, y := Divide(id, c.n, c.Per());
    OwnPairs(c, x, rs, i, own[i], y);
  }

  /**
   The cluster after all joins: a used pair `p` of local tablet `y` of server `i` and a used pair `q` of
   local tablet `y'` of another server `i'` are connected to each other, each through the other's own data.
   */
  lemma Wired(c: Config, x: Index, rs: seq<Request>, own: seq<seq<seq<Qp>>>, p: Pair)
    returns (q: Pair, i: nat, y: nat, i': nat, y': nat)
    requires Complete(c, x, Messages(rs)) && Sent(c, rs, own) && Used(c, x, p)
    ensures Connected(c, x, p, q) && Connected(c, x, q, p)
    ensures i < c.n && i' < c.n && i != i' && y < c.Per() && y' < c.Per() && |x.servers| == c.n
    ensures |x.servers[i].tablets| == |x.servers[i'].tablets| == c.Per()
    ensures x.servers[i].tablets[y] == p.tablet && x.tablets[p.tablet].qpis == own[i][y]
    ensures x.servers[i'].tablets[y'] == q.tablet && x.tablets[q.tablet].qpis == own[i'][y']
  {
    hide Complete, Sent;
    q := PerfectMatching(c, x, Messages(rs), p);
    i, y := TabletOf(c, x, rs, own, p.tablet);
    i', y' := TabletOf(c, x, rs, own, q.tablet);
    Elsewhere(c, x, Messages(rs), p, q);
  }

  lemma Elsewhere(c: Config, x: Index, qs: seq<seq<Qp>>, p: Pair, q: Pair)
    requires Complete(c, x, qs) && Connected(c, x, p, q) && Connected(c, x, q, p)
    ensures x.tablets[p.tablet].server != x.tablets[q.tablet].server
  {
    hide Complete;
    if x.tablets[p.tablet].isBackup {
      var r := MasterNamesBackup(c, x, qs, p.tablet);
      BackupsNameMaster(c, x, qs, q.tablet, q.number);
      assert MasterAt(c, x, q.tablet, q.number);
    } else {
      BackupsNameMaster(c, x, qs, p.tablet, p.number);
      assert MasterAt(c, x, p.tablet, p.number);
    }
  }
}
