/**
 Where tablets live: the arithmetic of tablet ids, and the index that the coordinator fills as
 servers join. Server `i` holds, for replication index `j` and tablet index `k`, tablet
 `Id(i, j, k)`: a master for `j == 0` and otherwise the `j`-th backup of a master on another server.
 */
module Placement {
  import opened Arithmetic
  /** What a peer needs to know to connect to a queue pair and to write to the memory behind it. */
  datatype Qp = Qp(lid: nat, qpn: nat, psn: nat, rkey: nat, vaddr: nat)

  /** Numbers of servers, of backups per master and of master tablets per server. */
  datatype Config = Config(n: nat, r: nat, t: nat) {
    /** Tablets and backups per server. */
    function Per(): nat { t * (1 + r) }

    /** `CalcTabletId`. */
    function Id(i: nat, j: nat, k: nat): nat { i * Per() + j * t + k }

    /** The server whose masters have their `j`-th backup on server `i`, in 32-bit arithmetic. */
    function MasterOf(i: nat, j: nat): nat
      requires n >= 1
    {
      Minus32(n + i, j) % n
    }
  }

  /** Ids of one server are below `Per`, and all ids below `n * Per`. */
  lemma IdBound(c: Config, i: nat, j: nat, k: nat)
    requires i < c.n && j <= c.r && k < c.t
    ensures c.Id(0, j, k) < c.Per() && c.Id(i, j, k) == i * c.Per() + c.Id(0, j, k) < c.n * c.Per()
  {
    Product(j + 1, 1 + c.r, c.t);
    Product(i + 1, c.n, c.Per());
  }

  lemma IdInjective(c: Config, i: nat, j: nat, k: nat, i': nat, j': nat, k': nat)
    requires i < c.n && j <= c.r && k < c.t && i' < c.n && j' <= c.r && k' < c.t
    requires c.Id(i, j, k) == c.Id(i', j', k')
    ensures i == i' && j == j' && k == k'
  {
    IdBound(c, i, j, k);
    IdBound(c, i', j', k');
    DigitsUnique(c.Per(), i, c.Id(0, j, k), i', c.Id(0, j', k'));
    DigitsUnique(c.t, j, k, j', k');
  }

  /** Server, replica and tablet are the digits of an id: masters come first on each server. */
  lemma IdDigits(c: Config, i: nat, j: nat, k: nat)
    requires i < c.n && j <= c.r && k < c.t
    ensures c.Per() >= c.t && c.Id(i, j, k) / c.Per() == i
    ensures c.Id(i, j, k) % c.Per() / c.t == j && c.Id(i, j, k) % c.Per() % c.t == k
  {
    IdBound(c, i, j, k);
    var p, x := c.Per(), c.Id(i, j, k);
    Divided(x, p);
    Product(1, 1 + c.r, c.t);
    DigitsUnique(p, x / p, x % p, i, c.Id(0, j, k));
    var y := x % p;
    Divided(y, c.t);
    DigitsUnique(c.t, y / c.t, y % c.t, j, k);
  }

  /** Division by `p`, when the quotient stays below `n`. */
  lemma Divide(x: nat, n: nat, p: nat) returns (a: nat, y: nat)
    requires x < n * p
    ensures a < n && y < p && x == a * p + y
  {
    a, y := x / p, x % p;
    if a >= n {
      Product(n, a, p);
    }
  }

  /** Every number below `n * Per` is the id of a tablet. */
  lemma IdSurjective(c: Config, x: nat) returns (i: nat, j: nat, k: nat)
    requires x < c.n * c.Per()
    ensures i < c.n && j <= c.r && k < c.t && c.Id(i, j, k) == x
  {
    var y;
    i, y := Divide(x, c.n, c.Per());
    j, k := Divide(y, 1 + c.r, c.t);
  }

  lemma ModOnce(x: nat, n: nat)
    requires n >= 1 && x < 2 * n
    ensures x % n == if x < n then x else x - n
  {
    if x >= n {
      assert x == (x - n) + 1 * n;
      ModShift(x - n, n);
    }
  }

  lemma ModShift(x: nat, n: nat)
    requires x < n
    ensures (x + n) % n == x
  {
    DigitsUnique(n, (x + n) / n, (x + n) % n, 1, x);
  }

  /** With fewer backups than servers, no subtraction wraps. */
  lemma MasterPlain(c: Config, i: nat, j: nat)
    requires 1 <= c.n && c.r < c.n && i < c.n && j <= c.r
    ensures c.MasterOf(i, j) == if j <= i then i - j else c.n + i - j
    ensures c.MasterOf(i, j) < c.n
  {
    ModOnce(c.n + i - j, c.n);
  }

  /** The server that holds the `j`-th backup of the masters of server `m`. */
  function HolderOf(c: Config, m: nat, j: nat): nat
    requires m < c.n
  {
    if m + j < c.n then m + j else m + j - c.n
  }

  /** The `j`-th backups of a server's masters are `j` servers further on, cyclically. */
  lemma HolderInverse(c: Config, i: nat, j: nat, m: nat)
    requires c.r < c.n && i < c.n && j <= c.r && m < c.n
    ensures c.MasterOf(i, j) == m <==> i == (m + j) % c.n
    ensures HolderOf(c, m, j) == (m + j) % c.n
  {
    MasterPlain(c, i, j);
    ModOnce(m + j, c.n);
  }

  /** A master and its backups sit on different servers. */
  ghost predicate Spread(c: Config)
    requires c.n >= 1
  {
    forall i, j, j' :: 0 <= i < c.n && 0 <= j < j' <= c.r ==> c.MasterOf(i, j) != c.MasterOf(i, j')
  }

  /** The unchecked condition on the configuration is exactly what this needs. */
  lemma SpreadIff(c: Config)
    requires c.n >= 1
    ensures Spread(c) <==> c.r < c.n
  {
    if c.r < c.n {
      forall i, j, j' | 0 <= i < c.n && 0 <= j < j' <= c.r ensures c.MasterOf(i, j) != c.MasterOf(i, j') {
        MasterPlain(c, i, j);
        MasterPlain(c, i, j');
      }
    } else {
      ModOnce(c.n, c.n);
      ModOnce(0, c.n);
      assert c.MasterOf(0, 0) == c.MasterOf(0, c.n);
    }
  }

  // The index

  /** `link` is the union of a backup's `master`, its first word, and a master's `backups`. */
  datatype TabletInfo = TabletInfo(id: nat, server: nat, isBackup: bool, qpis: seq<Qp>, link: seq<nat>)
  datatype ServerInfo = ServerInfo(id: nat, addr: nat, tablets: seq<nat>)
  datatype Index = Index(keyMap: seq<nat>, tablets: seq<TabletInfo>, servers: seq<ServerInfo>)

  function LinkSize(c: Config): nat { if c.r == 0 then 1 else c.r }

  ghost predicate Shaped(c: Config, x: Index) {
    && |x.keyMap| == c.n * c.t && |x.tablets| == c.n * c.Per() && |x.servers| == c.n
    && (forall id :: 0 <= id < |x.tablets| ==> |x.tablets[id].link| == LinkSize(c))
    && (forall i :: 0 <= i < |x.servers| ==> |x.servers[i].tablets| == c.Per())
  }

  predicate InRange(c: Config, i: nat, j: nat, k: nat) {
    i < c.n && j <= c.r && k < c.t
  }

  /** The queue pairs that a join message lists for local tablet `y`. */
  function Slice(c: Config, qpis: seq<Qp>, y: nat): seq<Qp>
    requires |qpis| == c.Per() * c.r && y < c.Per()
  {
    Product(y + 1, c.Per(), c.r);
    qpis[y * c.r..(y + 1) * c.r]
  }

  /** Index bounds for one tablet. */
  lemma Bounds(c: Config, i: nat, j: nat, k: nat)
    requires InRange(c, i, j, k) && c.r < c.n
    ensures c.Id(0, j, k) < c.Per() && c.Id(i, j, k) < c.n * c.Per()
    ensures c.MasterOf(i, j) < c.n && c.Id(c.MasterOf(i, j), 0, k) < c.n * c.Per()
    ensures c.Id(0, i, k) < c.n * c.t
  {
    IdBound(c, i, j, k);
    MasterPlain(c, i, j);
    IdBound(c, c.MasterOf(i, j), 0, k);
    KeyBound(c, i, k);
  }

  lemma KeyBound(c: Config, i: nat, k: nat)
    requires i < c.n && k < c.t
    ensures c.Id(0, i, k) == i * c.t + k < c.n * c.t
  {
    Product(i + 1, c.n, c.t);
  }

  /** The body of the loops of `AddServer`. */
  function Place(c: Config, x: Index, i: nat, j: nat, k: nat, qpis: seq<Qp>): Index
    requires Shaped(c, x) && InRange(c, i, j, k) && c.r < c.n && |qpis| == c.Per() * c.r
  {
    Bounds(c, i, j, k);
    var id, y := c.Id(i, j, k), c.Id(0, j, k);
    var tablets := x.tablets[id := TabletInfo(id, i, j > 0, Slice(c, qpis, y), x.tablets[id].link)];
    var servers := x.servers[i := x.servers[i].(tablets := x.servers[i].tablets[y := id])];
    if j == 0 then
      Index(x.keyMap[c.Id(0, i, k) := id], tablets, servers)
    else
      var m := c.Id(c.MasterOf(i, j), 0, k);
      var tablets1 := tablets[m := tablets[m].(link := tablets[m].link[j - 1 := id])];
      Index(x.keyMap, tablets1[id := tablets1[id].(link := tablets1[id].link[0 := m])], servers)
  }

  /** Everything the index says about one tablet is right. */
  ghost predicate Filed(c: Config, x: Index, i: nat, j: nat, k: nat, qpis: seq<Qp>)
    requires Shaped(c, x) && InRange(c, i, j, k) && c.r < c.n
  {
    Bounds(c, i, j, k);
    var id, y, m := c.Id(i, j, k), c.Id(0, j, k), c.Id(c.MasterOf(i, j), 0, k);
    && x.tablets[id].id == id && x.tablets[id].server == i && x.tablets[id].isBackup == (j > 0)
    && |qpis| == c.Per() * c.r && x.tablets[id].qpis == Slice(c, qpis, y)
    && x.servers[i].tablets[y] == id
    && (if j == 0 then x.keyMap[c.Id(0, i, k)] == id else x.tablets[id].link[0] == m && x.tablets[m].link[j - 1] == id)
  }

  lemma PlaceFiles(c: Config, x: Index, i: nat, j: nat, k: nat, qpis: seq<Qp>)
    requires Shaped(c, x) && InRange(c, i, j, k) && c.r < c.n && |qpis| == c.Per() * c.r
    ensures Shaped(c, Place(c, x, i, j, k, qpis)) && Filed(c, Place(c, x, i, j, k, qpis), i, j, k, qpis)
  {
    Bounds(c, i, j, k);
    if j > 0 && c.Id(i, j, k) == c.Id(c.MasterOf(i, j), 0, k) {
      IdInjective(c, i, j, k, c.MasterOf(i, j), 0, k);
    }
  }

  /** Ids that placing one tablet and reading another may confuse. */
  lemma Distinguished(c: Config, i: nat, j: nat, k: nat, i': nat, j': nat, k': nat)
    requires InRange(c, i, j, k) && InRange(c, i', j', k') && c.r < c.n && (i != i' || j != j' || k != k')
    ensures c.Id(i, j, k) != c.Id(i', j', k')
    ensures i == i' ==> c.Id(0, j, k) != c.Id(0, j', k')
    ensures j > 0 ==> c.Id(i, j, k) != c.Id(c.MasterOf(i', j'), 0, k')
    ensures j' > 0 ==> c.Id(i', j', k') != c.Id(c.MasterOf(i, j), 0, k)
    ensures j == j' ==> c.Id(c.MasterOf(i, j), 0, k) != c.Id(c.MasterOf(i', j'), 0, k')
    ensures j == j' == 0 ==> c.Id(0, i, k) != c.Id(0, i', k')
  {
    MasterPlain(c, i, j);
    MasterPlain(c, i', j');
    if c.Id(i, j, k) == c.Id(i', j', k') {
      IdInjective(c, i, j, k, i', j', k');
    }
    if c.Id(0, j, k) == c.Id(0, j', k') {
      IdInjective(c, 0, j, k, 0, j', k');
    }
    if c.Id(i, j, k) == c.Id(c.MasterOf(i', j'), 0, k') {
      IdInjective(c, i, j, k, c.MasterOf(i', j'), 0, k');
    }
    if c.Id(i', j', k') == c.Id(c.MasterOf(i, j), 0, k) {
      IdInjective(c, i', j', k', c.MasterOf(i, j), 0, k);
    }
    if c.Id(c.MasterOf(i, j), 0, k) == c.Id(c.MasterOf(i', j'), 0, k') {
      IdInjective(c, c.MasterOf(i, j), 0, k, c.MasterOf(i', j'), 0, k');
    }
    if c.Id(0, i, k) == c.Id(0, i', k') {
      DigitsUnique(c.t, i, k, i', k');
    }
  }

  /** Placing one tablet leaves what is said about every other tablet alone, even of servers yet to join. */
  lemma PlaceKeeps(c: Config, x: Index, i: nat, j: nat, k: nat, qpis: seq<Qp>, i': nat, j': nat, k': nat,
                   qpis': seq<Qp>)
    requires Shaped(c, x) && InRange(c, i, j, k) && c.r < c.n && |qpis| == c.Per() * c.r
    requires InRange(c, i', j', k') && (i != i' || j != j' || k != k') && Filed(c, x, i', j', k', qpis')
    ensures Shaped(c, Place(c, x, i, j, k, qpis)) && Filed(c, Place(c, x, i, j, k, qpis), i', j', k', qpis')
  {
    PlaceFiles(c, x, i, j, k, qpis);
    Bounds(c, i, j, k);
    Bounds(c, i', j', k');
    Distinguished(c, i, j, k, i', j', k');
    hide Slice;
  }

  // Adding servers

  /** Tablet (a, b, d) comes before (i, j, k) in the order in which tablets are placed. */
  ghost predicate Before(a: nat, b: nat, d: nat, i: nat, j: nat, k: nat) {
    a < i || (a == i && (b < j || (b == j && d < k)))
  }

  ghost predicate FiledFor(c: Config, x: Index, qs: seq<seq<Qp>>, a: nat, b: nat, d: nat)
    requires Shaped(c, x) && InRange(c, a, b, d) && c.r < c.n
  {
    a < |qs| && Filed(c, x, a, b, d, qs[a])
  }

  /** Every tablet before (i, j, k) is filed; server `a` sent the queue pairs `qs[a]`. */
  ghost predicate FiledUpTo(c: Config, x: Index, qs: seq<seq<Qp>>, i: nat, j: nat, k: nat) {
    && Shaped(c, x) && c.r < c.n
    && (forall a, b, d {:trigger FiledFor(c, x, qs, a, b, d)} ::
          0 <= a && 0 <= b && 0 <= d && InRange(c, a, b, d) && Before(a, b, d, i, j, k) ==> FiledFor(c, x, qs, a, b, d))
  }

  lemma FileNext(c: Config, x: Index, qs: seq<seq<Qp>>, i: nat, j: nat, k: nat)
    requires FiledUpTo(c, x, qs, i, j, k) && InRange(c, i, j, k) && i < |qs| && |qs[i]| == c.Per() * c.r
    ensures FiledUpTo(c, Place(c, x, i, j, k, qs[i]), qs, i, j, k + 1)
  {
    hide Filed, Place, Shaped;
    var x' := Place(c, x, i, j, k, qs[i]);
    PlaceFiles(c, x, i, j, k, qs[i]);
    forall a: nat, b: nat, d: nat | InRange(c, a, b, d) && Before(a, b, d, i, j, k + 1)
      ensures FiledFor(c, x', qs, a, b, d) {
      if a != i || b != j || d != k {
        assert FiledFor(c, x, qs, a, b, d);
        PlaceKeeps(c, x, i, j, k, qs[i], a, b, d, qs[a]);
      }
    }
  }

  lemma FiledCarry(c: Config, x: Index, qs: seq<seq<Qp>>, i: nat, j: nat)
    ensures FiledUpTo(c, x, qs, i, j, c.t) ==> FiledUpTo(c, x, qs, i, j + 1, 0)
    ensures FiledUpTo(c, x, qs, i, c.r + 1, 0) ==> FiledUpTo(c, x, qs, i + 1, 0, 0)
  {
    hide FiledFor, Shaped;
  }

  lemma FiledMore(c: Config, x: Index, qs: seq<seq<Qp>>, i: nat, q: seq<Qp>)
    requires FiledUpTo(c, x, qs, i, 0, 0)
    ensures FiledUpTo(c, x, qs + [q], i, 0, 0)
  {
    hide Filed, Shaped;
    forall a: nat, b: nat, d: nat | InRange(c, a, b, d) && Before(a, b, d, i, 0, 0)
      ensures FiledFor(c, x, qs + [q], a, b, d) {
      assert FiledFor(c, x, qs, a, b, d);
    }
  }

  lemma FiledShape(c: Config, x: Index, qs: seq<seq<Qp>>, i: nat)
    requires FiledUpTo(c, x, qs, i, 0, 0)
    ensures |x.servers| == c.n
  {
  }

  /** A server's entry as it is before its tablets are entered. */
  function Named(c: Config, x: Index, i: nat, addr: nat): Index
    requires i < |x.servers|
  {
    x.(servers := x.servers[i := ServerInfo(i, addr, seq(c.Per(), _ => 0))])
  }

  lemma NamedFiled(c: Config, x: Index, qs: seq<seq<Qp>>, i: nat, addr: nat)
    requires FiledUpTo(c, x, qs, i, 0, 0) && i < |x.servers|
    ensures FiledUpTo(c, Named(c, x, i, addr), qs, i, 0, 0)
  {
    var x' := Named(c, x, i, addr);
    forall a: nat, b: nat, d: nat | InRange(c, a, b, d) && Before(a, b, d, i, 0, 0)
      ensures FiledFor(c, x', qs, a, b, d) {
      assert FiledFor(c, x, qs, a, b, d);
    }
  }

  /** The ids and addresses in the server table. */
  ghost function Names(x: Index): seq<(nat, nat)> {
    seq(|x.servers|, i requires 0 <= i < |x.servers| => (x.servers[i].id, x.servers[i].addr))
  }

  lemma NamesKept(c: Config, x: Index, qs: seq<seq<Qp>>, i: nat, j: nat, k: nat, qpis: seq<Qp>)
    requires FiledUpTo(c, x, qs, i, j, k) && InRange(c, i, j, k) && |qpis| == c.Per() * c.r
    ensures Shaped(c, x) && c.r < c.n && Names(Place(c, x, i, j, k, qpis)) == Names(x)
  {
  }

  lemma NamesSet(c: Config, x: Index, i: nat, addr: nat)
    requires i < |x.servers|
    ensures Names(Named(c, x, i, addr)) == Names(x)[i := (i, addr)]
  {
  }

  /** A join request: who sent it, how much storage it offers, and the queue pairs of its tablets. */
  datatype Request = Request(session: nat, size: nat, qpis: seq<Qp>)
  datatype Reply = Reply(session: nat, id: nat)

  ghost function Messages(rs: seq<Request>): seq<seq<Qp>> {
    seq(|rs|, i requires 0 <= i < |rs| => rs[i].qpis)
  }

  ghost function Sessions(rs: seq<Request>): seq<nat> {
    seq(|rs|, i requires 0 <= i < |rs| => rs[i].session)
  }

  ghost function Storage(rs: seq<Request>): nat {
    if rs == [] then 0 else Storage(rs[..|rs| - 1]) + rs[|rs| - 1].size
  }

  /** Response `i` goes to the sender of join request `i` and tells it that its id is `i`. */
  ghost function Replies(rs: seq<Request>): seq<Reply> {
    seq(|rs|, i requires 0 <= i < |rs| => Reply(rs[i].session, i))
  }

  class Coordinator {
    const c: Config
    var nextId: nat
    var numServers: nat
    var totalStorage: nat
    var sessions: seq<nat>
    var index: Index
    /** The join responses sent so far. */
    var replies: seq<Reply>
    /** The requests that were accepted. */
    ghost var accepted: seq<Request>

    ghost predicate Valid()
      reads this
    {
      && c.r < c.n
      && numServers == nextId == |accepted| <= c.n
      && Recorded(c, index, accepted)
      && totalStorage == Storage(accepted)
      && (if numServers < c.n then replies == [] && sessions == Sessions(accepted) else replies == Replies(accepted))
    }

    constructor (c: Config, index: Index)
      requires Shaped(c, index) && c.r < c.n
      ensures Valid() && this.c == c && accepted == []
    {
      this.c, this.index := c, index;
      nextId, numServers, totalStorage, sessions, replies, accepted := 0, 0, 0, [], [], [];
      assert Sessions([]) == [] && Recorded(c, index, []);
    }

    /** `AddServer`: take the next id and file the server's tablets. */
    method AddServer(addr: nat, qpis: seq<Qp>, ghost qs: seq<seq<Qp>>)
      requires nextId < c.n && c.r < c.n && FiledUpTo(c, index, qs, nextId, 0, 0) && |qs| == nextId
      requires |qpis| == c.Per() * c.r
      modifies this`nextId, this`index
      ensures nextId == old(nextId) + 1 && FiledUpTo(c, index, qs + [qpis], nextId, 0, 0)
      ensures |old(index).servers| == c.n && Names(index) == Names(old(index))[old(nextId) := (old(nextId), addr)]
    {
      hide FiledUpTo, Place, Names, Named;
      var i := nextId;
      nextId := nextId + 1;
      FiledShape(c, index, qs, i);
      FiledMore(c, index, qs, i, qpis);
      NamedFiled(c, index, qs + [qpis], i, addr);
      NamesSet(c, index, i, addr);
      index := Named(c, index, i, addr);
      ghost var names := Names(index);
      for j := 0 to c.r + 1
        invariant FiledUpTo(c, index, qs + [qpis], i, j, 0) && Names(index) == names && nextId == i + 1
      {
        for k := 0 to c.t
          invariant FiledUpTo(c, index, qs + [qpis], i, j, k) && Names(index) == names && nextId == i + 1
        {
          FileNext(c, index, qs + [qpis], i, j, k);
          NamesKept(c, index, qs + [qpis], i, j, k, qpis);
          index := Place(c, index, i, j, k, qpis);
        }
        FiledCarry(c, index, qs + [qpis], i, j);
      }
      FiledCarry(c, index, qs + [qpis], i, c.r);
    }

    /** `ResponseAllJoins`: tell each session the id of its server. */
    method ResponseAllJoins()
      requires sessions == Sessions(accepted) && replies == [] && |accepted| == c.n
      modifies this`sessions, this`replies
      ensures replies == Replies(accepted) && sessions == []
    {
      for i := 0 to |sessions|
        invariant sessions == old(sessions) && replies == Replies(accepted)[..i]
      {
        replies := replies + [Reply(sessions[i], i)];
      }
      sessions := [];
    }

    /** `HandleServerRequestJoin`: requests beyond the last server are ignored. */
    method HandleServerRequestJoin(rq: Request)
      requires Valid() && |rq.qpis| == c.Per() * c.r
      modifies this
      ensures Valid()
      ensures |old(accepted)| < c.n ==> accepted == old(accepted) + [rq]
      ensures |old(accepted)| == c.n ==>
        && accepted == old(accepted) && index == old(index)
        && replies == old(replies) && totalStorage == old(totalStorage)
    {
      if numServers >= c.n {
        return;
      }
      hide FiledUpTo, Names, Recorded;
      RecordedFacts(c, index, accepted);
      AddServer(rq.session, rq.qpis, Messages(accepted));
      sessions := sessions + [rq.session];
      numServers := numServers + 1;
      totalStorage := totalStorage + rq.size;
      RecordedMore(c, old(index), accepted, index, rq);
      accepted := accepted + [rq];
      assert accepted[..|accepted| - 1] == old(accepted);
      if numServers == c.n {
        ResponseAllJoins();
      }
    }
  }

  /** The index files the tablets of the accepted servers, in the order in which they joined. */
  ghost predicate Recorded(c: Config, x: Index, rs: seq<Request>) {
    && FiledUpTo(c, x, Messages(rs), |rs|, 0, 0)
    && |rs| <= |x.servers|
    && (forall i :: 0 <= i < |rs| ==> x.servers[i].id == i && x.servers[i].addr == rs[i].session)
  }

  lemma RecordedFacts(c: Config, x: Index, rs: seq<Request>)
    requires Recorded(c, x, rs)
    ensures FiledUpTo(c, x, Messages(rs), |rs|, 0, 0) && |Messages(rs)| == |rs|
  {
  }

  lemma RecordedMore(c: Config, x: Index, rs: seq<Request>, x': Index, rq: Request)
    requires Recorded(c, x, rs) && |rs| < c.n == |x.servers| &&
      FiledUpTo(c, x', Messages(rs) + [rq.qpis], |rs| + 1, 0, 0)
    requires Names(x') == Names(x)[|rs| := (|rs|, rq.session)]
    ensures Recorded(c, x', rs + [rq])
  {
    assert Messages(rs + [rq]) == Messages(rs) + [rq.qpis];
    assert |Names(x')| == |x'.servers|;
    forall i | 0 <= i < |rs + [rq]| ensures x'.servers[i].id == i && x'.servers[i].addr == (rs + [rq])[i].session {
      assert Names(x')[i] == (x'.servers[i].id, x'.servers[i].addr);
      assert i < |rs| ==> Names(x)[i] == (x.servers[i].id, x.servers[i].addr);
    }
  }
}
