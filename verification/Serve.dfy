/**
 A worker serving one tablet: execute a request, ship the logged changes to the backups, and only then
 post the response.
 */
module Serving {
  import opened Bytes
  import opened Layout
  import opened Modifications
  import opened Merging
  import opened Scatter
  import opened Replication
  import opened HashChains
  import opened Tablets
  import opened Allocation
  import opened Blocks
  import FreeLists

  const NUM_SCATTERS: nat := 16

  lemma {:induction false} PostsAppend(rs: seq<Modification>, r: Modification, image: seq<Byte>, base: nat)
    requires AllInImage(rs, base, |image|) && InImage(r, base, |image|) && AllInImage(rs + [r], base, |image|)
    ensures Posts(rs + [r], image, base) == Posts(rs, image, base) + [Post(r, image, base)]
    decreases |rs|
  {
    if rs == [] {
      assert rs + [r] == [r];
    } else {
      assert (rs + [r])[1..] == rs[1..] + [r];
      PostsAppend(rs[1..], r, image, base);
    }
  }

  function Waiting(qs: seq<seq<Posted>>): nat {
    if qs == [] then 0 else |qs[0]| + Waiting(qs[1..])
  }

  lemma {:induction false} WaitingLess(qs: seq<seq<Posted>>, k: nat)
    requires k < |qs| && qs[k] != []
    ensures Waiting(qs[k := qs[k][1..]]) == Waiting(qs) - 1
    decreases |qs|
  {
    if k > 0 {
      WaitingLess(qs[1..], k - 1);
      assert qs[k := qs[k][1..]][1..] == qs[1..][k - 1 := qs[k][1..]];
    }
  }

  lemma {:induction false} WaitingSome(qs: seq<seq<Posted>>)
    requires Waiting(qs) > 0
    ensures exists k :: 0 <= k < |qs| && qs[k] != []
    decreases |qs|
  {
    if qs[0] == [] {
      WaitingSome(qs[1..]);
      var k :| 0 <= k < |qs[1..]| && qs[1..][k] != [];
      assert qs[k + 1] != [];
    }
  }

  lemma {:induction false} WaitingNone(qs: seq<seq<Posted>>, k: nat)
    requires Waiting(qs) == 0 && k < |qs|
    ensures qs[k] == []
    decreases |qs|
  {
    if k > 0 {
      WaitingNone(qs[1..], k - 1);
    }
  }

  ghost predicate Distinct(backups: seq<array<Byte>>, master: array<Byte>) {
    && (forall i, j :: 0 <= i < j < |backups| ==> backups[i] != backups[j])
    && (forall i :: 0 <= i < |backups| ==> backups[i] != master)
  }

  lemma PrefixInImage(rs: seq<Modification>, i: nat, base: nat, size: nat)
    requires AllInImage(rs, base, size) && i <= |rs|
    ensures AllInImage(rs[..i], base, size)
  {
  }

  /** The work requests for one backup: one per merged range, and they fit the fixed-size tables. */
  method PostRanges(rs: seq<Modification>, image: seq<Byte>, base: nat) returns (q: seq<Posted>)
    requires |rs| <= NUM_SCATTERS && AllInImage(rs, base, |image|)
    ensures q == Posts(rs, image, base)
  {
    q := [];
    hide Posts, Post, AllInImage;
    PostsNone(rs[..0], image, base);
    for i := 0 to |rs|
      invariant AllInImage(rs[..i], base, |image|) && q == Posts(rs[..i], image, base)
    {
      assert i < NUM_SCATTERS;
      PostsNext(rs, i, image, base);
      q := q + [Post(rs[i], image, base)];
    }
    assert rs[..|rs|] == rs;
  }

  lemma PostsNone(rs: seq<Modification>, image: seq<Byte>, base: nat)
    requires rs == []
    ensures AllInImage(rs, base, |image|) && Posts(rs, image, base) == []
  {
  }

  lemma PostsNext(rs: seq<Modification>, i: nat, image: seq<Byte>, base: nat)
    requires AllInImage(rs, base, |image|) && i < |rs|
    ensures AllInImage(rs[..i], base, |image|) && AllInImage(rs[..i + 1], base, |image|) &&
      InImage(rs[i], base, |image|)
    ensures Posts(rs[..i + 1], image, base) == Posts(rs[..i], image, base) + [Post(rs[i], image, base)]
  {
    PrefixInImage(rs, i, base, |image|);
    PrefixInImage(rs, i + 1, base, |image|);
    assert rs[..i + 1] == rs[..i] + [rs[i]];
    PostsAppend(rs[..i], rs[i], image, base);
  }

  /** Once the queue has been applied to the image, it will be the target. */
  ghost predicate Settles(image: seq<Byte>, q: seq<Posted>, target: seq<Byte>) {
    Replication.Fits(q, |image|) && Apply(image, q) == target
  }

  lemma SettlesStep(image: seq<Byte>, q: seq<Posted>, target: seq<Byte>)
    requires Settles(image, q, target) && q != []
    ensures q[0].des + |q[0].data| <= |image|
    ensures Settles(Splice(image, q[0].des, q[0].data), q[1..], target)
  {
  }

  method DeliverOne(p: Posted, b: array<Byte>)
    requires p.des + |p.data| <= b.Length
    modifies b
    ensures b[..] == Splice(old(b[..]), p.des, p.data)
  {
    forall i | 0 <= i < |p.data| {
      b[p.des + i] := p.data[i];
    }
  }

  /** The images in a list of arrays. */
  ghost function ImagesOf(backups: seq<array<Byte>>): (s: seq<seq<Byte>>)
    reads backups
    ensures |s| == |backups| && forall k :: 0 <= k < |backups| ==> s[k] == backups[k][..]
  {
    seq(|backups|, k requires 0 <= k < |backups| reads backups => backups[k][..])
  }

  ghost predicate Unlike(backups: seq<array<Byte>>) {
    forall i, j :: 0 <= i < j < |backups| ==> backups[i] != backups[j]
  }

  /** Once every queue has arrived, the images will be the targets. */
  ghost predicate AllSettle(images: seq<seq<Byte>>, queues: seq<seq<Posted>>, targets: seq<seq<Byte>>) {
    && |images| == |queues| == |targets|
    && (forall k :: 0 <= k < |images| ==> Settles(images[k], queues[k], targets[k]))
  }

  lemma AllSettleStep(images: seq<seq<Byte>>, queues: seq<seq<Posted>>, targets: seq<seq<Byte>>, k: nat)
    requires AllSettle(images, queues, targets) && k < |images| && queues[k] != []
    ensures var p := queues[k][0];
      && p.des + |p.data| <= |images[k]|
      && AllSettle(images[k := Splice(images[k], p.des, p.data)], queues[k := queues[k][1..]], targets)
  {
    SettlesStep(images[k], queues[k], targets[k]);
    hide Settles;
  }

  lemma AllArrived(images: seq<seq<Byte>>, queues: seq<seq<Posted>>, targets: seq<seq<Byte>>)
    requires AllSettle(images, queues, targets) && Waiting(queues) == 0
    ensures images == targets && queues == Empties(|images|)
  {
    forall k | 0 <= k < |images| ensures images[k] == targets[k] && queues[k] == [] {
      WaitingNone(queues, k);
      SettledNow(images[k], targets[k]);
    }
  }

  /** One queue advances: a step of the protocol. */
  method DeliverFrom(queues: seq<seq<Posted>>, backups: seq<array<Byte>>, k: nat, ghost s: System,
                     ghost steps: seq<Step>)
    requires |queues| == |backups| && k < |queues| && queues[k] != [] && Unlike(backups)
    requires queues[k][0].des + |queues[k][0].data| <= backups[k].Length
    requires CanRun(s, steps) && Final(s, steps) == System(s.master, ImagesOf(backups), queues, s.syncing)
    modifies backups
    ensures ImagesOf(backups) ==
      old(ImagesOf(backups))[k := Splice(old(backups[k][..]), queues[k][0].des, queues[k][0].data)]
    ensures CanRun(s, steps + [Deliver(k)])
    ensures Final(s, steps + [Deliver(k)]) ==
      System(s.master, ImagesOf(backups), queues[k := queues[k][1..]], s.syncing)
  {
    ghost var images := ImagesOf(backups);
    RunMore(s, steps, Deliver(k));
    hide CanRun, Final;
    DeliverOne(queues[k][0], backups[k]);
    assert ImagesOf(backups) == images[k := backups[k][..]];
  }

  /** Some queue that is not empty advances. */
  method DeliverSome(queues: seq<seq<Posted>>, backups: seq<array<Byte>>, ghost targets: seq<seq<Byte>>,
                     ghost s: System, ghost steps: seq<Step>)
    returns (queues': seq<seq<Posted>>, ghost k: nat)
    requires |queues| == |backups| && Waiting(queues) > 0 && Unlike(backups)
    requires AllSettle(ImagesOf(backups), queues, targets)
    requires CanRun(s, steps) && Final(s, steps) == System(s.master, ImagesOf(backups), queues, s.syncing)
    modifies backups
    ensures |queues'| == |backups| && Waiting(queues') < Waiting(queues)
    ensures AllSettle(ImagesOf(backups), queues', targets)
    ensures CanRun(s, steps + [Deliver(k)])
    ensures Final(s, steps + [Deliver(k)]) == System(s.master, ImagesOf(backups), queues', s.syncing)
  {
    hide AllSettle, CanRun, Final, Waiting, Unlike, Splice;
    WaitingSome(queues);
    var x: nat :| x < |queues| && queues[x] != [];
    WaitingLess(queues, x);
    AllSettleStep(ImagesOf(backups), queues, targets, x);
    DeliverFrom(queues, backups, x, s, steps);
    queues', k := queues[x := queues[x][1..]], x;
  }

  /**
   The remote writes of all queues arrive, each queue in order and the queues in any interleaving: a run
   of `Deliver` steps from any state with these images and queues.
   */
  method DeliverAll(posts: seq<seq<Posted>>, backups: seq<array<Byte>>, ghost targets: seq<seq<Byte>>, ghost s: System)
    returns (ghost steps: seq<Step>)
    requires Unlike(backups) && AllSettle(ImagesOf(backups), posts, targets)
    requires s.images == ImagesOf(backups) && s.queues == posts
    modifies backups
    ensures ImagesOf(backups) == targets
    ensures CanRun(s, steps) && (forall i :: 0 <= i < |steps| ==> steps[i].Deliver?)
    ensures Final(s, steps) == System(s.master, targets, Empties(|backups|), s.syncing)
  {
    steps := [];
    assert CanRun(s, steps) && Final(s, steps) == s && |posts| == |backups|;
    hide AllSettle, Settles, CanRun, Final, Waiting, Unlike, Splice;
    var queues := posts;
    while Waiting(queues) > 0
      invariant |queues| == |backups| && AllSettle(ImagesOf(backups), queues, targets)
      invariant CanRun(s, steps) && Final(s, steps) == System(s.master, ImagesOf(backups), queues, s.syncing)
      invariant forall i :: 0 <= i < |steps| ==> steps[i].Deliver?
      decreases Waiting(queues)
    {
      ghost var k;
      queues, k := DeliverSome(queues, backups, targets, s, steps);
      steps := steps + [Deliver(k)];
    }
    AllArrived(ImagesOf(backups), queues, targets);
  }

  ghost function Empties(n: nat): seq<seq<Posted>> { seq(n, _ => []) }

  lemma SettledNow(image: seq<Byte>, target: seq<Byte>)
    requires Settles(image, [], target)
    ensures image == target
  {
  }

  lemma LogFacts(a: Allocator)
    requires a.Valid()
    ensures Sound(a.before, a.mem[..], a.log) && SitesOk(a.log, a.trace.sites)
    ensures forall k :: 0 <= k < |a.trace.sites| ==> a.trace.sites[k] in a.trace.spots
    ensures forall k :: 0 <= k < |a.log| ==> EntryOk(a.log[k], a.base, a.mem.Length)
    ensures a.trace.low < IMAGE_SIZE ==> StartsAt(a.log, a.trace.low)
    ensures a.mem.Length == IMAGE_SIZE == |a.before|
  {
  }

  lemma UnloggedSame(m: seq<Byte>, m': seq<Byte>)
    requires Sound(m, m', [])
    ensures m == m'
  {
  }

  /** The merged ranges of the log. */
  method MergeLog(alloc: Allocator) returns (ranges: seq<Modification>)
    requires alloc.Valid() && alloc.log != []
    ensures Merged(alloc.log, ranges, alloc.base) && |ranges| > 0 && |ranges| <= |alloc.trace.spots|
    ensures AllInImage(ranges, alloc.base, alloc.mem.Length)
    ensures Settles(alloc.before, Posts(ranges, alloc.mem[..], alloc.base), alloc.mem[..])
  {
    LogFacts(alloc);
    ghost var base, before, m := alloc.base, alloc.before, alloc.mem[..];
    hide Merged, Sound, SitesOk, Accounts, Consistent, Mirrors;
    var log := alloc.log;
    var a := new Modification[|log|](i requires 0 <= i < |log| => log[i]);
    assert a[..] == log;
    var n := MergeModifications(a, base);
    ranges := a[..n];
    RangesBound(log, alloc.trace.sites, alloc.trace.spots, ranges, base);
    ReplayRestores(before, m, log, ranges, base);
  }

  /** The queues once the ranges are posted to each of `count` backups. */
  method PostAll(alloc: Allocator, ranges: seq<Modification>, count: nat) returns (queues: seq<seq<Posted>>)
    requires |ranges| <= NUM_SCATTERS && AllInImage(ranges, alloc.base, alloc.mem.Length)
    ensures |queues| == count && forall j :: 0 <= j < count ==> queues[j] == Posts(ranges, alloc.mem[..], alloc.base)
  {
    hide Posts, AllInImage;
    queues := [];
    for k := 0 to count
      invariant |queues| == k && forall j :: 0 <= j < k ==> queues[j] == Posts(ranges, alloc.mem[..], alloc.base)
    {
      var q := PostRanges(ranges, alloc.mem[..], alloc.base);
      queues := queues + [q];
    }
  }

  /** The protocol's state between requests. */
  ghost function Idle(master: seq<Byte>, images: seq<seq<Byte>>): System {
    System(master, images, Empties(|images|), false)
  }

  /** A request that logs nothing is executed and answered without any post. */
  lemma SilentRound(s: System, steps: seq<Step>, m: seq<Byte>, images: seq<seq<Byte>>, base: nat)
    requires CanRun(s, steps) && Final(s, steps) == Idle(m, images)
    ensures var round := [Step.Execute(m, [], [], base), Respond];
      CanRun(s, steps + round) && Final(s, steps + round) == Idle(m, images)
  {
    var exec := Step.Execute(m, [], [], base);
    var s1 := System(m, images, Empties(|images|), true);
    assert After(Idle(m, images), exec) == s1 by {
      assert forall k :: 0 <= k < |images| ==> Empties(|images|)[k] + Posts([], m, base) == [];
    }
    RunMore(s, steps, exec);
    hide CanRun, Final;
    RunMore(s, steps + [exec], Respond);
    assert steps + [exec] + [Respond] == steps + [exec, Respond];
  }

  /** The state in which a request has been executed and its ranges posted. */
  lemma PostedRound(s: System, steps: seq<Step>, m: seq<Byte>, images: seq<seq<Byte>>, m': seq<Byte>,
                    log: seq<Modification>,
                    ranges: seq<Modification>, base: nat, queues: seq<seq<Posted>>)
    requires CanRun(s, steps) && Final(s, steps) == Idle(m, images)
    requires Sound(m, m', log) && Merged(log, ranges, base) && AllInImage(ranges, base, |m'|)
    requires forall k :: 0 <= k < |log| ==> EndOf(log[k]) <= |m'|
    requires |queues| == |images| && forall j :: 0 <= j < |queues| ==> queues[j] == Posts(ranges, m', base)
    ensures var exec := Step.Execute(m', log, ranges, base);
      CanRun(s, steps + [exec]) && Final(s, steps + [exec]) == System(m', images, queues, true)
  {
    var exec := Step.Execute(m', log, ranges, base);
    hide CanRun, Final, Merged, Sound, AllInImage;
    var s' := After(Idle(m, images), exec);
    forall k | 0 <= k < |queues| ensures s'.queues[k] == queues[k] {
      assert s'.queues[k] == [] + Posts(ranges, m', base);
    }
    assert s'.queues == queues;
    RunMore(s, steps, exec);
  }

  /** The answer is posted once everything has arrived. */
  lemma AnsweredRound(s: System, steps: seq<Step>, exec: Step, more: seq<Step>, m: seq<Byte>, images: seq<seq<Byte>>)
    requires CanRun(s, steps + [exec]) && CanRun(Final(s, steps + [exec]), more)
    requires Final(Final(s, steps + [exec]), more) == System(m, images, Empties(|images|), true)
    ensures var round := [exec] + more + [Respond];
      CanRun(s, steps + round) && Final(s, steps + round) == Idle(m, images)
  {
    assert Enabled(System(m, images, Empties(|images|), true), Respond);
    assert After(System(m, images, Empties(|images|), true), Respond) == Idle(m, images);
    hide CanRun, Final, Enabled, After;
    RunConcat(s, steps + [exec], more);
    var all := steps + [exec] + more;
    RunMore(s, all, Respond);
    Regrouped(steps, exec, more);
  }

  lemma Regrouped(steps: seq<Step>, exec: Step, more: seq<Step>)
    ensures steps + [exec] + more + [Respond] == steps + ([exec] + more + [Respond])
  {
  }

  /**
   Bring the backups up to date with the changes since the log was emptied, and wait for completion.
   The round that this makes with the execution before it and the response after it is a run of the
   protocol.
   */
  method Sync(alloc: Allocator, backups: seq<array<Byte>>, ghost s: System, ghost steps: seq<Step>)
    returns (ghost round: seq<Step>)
    requires alloc.Valid() && |alloc.trace.spots| <= NUM_SCATTERS
    requires Distinct(backups, alloc.mem) && forall k :: 0 <= k < |backups| ==> backups[k][..] == alloc.before
    requires CanRun(s, steps) && Final(s, steps) == Idle(alloc.before, ImagesOf(backups))
    modifies backups
    ensures forall k :: 0 <= k < |backups| ==> backups[k][..] == alloc.mem[..]
    ensures CanRun(s, steps + round) && Final(s, steps + round) == Idle(alloc.mem[..], ImagesOf(backups))
    ensures OneRound(round)
  {
    LogFacts(alloc);
    ghost var base, before, m := alloc.base, alloc.before, alloc.mem[..];
    hide Merged, Sound, SitesOk, Accounts, Consistent, Mirrors, AllInImage, CanRun, Final, Settles, Posts;
    if |alloc.log| == 0 {
      UnloggedSame(before, m);
      SilentRound(s, steps, m, ImagesOf(backups), base);
      ghost var exec := Step.Execute(m, [], [], base);
      OneAnswer(exec, []);
      assert [exec] + [] + [Respond] == [exec, Respond];
      return [exec, Respond];
    }
    var ranges := MergeLog(alloc);
    var queues := PostAll(alloc, ranges, |backups|);
    PostedRound(s, steps, before, ImagesOf(backups), m, alloc.log, ranges, base, queues);
    ghost var exec := Step.Execute(m, alloc.log, ranges, base);
    ghost var targets := seq(|backups|, _ => m);
    ghost var more := DeliverAll(queues, backups, targets, Final(s, steps + [exec]));
    assert ImagesOf(backups) == targets;
    AnsweredRound(s, steps, exec, more, m, targets);
    round := [exec] + more + [Respond];
    OneAnswer(exec, more);
  }

  /** How many responses are posted. */
  ghost function Answers(steps: seq<Step>): nat {
    if steps == [] then 0 else Answers(steps[..|steps| - 1]) + if steps[|steps| - 1] == Respond then 1 else 0
  }

  /** Steps that end with their only response. */
  ghost predicate OneRound(steps: seq<Step>) {
    Answers(steps) == 1 && steps != [] && steps[|steps| - 1] == Respond
  }

  lemma {:induction false} NoAnswer(steps: seq<Step>)
    requires forall i :: 0 <= i < |steps| ==> steps[i] != Respond
    ensures Answers(steps) == 0
  {
    if steps != [] {
      NoAnswer(steps[..|steps| - 1]);
    }
  }

  lemma OneAnswer(exec: Step, more: seq<Step>)
    requires exec.Execute? && forall i :: 0 <= i < |more| ==> more[i].Deliver?
    ensures Answers([exec] + more + [Respond]) == 1
  {
    NoAnswer([exec] + more);
    assert ([exec] + more + [Respond])[..1 + |more|] == [exec] + more;
  }

  lemma {:induction false} AnswersConcat(steps: seq<Step>, more: seq<Step>)
    ensures Answers(steps + more) == Answers(steps) + Answers(more)
    decreases |more|
  {
    if more == [] {
      assert steps + more == steps;
    } else {
      var n := |more| - 1;
      AnswersConcat(steps, more[..n]);
      assert (steps + more)[..|steps| + n] == steps + more[..n];
    }
  }

  datatype Request =
    | Put(hash: nat, key: seq<Byte>, val: seq<Byte>)
    | Add(hash: nat, key: seq<Byte>, val: seq<Byte>)
    | Get(hash: nat, key: seq<Byte>)
    | Del(hash: nat, key: seq<Byte>)
  datatype Response = Response(status: Status, val: seq<Byte>)

  type Contents = map<Key, seq<Byte>>

  /** Requests as clients build them: a 64-bit hash and an item small enough for one block. */
  predicate Acceptable(r: Request) {
    && r.hash < 0x1_0000_0000_0000_0000
    && (r.Put? || r.Add? ==> OBJECT + |r.key| + |r.val| + 4 <= MAX_BLOCK)
  }

  /** The answer a plain map gives, and the map afterwards. */
  ghost function Answer(m: Contents, r: Request): (Response, Contents) {
    var k := (BucketOf(r.hash), r.key);
    match r
    case Put(_, _, val) => (Response(OK, []), m[k := val])
    case Add(_, _, val) => if k in m then (Response(ERROR, []), m) else (Response(OK, []), m[k := val])
    case Get(_, _) => (if k in m then Response(OK, m[k]) else Response(ERROR, []), m)
    case Del(_, _) => (Response(if k in m then OK else ERROR, []), m - {k})
  }

  /** The map after the first `n` requests, and the answer to request `n`. */
  ghost function MapAfter(m: Contents, rs: seq<Request>, n: nat): Contents
    requires n <= |rs|
  {
    if n == 0 then m else Answer(MapAfter(m, rs, n - 1), rs[n - 1]).1
  }

  ghost function AnswerTo(m: Contents, rs: seq<Request>, n: nat): Response
    requires n < |rs|
  {
    Answer(MapAfter(m, rs, n), rs[n]).0
  }

  function KeyFor(r: Request): Key { (BucketOf(r.hash), r.key) }

  /** The bytes a request may need from the allocator. */
  function NeedOf(r: Request): nat { if r.Put? || r.Add? then Need(r.key, r.val) else 0 }

  /** The blocks among which a request looks for room. */
  ghost function Searched(b: Blocks, t: Table, r: Request): Blocks {
    if r.Put? then Available(b, t, KeyFor(r)) else b
  }

  ghost function SearchedLists(b: Blocks, l: FreeLists.Lists, t: Table, r: Request): FreeLists.Lists {
    if r.Put? then AvailableLists(b, l, t, KeyFor(r)) else l
  }

  /** The request needs a block. */
  ghost predicate NeedsBlock(t: Table, r: Request) {
    && (r.Put? || r.Add?)
    && (r.Put? ==> !InPlace(t, KeyFor(r), r.val)) && (r.Add? ==> KeyFor(r) !in HashChains.Contents(t))
  }

  /** The request needs a block, and no list is headed by one that is large enough. */
  ghost predicate Refused(b: Blocks, l: FreeLists.Lists, t: Table, r: Request) {
    NeedsBlock(t, r) && NoHead(Searched(b, t, r), SearchedLists(b, l, t, r), NeedOf(r))
  }

  /** The request needs a block, and no free block is large enough. */
  ghost predicate Full(b: Blocks, t: Table, r: Request) {
    NeedsBlock(t, r) && NoRoom(Searched(b, t, r), NeedOf(r))
  }

  /** Execute one request on the tablet. */
  method Execute(tablet: Tablet, r: Request) returns (resp: Response)
    requires tablet.Valid() && Acceptable(r)
    modifies tablet`t, tablet.alloc`log, tablet.alloc`trace, tablet.alloc`w, tablet.alloc`table,
             tablet.alloc`lists, tablet.alloc`blocks, tablet.alloc.mem, tablet.alloc`before
    ensures resp.status != Aborted ==>
      && tablet.Valid() && tablet.alloc.before == old(tablet.alloc.mem[..]) &&
        |tablet.alloc.trace.spots| <= NUM_SCATTERS
      && (resp, HashChains.Contents(tablet.t)) == Answer(HashChains.Contents(old(tablet.t)), r)
    ensures r.Get? || r.Del? ==> resp.status != Aborted
    ensures resp.status == Aborted <==> Refused(old(tablet.alloc.blocks), old(tablet.alloc.lists), old(tablet.t), r)
    ensures old(tablet.alloc.ListsExact()) ==>
      (resp.status == Aborted <==> Full(old(tablet.alloc.blocks), old(tablet.t), r))
    ensures resp.status == Aborted ==>
      && tablet.Rep() && tablet.alloc.blocks == Searched(old(tablet.alloc.blocks), old(tablet.t), r)
      && tablet.alloc.lists == SearchedLists(old(tablet.alloc.blocks), old(tablet.alloc.lists), old(tablet.t), r)
  {
    hide HashChains.Contents, BucketOf, TableOk, NoRoom, Available, InPlace, Shortened, Inserted, FirstIn, Need,
      NoHead, AvailableLists, FreeLists.Exact;
    match r
    case Put(hash, key, val) =>
      var status := tablet.Put(hash, key, val);
      resp := Response(status, []);
    case Add(hash, key, val) =>
      var status := tablet.Add(hash, key, val);
      resp := Response(status, []);
    case Get(hash, key) =>
      tablet.Begin();
      var status, val := tablet.Get(hash, key);
      resp := Response(status, val);
    case Del(hash, key) =>
      var status := tablet.Del(hash, key);
      resp := Response(status, []);
  }

  /** One round of a worker's loop. */
  method ServeOne(tablet: Tablet, backups: seq<array<Byte>>, r: Request, ghost s: System, ghost steps: seq<Step>)
    returns (resp: Response, ghost round: seq<Step>)
    requires tablet.Valid() && Distinct(backups, tablet.alloc.mem) && Acceptable(r)
    requires forall k :: 0 <= k < |backups| ==> backups[k][..] == tablet.alloc.mem[..]
    requires CanRun(s, steps) && Final(s, steps) == Idle(tablet.alloc.mem[..], ImagesOf(backups))
    modifies tablet, tablet.alloc, tablet.alloc.mem, backups
    ensures r.Get? || r.Del? ==> resp.status != Aborted
    ensures resp.status == Aborted <==> Refused(old(tablet.alloc.blocks), old(tablet.alloc.lists), old(tablet.t), r)
    ensures old(tablet.alloc.ListsExact()) ==>
      (resp.status == Aborted <==> Full(old(tablet.alloc.blocks), old(tablet.t), r))
    ensures resp.status == Aborted ==>
      && ImagesOf(backups) == old(ImagesOf(backups)) && (r.Put? || r.Add?)
      && Exhausted(old(tablet.alloc.blocks), old(tablet.alloc.lists), NeedOf(r))
      && Exhausted(tablet.alloc.blocks, tablet.alloc.lists, NeedOf(r))
    ensures resp.status != Aborted ==>
      && tablet.Valid() && (resp, HashChains.Contents(tablet.t)) == Answer(HashChains.Contents(old(tablet.t)), r)
      && (forall k :: 0 <= k < |backups| ==> backups[k][..] == tablet.alloc.mem[..])
      && CanRun(s, steps + round) && Final(s, steps + round) == Idle(tablet.alloc.mem[..], ImagesOf(backups))
      && OneRound(round)
  {
    hide HashChains.Contents, BucketOf, TableOk, Answer, Refused, Full, Searched, SearchedLists, CanRun, Final,
      NoRoom, NoHead, Exhausted, FreeLists.Exact;
    ghost var images := ImagesOf(backups);
    if Refused(tablet.alloc.blocks, tablet.alloc.lists, tablet.t, r) {
      RefusedBefore(tablet, r);
    }
    ghost var b, l, t := tablet.alloc.blocks, tablet.alloc.lists, tablet.t;
    resp := Execute(tablet, r);
    assert ImagesOf(backups) == images;
    round := [];
    if resp.status == Aborted {
      RefusedAfter(tablet, b, l, t, r);
    } else {
      round := Sync(tablet.alloc, backups, s, steps);
    }
  }

  /** No list is headed by a block of `need` bytes; unless a list is orphaned there is no such free block at all. */
  ghost predicate Exhausted(b: Blocks, l: FreeLists.Lists, need: nat) {
    NoHead(b, l, need) && (FreeLists.Exact(l, b) ==> NoRoom(b, need))
  }

  lemma ExhaustedIff(w: View, b: Blocks, l: FreeLists.Lists, key: seq<Byte>, val: seq<Byte>)
    requires Consistent(w, b, l) && Need(key, val) <= MAX_BLOCK
    ensures NoHead(b, l, Need(key, val)) ==> Exhausted(b, l, Need(key, val))
  {
    var size := OBJECT + |key| + |val|;
    RoundupUnits(size);
    hide Consistent, FreeLists.Exact, NoRoom, NoHead, UnitsFor;
    RoomInUnits(b, l, size);
    if FreeLists.Exact(l, b) {
      HeadsSuffice(w, b, l, UnitsFor(size), 0);
    }
  }

  /** The image holds an arena with these blocks and lists. */
  ghost predicate Depicts(m: seq<Byte>, b: Blocks, l: FreeLists.Lists) {
    exists w :: Mirrors(m, w) && Consistent(w, b, l)
  }

  /** The image holds an arena with these blocks. */
  ghost predicate Describes(m: seq<Byte>, b: Blocks) {
    exists l :: Depicts(m, b, l)
  }

  lemma DescribesNow(tablet: Tablet)
    requires tablet.Valid()
    ensures Depicts(tablet.alloc.mem[..], tablet.alloc.blocks, tablet.alloc.lists)
    ensures Describes(tablet.alloc.mem[..], tablet.alloc.blocks) && Tiling(tablet.alloc.blocks)
    ensures tablet.alloc.build.guardsNullNext ==> tablet.alloc.ListsExact()
  {
    assert Mirrors(tablet.alloc.mem[..], tablet.alloc.w);
    assert Consistent(tablet.alloc.w, tablet.alloc.blocks, tablet.alloc.lists);
    assert Depicts(tablet.alloc.mem[..], tablet.alloc.blocks, tablet.alloc.lists);
  }

  /** The heads of the lists can be read off the image. */
  lemma DepictsHeads(m: seq<Byte>, b: Blocks, l: FreeLists.Lists, l': FreeLists.Lists)
    requires Depicts(m, b, l) && Depicts(m, b, l')
    ensures l.heads == l'.heads
  {
    var w :| Mirrors(m, w) && Consistent(w, b, l);
    var w' :| Mirrors(m, w') && Consistent(w', b, l');
    forall c | 0 <= c < NUM_LISTS ensures l.heads[c] == l'.heads[c] {
      assert w.slots[c] == SlotWord(m, c) && w'.slots[c] == SlotWord(m, c);
    }
  }

  lemma SameView(m: seq<Byte>, w: View, w': View)
    requires Mirrors(m, w) && Mirrors(m, w')
    ensures w.hdr == w'.hdr
  {
    forall u | 0 <= u <= UNITS ensures w.hdr[u] == w'.hdr[u] {
      assert w.hdr[u] == UnitWord(m, u, 0) && w'.hdr[u] == UnitWord(m, u, 0);
    }
  }

  lemma {:induction false} SameBlock(w: View, b: Blocks, w': View, b': Blocks, x: nat)
    requires Tiling(b) && Tags(w, b) && Tiling(b') && Tags(w', b') && w.hdr == w'.hdr && x in b
    ensures x in b' && b[x] == b'[x]
    decreases x
  {
    assert EndsAtEdge(b, x) && TagsAt(w, b, x, UNITS);
    if x != 0 {
      var y := BlockBefore(b, 0, x);
      assert EndsAtEdge(b, y);
      SameBlock(w, b, w', b', y);
      assert EndsAtEdge(b', y);
    }
    assert TagsAt(w', b', x, UNITS);
  }

  /** An image has one arena: the blocks can be read off its headers. */
  lemma DescribesOne(m: seq<Byte>, b: Blocks, b': Blocks)
    requires Describes(m, b) && Describes(m, b')
    ensures b == b'
  {
    var l :| Depicts(m, b, l);
    var l' :| Depicts(m, b', l');
    var w :| Mirrors(m, w) && Consistent(w, b, l);
    var w' :| Mirrors(m, w') && Consistent(w', b', l');
    SameView(m, w, w');
    hide Mirrors, Tiling, TagsBut, FreeLists.Linked, FreeLists.Stored;
    SameArena(w, b, w', b');
  }

  lemma SameArena(w: View, b: Blocks, w': View, b': Blocks)
    requires Tiling(b) && Tags(w, b) && Tiling(b') && Tags(w', b') && w.hdr == w'.hdr
    ensures b == b'
  {
    hide Tiling, Tags;
    forall x ensures x in b <==> x in b' {
      if x in b {
        SameBlock(w, b, w', b', x);
      }
      if x in b' {
        SameBlock(w', b', w, b, x);
      }
    }
    forall x | x in b ensures b[x] == b'[x] {
      SameBlock(w, b, w', b', x);
    }
  }

  /** A refused request finds no room in the blocks it is executed on. */
  lemma RefusedBefore(tablet: Tablet, r: Request)
    requires tablet.Valid() && Acceptable(r) && Refused(tablet.alloc.blocks, tablet.alloc.lists, tablet.t, r)
    ensures Exhausted(tablet.alloc.blocks, tablet.alloc.lists, NeedOf(r)) && (r.Put? || r.Add?)
  {
    var b, l, t, k := tablet.alloc.blocks, tablet.alloc.lists, tablet.t, KeyFor(r);
    if r.Put? && k in t.owner && t.owner[k] in b {
      OwnedInChain(t, k);
      assert t.owner[k] in Live(b);
      hide NoHead, AfterFreeing, ListsAfterFreeing, Consistent;
      FreeingMakesHeads(tablet.alloc.w, b, l, t.owner[k], NeedOf(r));
    }
    ExhaustedIff(tablet.alloc.w, b, l, r.key, r.val);
  }

  /** Nor in the blocks that it leaves. */
  lemma RefusedAfter(tablet: Tablet, b: Blocks, l: FreeLists.Lists, t: Table, r: Request)
    requires tablet.Rep() && Acceptable(r) && Refused(b, l, t, r)
    requires tablet.alloc.blocks == Searched(b, t, r) && tablet.alloc.lists == SearchedLists(b, l, t, r)
    ensures Exhausted(tablet.alloc.blocks, tablet.alloc.lists, NeedOf(r))
  {
    hide NoHead, Searched, SearchedLists;
    ExhaustedIff(tablet.alloc.w, tablet.alloc.blocks, tablet.alloc.lists, r.key, r.val);
  }

  /** The image holds a tablet with these blocks and this table. */
  ghost predicate HoldsTable(m: seq<Byte>, b: Blocks, t: Table) {
    Describes(m, b) && Holds(m, b, t.heads, t.recs) && TableOk(t) && t.recs.Keys == Live(b)
  }

  /** The image holds a tablet whose table denotes this map. */
  ghost predicate HoldsMap(m: seq<Byte>, c: Contents) {
    exists b, t :: HoldsTable(m, b, t) && HashChains.Contents(t) == c
  }

  lemma HoldsMapNow(tablet: Tablet)
    requires tablet.Valid()
    ensures HoldsMap(tablet.alloc.mem[..], HashChains.Contents(tablet.t))
  {
    DescribesNow(tablet);
    assert HoldsTable(tablet.alloc.mem[..], tablet.alloc.blocks, tablet.t);
  }

  /** When a response is posted: the images, and how many steps of the protocol there have been. */
  datatype Moment = Moment(master: seq<Byte>, backups: seq<seq<Byte>>, steps: nat)

  ghost predicate AllEqual(x: Moment) {
    forall k :: 0 <= k < |x.backups| ==> x.backups[k] == x.master
  }

  /** The master's image when the last response was posted. */
  ghost function LastImage(start: seq<Byte>, moments: seq<Moment>): seq<Byte> {
    if moments == [] then start else moments[|moments| - 1].master
  }

  /**
   Response `i` is a step of the protocol; the state after it is that of the moment, with `n` backups all equal
   to the master, whose image holds the map `c`.
   */
  ghost predicate MomentOk(x: Moment, i: nat, c: Contents, n: nat, s: System, steps: seq<Step>) {
    && AllEqual(x) && |x.backups| == n && HoldsMap(x.master, c)
    && 0 < x.steps <= |steps| && steps[x.steps - 1] == Respond && Answers(steps[..x.steps]) == i + 1
    && CanRun(s, steps[..x.steps]) && Final(s, steps[..x.steps]) == Idle(x.master, x.backups)
  }

  lemma MomentLater(x: Moment, i: nat, c: Contents, n: nat, s: System, steps: seq<Step>, more: seq<Step>)
    requires MomentOk(x, i, c, n, s, steps)
    ensures MomentOk(x, i, c, n, s, steps + more)
  {
    assert (steps + more)[..x.steps] == steps[..x.steps];
    hide CanRun, Final, Answers, HoldsMap, AllEqual;
  }

  lemma MomentNow(x: Moment, i: nat, c: Contents, s: System, steps: seq<Step>, round: seq<Step>)
    requires (forall k :: 0 <= k < |x.backups| ==> x.backups[k] == x.master) && HoldsMap(x.master, c)
    requires x.steps == |steps + round| && OneRound(round) && Answers(steps) == i
    requires CanRun(s, steps + round) && Final(s, steps + round) == Idle(x.master, x.backups)
    ensures MomentOk(x, i, c, |x.backups|, s, steps + round)
  {
    AnswersConcat(steps, round);
    assert (steps + round)[..x.steps] == steps + round;
    hide CanRun, Final, Answers, HoldsMap;
  }

  /**
   The responses so far are those of a map. Each was posted at a moment of the protocol's run, in order, at
   which all images were equal and held the map of that time.
   */
  ghost predicate Served(m: Contents, rs: seq<Request>, responses: seq<Response>, moments: seq<Moment>, n: nat,
                         s: System, steps: seq<Step>)
  {
    && |moments| == |responses| <= |rs| && CanRun(s, steps) && Answers(steps) == |responses|
    && (forall i :: 0 <= i < |responses| ==> responses[i] == AnswerTo(m, rs, i))
    && (forall i :: 0 <= i < |moments| ==> MomentOk(moments[i], i, MapAfter(m, rs, i + 1), n, s, steps))
  }

  lemma ServedMore(m: Contents, rs: seq<Request>, responses: seq<Response>, moments: seq<Moment>, n: nat, s: System,
                   steps: seq<Step>, resp: Response, x: Moment, round: seq<Step>)
    requires Served(m, rs, responses, moments, n, s, steps) && |responses| < |rs|
    requires resp == AnswerTo(m, rs, |responses|) && CanRun(s, steps + round) && OneRound(round)
    requires MomentOk(x, |responses|, MapAfter(m, rs, |responses| + 1), n, s, steps + round)
    ensures Served(m, rs, responses + [resp], moments + [x], n, s, steps + round)
  {
    hide CanRun, Final, MomentOk, AnswerTo, Answers, MapAfter;
    AnswersConcat(steps, round);
    forall i | 0 <= i < |moments| ensures MomentOk(moments[i], i, MapAfter(m, rs, i + 1), n, s, steps + round) {
      MomentLater(moments[i], i, MapAfter(m, rs, i + 1), n, s, steps, round);
    }
  }

  lemma ServedNone(m: Contents, rs: seq<Request>, n: nat, s: System)
    ensures Served(m, rs, [], [], n, s, []) && CanRun(s, []) && Final(s, []) == s
  {
  }

  lemma IdleSettled(m: seq<Byte>, images: seq<seq<Byte>>)
    requires forall k :: 0 <= k < |images| ==> images[k] == m
    ensures Settled(Idle(m, images))
  {
  }

  /** The next round of a run in which the requests so far have been answered. */
  method ServeNext(tablet: Tablet, backups: seq<array<Byte>>, rs: seq<Request>, ghost m: Contents,
                   responses: seq<Response>, ghost moments: seq<Moment>, ghost s: System, ghost steps: seq<Step>)
    returns (resp: Response, ghost x: Moment, ghost steps': seq<Step>)
    requires Served(m, rs, responses, moments, |backups|, s, steps) && |responses| < |rs|
    requires Acceptable(rs[|responses|]) && Distinct(backups, tablet.alloc.mem)
    requires tablet.Valid() && HashChains.Contents(tablet.t) == MapAfter(m, rs, |responses|)
    requires forall k :: 0 <= k < |backups| ==> backups[k][..] == tablet.alloc.mem[..]
    requires Final(s, steps) == Idle(tablet.alloc.mem[..], ImagesOf(backups))
    modifies tablet, tablet.alloc, tablet.alloc.mem, backups
    ensures resp.status == Aborted ==>
      && steps' == steps && ImagesOf(backups) == old(ImagesOf(backups))
      && (rs[|responses|].Put? || rs[|responses|].Add?)
      && Exhausted(old(tablet.alloc.blocks), old(tablet.alloc.lists), NeedOf(rs[|responses|]))
      && Exhausted(tablet.alloc.blocks, tablet.alloc.lists, NeedOf(rs[|responses|]))
    ensures resp.status != Aborted ==>
      && Served(m, rs, responses + [resp], moments + [x], |backups|, s, steps')
      && tablet.Valid() && HashChains.Contents(tablet.t) == MapAfter(m, rs, |responses| + 1)
      && (forall k :: 0 <= k < |backups| ==> backups[k][..] == tablet.alloc.mem[..])
      && x.master == tablet.alloc.mem[..] && CanRun(s, steps')
      && Final(s, steps') == Idle(tablet.alloc.mem[..], ImagesOf(backups))
  {
    hide HashChains.Contents, BucketOf, TableOk, Answer, Acceptable, Refused, Searched, NoRoom, CanRun, Final, Answers,
      Settled, Idle, HoldsMap, MomentOk, OneRound, Full, Exhausted, FreeLists.Exact;
    steps' := steps;
    ghost var round;
    resp, round := ServeOne(tablet, backups, rs[|responses|], s, steps);
    x := Moment(tablet.alloc.mem[..], ImagesOf(backups), |steps + round|);
    if resp.status != Aborted {
      HoldsMapNow(tablet);
      MomentNow(x, |responses|, MapAfter(m, rs, |responses| + 1), s, steps, round);
      ServedMore(m, rs, responses, moments, |backups|, s, steps, resp, x, round);
      steps' := steps + round;
    }
  }

  /**
   Serve requests one after another until all are served or one runs out of space. Whenever a response
   is posted it is the answer of a plain map, and every backup equals the master byte for byte and holds that
   map: `moments` records the images at those times and where they are in the protocol's run. The worker stops
   early only when no free list is headed by a large enough block, neither in the arena of the last response, whose
   blocks and lists are `full` and `listed`, nor in what the request left; unless a list was orphaned, which the
   guarded build never does, there is then no such free block at all. All of it is one run of the protocol.
   */
  method Serve(tablet: Tablet, backups: seq<array<Byte>>, rs: seq<Request>)
    returns (responses: seq<Response>, ghost moments: seq<Moment>, ghost full: Blocks, ghost listed: FreeLists.Lists,
             ghost steps: seq<Step>)
    requires tablet.Valid() && Distinct(backups, tablet.alloc.mem)
    requires forall k :: 0 <= k < |backups| ==> backups[k][..] == tablet.alloc.mem[..]
    requires forall i :: 0 <= i < |rs| ==> Acceptable(rs[i])
    modifies tablet, tablet.alloc, tablet.alloc.mem, backups
    ensures var s := old(Idle(tablet.alloc.mem[..], ImagesOf(backups)));
      && Settled(s) && Served(HashChains.Contents(old(tablet.t)), rs, responses, moments, |backups|, s, steps)
      && Final(s, steps) == Idle(LastImage(old(tablet.alloc.mem[..]), moments), ImagesOf(backups))
    ensures |responses| < |rs| ==> rs[|responses|].Put? || rs[|responses|].Add?
    ensures |responses| < |rs| ==>
      && Depicts(LastImage(old(tablet.alloc.mem[..]), moments), full, listed)
      && Exhausted(full, listed, NeedOf(rs[|responses|]))
      && Exhausted(tablet.alloc.blocks, tablet.alloc.lists, NeedOf(rs[|responses|]))
    ensures tablet.alloc.build.guardsNullNext ==> FreeLists.Exact(listed, full)
    ensures |responses| == |rs| ==>
      && tablet.Valid() && HashChains.Contents(tablet.t) == MapAfter(HashChains.Contents(old(tablet.t)), rs, |rs|)
      && forall k :: 0 <= k < |backups| ==> backups[k][..] == tablet.alloc.mem[..]
  {
    hide HashChains.Contents, BucketOf, TableOk, Answer, Acceptable, Refused, Searched, NoRoom, Describes, CanRun,
      Final, Settled, Idle, Served, Depicts, Exhausted, FreeLists.Exact;
    ghost var s := Idle(tablet.alloc.mem[..], ImagesOf(backups));
    ghost var m, start := HashChains.Contents(tablet.t), tablet.alloc.mem[..];
    IdleSettled(start, ImagesOf(backups));
    ServedNone(m, rs, |backups|, s);
    responses, moments, full, listed, steps := [], [], tablet.alloc.blocks, tablet.alloc.lists, [];
    DescribesNow(tablet);
    while |responses| < |rs|
      invariant |responses| <= |rs| && CanRun(s, steps)
      invariant Served(m, rs, responses, moments, |backups|, s, steps)
      invariant tablet.Valid() && HashChains.Contents(tablet.t) == MapAfter(m, rs, |responses|)
      invariant forall k :: 0 <= k < |backups| ==> backups[k][..] == tablet.alloc.mem[..]
      invariant LastImage(start, moments) == tablet.alloc.mem[..]
      invariant Final(s, steps) == Idle(tablet.alloc.mem[..], ImagesOf(backups))
      invariant tablet.alloc.build.guardsNullNext ==> FreeLists.Exact(listed, full)
      decreases |rs| - |responses|
    {
      DescribesNow(tablet);
      full, listed := tablet.alloc.blocks, tablet.alloc.lists;
      var resp;
      ghost var x;
      resp, x, steps := ServeNext(tablet, backups, rs, m, responses, moments, s, steps);
      if resp.status == Aborted {
        return;
      }
      responses, moments := responses + [resp], moments + [x];
    }
  }
}
