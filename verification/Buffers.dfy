/**
 The hand-off of receive buffers between the poller and the workers: an intrusive pool and one
 intrusive work queue per worker, all threaded through the same `next` field of the buffers.
 Each lock-protected operation is one atomic step.
 */
module Buffers {
  /** Where a buffer is. */
  datatype Place = InPool | Posted | AtPoller | Queued(worker: nat) | AtWorker(worker: nat)

  /** What the poller does next. */
  datatype Task = Receive | Dispatch | Refill | Post

  ghost predicate Distinct(s: seq<nat>) {
    forall i, j :: 0 <= i < j < |s| ==> s[i] != s[j]
  }

  /** `s` lists the buffers at a place, each once. */
  ghost predicate Lists(owner: seq<Place>, place: Place, s: seq<nat>) {
    && Distinct(s)
    && (forall b: nat {:trigger b in s} :: b in s <==> b < |owner| && owner[b] == place)
  }

  /** Buffers are numbered; one past the last number is the null pointer. */
  function First(s: seq<nat>, none: nat): nat {
    if s == [] then none else s[0]
  }

  /** From `root`, the `next` fields lead through `pool` and end. */
  ghost predicate Stack(next: seq<nat>, root: nat, pool: seq<nat>) {
    && root == First(pool, |next|)
    && (forall i :: 0 <= i < |pool| ==> pool[i] < |next|)
    && (forall i :: 0 <= i < |pool| - 1 ==> next[pool[i]] == pool[i + 1])
    && (pool != [] ==> next[pool[|pool| - 1]] == |next|)
  }

  /** From `head`, the `next` fields lead through `q` to `tail`, whose own `next` means nothing. */
  ghost predicate Queue(next: seq<nat>, head: nat, tail: nat, q: seq<nat>) {
    && head == First(q, |next|)
    && (q != [] ==> tail == q[|q| - 1])
    && (forall i :: 0 <= i < |q| ==> q[i] < |next|)
    && (forall i :: 0 <= i < |q| - 1 ==> next[q[i]] == q[i + 1])
  }

  ghost function Holding(hand: nat, none: nat): seq<nat> {
    if hand < none then [hand] else []
  }

  // How the lists follow a buffer that changes place

  lemma Taken(owner: seq<Place>, place: Place, s: seq<nat>, b: nat, to: Place)
    requires Lists(owner, place, s) && s != [] && b == s[0] && place != to
    ensures b < |owner| && Lists(owner[b := to], place, s[1..])
  {
    TakenAt(owner, place, s, 0, to);
    assert s[..0] + s[0 + 1..] == s[1..];
  }

  lemma TakenAt(owner: seq<Place>, place: Place, s: seq<nat>, k: nat, to: Place)
    requires Lists(owner, place, s) && k < |s| && place != to
    ensures s[k] < |owner| && Lists(owner[s[k] := to], place, s[..k] + s[k + 1..])
  {
    assert s[k] in s;
    var r := s[..k] + s[k + 1..];
    forall b ensures b in r <==> b in s && b != s[k] {
      if b in s && b != s[k] {
        var i :| 0 <= i < |s| && s[i] == b;
        assert r[if i < k then i else i - 1] == b;
      }
    }
  }

  lemma Added(owner: seq<Place>, place: Place, s: seq<nat>, b: nat)
    requires Lists(owner, place, s) && b < |owner| && owner[b] != place
    ensures Lists(owner[b := place], place, s + [b]) && Lists(owner[b := place], place, [b] + s)
  {
    assert b !in s;
    forall x ensures (x in s + [b] <==> x in s || x == b) && (x in [b] + s <==> x in s || x == b) {
    }
  }

  lemma Elsewhere(owner: seq<Place>, place: Place, s: seq<nat>, b: nat, to: Place)
    requires Lists(owner, place, s) && b < |owner| && owner[b] != place && to != place
    ensures Lists(owner[b := to], place, s)
  {
    assert b !in s;
  }

  /** Lists depend only on the `next` fields of their own members. */
  lemma StackFrame(next: seq<nat>, root: nat, pool: seq<nat>, b: nat, v: nat)
    requires Stack(next, root, pool) && b < |next| && b !in pool
    ensures Stack(next[b := v], root, pool)
  {
  }

  lemma QueueFrame(next: seq<nat>, head: nat, tail: nat, q: seq<nat>, b: nat, v: nat)
    requires Queue(next, head, tail, q) && b < |next| && b !in q
    ensures Queue(next[b := v], head, tail, q)
  {
  }

  lemma StackPop(next: seq<nat>, root: nat, pool: seq<nat>)
    requires Stack(next, root, pool) && pool != []
    ensures root < |next| && Stack(next, next[root], pool[1..])
  {
    var rest := pool[1..];
    assert forall i :: 0 <= i < |rest| ==> rest[i] == pool[i + 1];
  }

  lemma StackPush(next: seq<nat>, root: nat, pool: seq<nat>, b: nat)
    requires Stack(next, root, pool) && b < |next| && b !in pool
    ensures Stack(next[b := root], b, [b] + pool)
  {
    var s := [b] + pool;
    assert forall i :: 0 < i < |s| ==> s[i] == pool[i - 1];
  }

  lemma QueuePop(next: seq<nat>, head: nat, tail: nat, q: seq<nat>)
    requires Queue(next, head, tail, q) && q != [] && Distinct(q)
    ensures head == q[0] < |next| && (head == tail <==> |q| == 1)
    ensures Queue(next, if head == tail then |next| else next[head], tail, q[1..])
  {
    var r := q[1..];
    assert forall i :: 0 <= i < |r| - 1 ==> next[r[i]] == r[i + 1];
  }

  /** The new tail's `next` is left as it was, whatever it is. */
  lemma QueuePush(next: seq<nat>, head: nat, tail: nat, q: seq<nat>, b: nat)
    requires Queue(next, head, tail, q) && b < |next| && b !in q && Distinct(q)
    ensures q == [] ==> Queue(next, b, b, [b])
    ensures q != [] ==> tail in q && tail < |next| && Queue(next[tail := b], head, b, q + [b])
  {
    if q != [] {
      var n, r := next[tail := b], q + [b];
      forall i | 0 <= i < |r| - 1 ensures n[r[i]] == r[i + 1] {
        assert i < |q| - 1 ==> q[i] != q[|q| - 1];
      }
    }
  }

  /** A worker's queue and hand. */
  ghost predicate WorkerOk(next: seq<nat>, owner: seq<Place>, w: nat, head: nat, tail: nat, q: seq<nat>, hand: nat) {
    && Queue(next, head, tail, q)
    && Lists(owner, Queued(w), q)
    && Lists(owner, AtWorker(w), Holding(hand, |next|))
  }

  /** A step elsewhere: buffer `b` changes place, and perhaps one `next` field outside the queue changes. */
  lemma WorkerFrame(next: seq<nat>, owner: seq<Place>, w: nat, head: nat, tail: nat, q: seq<nat>, hand: nat,
                    b: nat, to: Place, x: nat, v: nat)
    requires WorkerOk(next, owner, w, head, tail, q, hand) && b < |owner| && x < |next| && x !in q
    requires owner[b] != Queued(w) && owner[b] != AtWorker(w) && to != Queued(w) && to != AtWorker(w)
    ensures WorkerOk(next, owner[b := to], w, head, tail, q, hand)
    ensures WorkerOk(next[x := v], owner[b := to], w, head, tail, q, hand)
  {
    Elsewhere(owner, Queued(w), q, b, to);
    Elsewhere(owner, AtWorker(w), Holding(hand, |next|), b, to);
    QueueFrame(next, head, tail, q, x, v);
  }

  /** Every worker but one. */
  ghost predicate WorkersBut(next: seq<nat>, owner: seq<Place>, heads: seq<nat>, tails: seq<nat>,
                             queues: seq<seq<nat>>, hands: seq<nat>, but: nat) {
    && |heads| == |tails| == |queues| == |hands|
    && (forall w {:trigger WorkerOk(next, owner, w, heads[w], tails[w], queues[w], hands[w])} ::
          0 <= w < |queues| && w != but ==> WorkerOk(next, owner, w, heads[w], tails[w], queues[w], hands[w]))
  }

  lemma WorkersPut(next: seq<nat>, owner: seq<Place>, heads: seq<nat>, tails: seq<nat>, queues: seq<seq<nat>>,
                   hands: seq<nat>, w: nat,
                   heads': seq<nat>, tails': seq<nat>, queues': seq<seq<nat>>, hands': seq<nat>)
    requires WorkersBut(next, owner, heads, tails, queues, hands, w) && w < |queues|
    requires |heads'| == |tails'| == |queues'| == |hands'| == |queues|
    requires heads' == heads[w := heads'[w]] && tails' == tails[w := tails'[w]]
    requires queues' == queues[w := queues'[w]] && hands' == hands[w := hands'[w]]
    requires WorkerOk(next, owner, w, heads'[w], tails'[w], queues'[w], hands'[w])
    ensures WorkersBut(next, owner, heads', tails', queues', hands', |queues|)
  {
    hide WorkerOk;
    forall x | 0 <= x < |queues| ensures WorkerOk(next, owner, x, heads'[x], tails'[x], queues'[x], hands'[x]) {
      if x != w {
        assert heads'[x] == heads[x] && tails'[x] == tails[x] && queues'[x] == queues[x] && hands'[x] == hands[x];
      }
    }
  }

  /** Each queue holds what was enqueued and not yet dequeued, in that order. */
  ghost predicate InOrder(enqueued: seq<seq<nat>>, dequeued: seq<seq<nat>>, queues: seq<seq<nat>>) {
    && |enqueued| == |dequeued| == |queues|
    && (forall w :: 0 <= w < |queues| ==> enqueued[w] == dequeued[w] + queues[w])
  }

  /** No buffer is with a worker that does not exist. */
  ghost predicate Placed(owner: seq<Place>, workers: nat) {
    forall b :: 0 <= b < |owner| && (owner[b].Queued? || owner[b].AtWorker?) ==> owner[b].worker < workers
  }

  lemma NoneAt(owner: seq<Place>, place: Place)
    requires (forall b :: 0 <= b < |owner| ==> owner[b] == InPool) && place != InPool
    ensures Lists(owner, place, [])
  {
  }

  lemma AllIn(owner: seq<Place>, pool: seq<nat>)
    requires forall b :: 0 <= b < |owner| ==> owner[b] == InPool
    requires |pool| == |owner| && forall i :: 0 <= i < |pool| ==> pool[i] == i
    ensures Lists(owner, InPool, pool)
  {
    forall b: nat | b < |owner| ensures b in pool {
      assert pool[b] == b;
    }
  }

  /** One thing an actor does; `k` is the receive that completes, if any, and `id` the tablet its request is for. */
  datatype Event = Poller(k: nat, id: nat) | Worker(w: nat)

  /** What the poller and the workers see of the buffers, and the history of the queues. */
  datatype State = State(pool: seq<nat>, posted: seq<nat>, task: Task, hand: nat, queues: seq<seq<nat>>,
                         hands: seq<nat>, enqueued: seq<seq<nat>>, dequeued: seq<seq<nat>>)

  ghost predicate Sized(s: State, workers: nat) {
    |s.queues| == |s.hands| == |s.enqueued| == |s.dequeued| == workers
  }

  /** The poller's next step: take a completed receive, dispatch it, take a free buffer, or post it. */
  ghost function PollerStep(s: State, n: nat, workers: nat, k: nat, id: nat): State
    requires Sized(s, workers)
  {
    match s.task
    case Receive =>
      if k < |s.posted| then
        s.(posted := s.posted[..k] + s.posted[k + 1..], hand := s.posted[k], task := Dispatch)
      else s.(task := Refill)
    case Dispatch =>
      if workers > 0 then
        var w := id % workers;
        s.(queues := s.queues[w := s.queues[w] + [s.hand]], enqueued := s.enqueued[w := s.enqueued[w] + [s.hand]],
           hand := n, task := Refill)
      else s
    case Refill =>
      if s.pool == [] then s.(task := Receive)
      else s.(pool := s.pool[1..], hand := s.pool[0], task := Post)
    case Post => s.(posted := s.posted + [s.hand], hand := n, task := Receive)
  }

  /** A worker's next step: give back the buffer in hand, or take the oldest of its queue. */
  ghost function WorkerStep(s: State, n: nat, workers: nat, w: nat): State
    requires Sized(s, workers)
  {
    if w >= workers then s
    else if s.hands[w] < n then s.(pool := [s.hands[w]] + s.pool, hands := s.hands[w := n])
    else if s.queues[w] == [] then s.(hands := s.hands[w := n])
    else
      s.(queues := s.queues[w := s.queues[w][1..]], hands := s.hands[w := s.queues[w][0]],
         dequeued := s.dequeued[w := s.dequeued[w] + [s.queues[w][0]]])
  }

  ghost function Step(s: State, n: nat, workers: nat, e: Event): (r: State)
    requires Sized(s, workers)
    ensures Sized(r, workers)
  {
    match e
    case Poller(k, id) => PollerStep(s, n, workers, k, id)
    case Worker(w) => WorkerStep(s, n, workers, w)
  }

  /** The state after the events, in their order. */
  ghost function After(s: State, n: nat, workers: nat, es: seq<Event>): (r: State)
    requires Sized(s, workers)
    ensures Sized(r, workers)
  {
    if es == [] then s else Step(After(s, n, workers, es[..|es| - 1]), n, workers, es[|es| - 1])
  }

  /** The event hands the poller's buffer to worker `w`: the request's tablet has that number modulo the workers. */
  ghost predicate Sends(s: State, workers: nat, e: Event, w: nat) {
    e.Poller? && s.task == Dispatch && workers > 0 && e.id % workers == w
  }

  /** The event makes the idle worker `w` take work. */
  ghost predicate Takes(s: State, n: nat, workers: nat, e: Event, w: nat)
    requires Sized(s, workers)
  {
    e == Worker(w) && w < workers && s.hands[w] >= n && s.queues[w] != []
  }

  /** The buffers in the poller's hand at the events that dispatch to worker `w`. */
  ghost function Sent(s: State, n: nat, workers: nat, es: seq<Event>, w: nat): seq<nat>
    requires Sized(s, workers)
  {
    if es == [] then [] else
      var i := |es| - 1;
      var t := After(s, n, workers, es[..i]);
      Sent(s, n, workers, es[..i], w) + if Sends(t, workers, es[i], w) then [t.hand] else []
  }

  /** The buffers at the front of the queue at the events that make worker `w` take work. */
  ghost function TakenBy(s: State, n: nat, workers: nat, es: seq<Event>, w: nat): seq<nat>
    requires Sized(s, workers)
  {
    if es == [] then [] else
      var i := |es| - 1;
      var t := After(s, n, workers, es[..i]);
      TakenBy(s, n, workers, es[..i], w) + if Takes(t, n, workers, es[i], w) then [t.queues[w][0]] else []
  }

  /** A worker's queue gets exactly the buffers dispatched to it, and gives exactly those it takes, in order. */
  lemma {:induction false} QueueHistory(s: State, n: nat, workers: nat, es: seq<Event>, w: nat)
    requires Sized(s, workers) && w < workers
    ensures After(s, n, workers, es).enqueued[w] == s.enqueued[w] + Sent(s, n, workers, es, w)
    ensures After(s, n, workers, es).dequeued[w] == s.dequeued[w] + TakenBy(s, n, workers, es, w)
  {
    if es != [] {
      QueueHistory(s, n, workers, es[..|es| - 1], w);
    }
  }

  /** Event `i` takes the buffer `b` from the pool to post it. */
  ghost predicate Refills(s: State, n: nat, workers: nat, es: seq<Event>, i: nat, b: nat)
    requires Sized(s, workers)
  {
    && i < |es| && es[i].Poller?
    && var t := After(s, n, workers, es[..i]);
       t.task == Refill && t.pool != [] && t.pool[0] == b
  }

  /** Event `i` adds the buffer `b` to the posted ones. */
  ghost predicate Posts(s: State, n: nat, workers: nat, es: seq<Event>, i: nat, b: nat)
    requires Sized(s, workers)
  {
    && i < |es|
    && After(s, n, workers, es[..i + 1]).posted == After(s, n, workers, es[..i]).posted + [b]
  }

  lemma AfterOne(s: State, n: nat, workers: nat, es: seq<Event>, i: nat)
    requires Sized(s, workers) && i < |es|
    ensures After(s, n, workers, es[..i + 1]) == Step(After(s, n, workers, es[..i]), n, workers, es[i])
  {
    hide Step;
    assert es[..i + 1][..i] == es[..i];
  }

  /** Until the buffer is posted the poller does nothing else. */
  lemma {:induction false} HeldUntilPosted(s: State, n: nat, workers: nat, es: seq<Event>, i: nat, j: nat, b: nat)
    requires Sized(s, workers) && Refills(s, n, workers, es, i, b) && i < j <= |es|
    ensures (exists m: nat :: i < m < j && Posts(s, n, workers, es, m, b)) ||
            (var t := After(s, n, workers, es[..j]); t.task == Post && t.hand == b)
    decreases j
  {
    hide After;
    AfterOne(s, n, workers, es, j - 1);
    if j > i + 1 {
      HeldUntilPosted(s, n, workers, es, i, j - 1, b);
      var t := After(s, n, workers, es[..j - 1]);
      if t.task == Post && t.hand == b && es[j - 1].Poller? {
        assert Posts(s, n, workers, es, j - 1, b);
      }
    }
  }

  /** A buffer taken from the pool is posted before the poller looks for the next receive. */
  lemma RefillPosted(s: State, n: nat, workers: nat, es: seq<Event>, i: nat, j: nat, b: nat)
    requires Sized(s, workers) && Refills(s, n, workers, es, i, b) && i < j <= |es|
    requires After(s, n, workers, es[..j]).task == Receive
    ensures exists m: nat :: i < m < j && Posts(s, n, workers, es, m, b)
  {
    HeldUntilPosted(s, n, workers, es, i, j, b);
  }

  class Server {
    const n: nat
    const workers: nat
    var next: seq<nat>
    var root: nat
    var heads: seq<nat>
    var tails: seq<nat>
    var posted: seq<nat>
    var task: Task
    var hand: nat
    var hands: seq<nat>

    ghost var owner: seq<Place>
    ghost var pool: seq<nat>
    ghost var queues: seq<seq<nat>>
    /** Per worker, the buffers ever enqueued and dequeued. */
    ghost var enqueued: seq<seq<nat>>
    ghost var dequeued: seq<seq<nat>>

    ghost predicate Valid()
      reads this
    {
      && |next| == |owner| == n && |queues| == workers
      && Stack(next, root, pool) && Lists(owner, InPool, pool)
      && Lists(owner, Posted, posted)
      && Lists(owner, AtPoller, Holding(hand, n)) && (hand < n <==> task == Dispatch || task == Post)
      && WorkersBut(next, owner, heads, tails, queues, hands, workers)
      && InOrder(enqueued, dequeued, queues) && Placed(owner, workers)
    }

    /** A pool of `n` buffers in a row, and `workers` empty queues. */
    constructor (n: nat, workers: nat)
      ensures Valid() && this.n == n && this.workers == workers && posted == [] && |pool| == n
      ensures task == Receive && forall w :: 0 <= w < workers ==> enqueued[w] == []
    {
      this.n, this.workers := n, workers;
      next, root := seq(n, i => i + 1), 0;
      heads, tails, hands := seq(workers, _ => n), seq(workers, _ => n), seq(workers, _ => n);
      posted, task, hand := [], Receive, n;
      owner, pool := seq(n, _ => InPool), seq(n, i => i);
      queues, enqueued, dequeued := seq(workers, _ => []), seq(workers, _ => []), seq(workers, _ => []);
      new;
      forall w | 0 <= w < workers ensures WorkerOk(next, owner, w, heads[w], tails[w], queues[w], hands[w]) {
        NoneAt(owner, Queued(w));
        NoneAt(owner, AtWorker(w));
      }
      NoneAt(owner, Posted);
      NoneAt(owner, AtPoller);
      AllIn(owner, pool);
    }

    // The lock-protected operations

    /** Take a buffer from the pool. */
    method Alloc() returns (b: nat)
      requires |next| == n && Stack(next, root, pool)
      modifies this`root, this`pool
      ensures Stack(next, root, pool) && b == First(old(pool), n)
      ensures pool == if old(pool) == [] then [] else old(pool)[1..]
    {
      b := root;
      if root != n {
        StackPop(next, root, pool);
        root, pool := next[root], pool[1..];
      }
    }

    /** Give a buffer back. */
    method Free(b: nat)
      requires |next| == n && Stack(next, root, pool) && b < n && b !in pool
      modifies this`root, this`pool, this`next
      ensures Stack(next, root, pool) && pool == [b] + old(pool) && next == old(next)[b := old(root)]
    {
      StackPush(next, root, pool, b);
      next := next[b := root];
      root, pool := b, [b] + pool;
    }

    /** Append a buffer to a work queue. The buffer's own `next` is not cleared. */
    method Enqueue(w: nat, b: nat)
      requires |next| == n && w < |queues| == |heads| == |tails| && b < n && b !in queues[w]
      requires Queue(next, heads[w], tails[w], queues[w]) && Distinct(queues[w])
      modifies this`next, this`heads, this`tails, this`queues
      ensures |next| == n && |heads| == |tails| == |queues| && queues == old(queues)[w := old(queues[w]) + [b]]
      ensures heads == old(heads)[w := heads[w]] && tails == old(tails)[w := tails[w]]
      ensures Queue(next, heads[w], tails[w], queues[w])
      ensures if old(queues[w]) == [] then next == old(next)
              else old(tails[w]) in old(queues[w]) && old(tails[w]) < n && next == old(next)[old(tails[w]) := b]
    {
      QueuePush(next, heads[w], tails[w], queues[w], b);
      if heads[w] == n {
        tails := tails[w := b];
        heads := heads[w := b];
      } else {
        next := next[tails[w] := b];
        tails := tails[w := b];
      }
      queues := queues[w := queues[w] + [b]];
    }

    /** Take the oldest buffer of a work queue. */
    method Dequeue(w: nat) returns (b: nat)
      requires |next| == n && w < |queues| == |heads| == |tails| && Queue(next, heads[w], tails[w], queues[w]) &&
        Distinct(queues[w])
      modifies this`heads, this`tails, this`queues
      ensures |heads| == |tails| == |queues| && b == First(old(queues[w]), n)
      ensures queues == if old(queues[w]) == [] then old(queues) else old(queues)[w := old(queues[w])[1..]]
      ensures heads == old(heads)[w := heads[w]] && tails == old(tails)[w := tails[w]]
      ensures Queue(next, heads[w], tails[w], queues[w])
    {
      if heads[w] == n {
        b := n;
      } else {
        QueuePop(next, heads[w], tails[w], queues[w]);
        b := heads[w];
        if heads[w] == tails[w] {
          tails := tails[w := n];
          heads := heads[w := n];
        } else {
          heads := heads[w := next[heads[w]]];
        }
        queues := queues[w := queues[w][1..]];
      }
    }

    // The steps of the poller

    /** A posted receive completes, or none has. */
    method TryReceive(k: nat)
      requires Valid() && task == Receive
      modifies this`hand, this`posted, this`task, this`owner
      ensures Valid()
      ensures if k < |old(posted)| then
                task == Dispatch && hand == old(posted)[k] && posted == old(posted)[..k] + old(posted)[k + 1..]
              else task == Refill && posted == old(posted) && hand == old(hand)
    {
      hide Stack, Lists, WorkersBut, InOrder;
      if k < |posted| {
        ghost var b := posted[k];
        TakenAt(owner, Posted, posted, k, AtPoller);
        Listed(owner, Posted, posted, b);
        HandFilled(owner, AtPoller, hand, n, b);
        Moved(this, b, AtPoller, b, next[b], workers);
        assert next[b := next[b]] == next;
        hand, posted, task := posted[k], posted[..k] + posted[k + 1..], Dispatch;
        owner := owner[b := AtPoller];
      } else {
        task := Refill;
      }
    }

    /** Hand the received buffer to a worker. */
    method DispatchTo(w: nat)
      requires Valid() && task == Dispatch && w < workers
      modifies this`next, this`heads, this`tails, this`queues, this`hand, this`task, this`owner, this`enqueued
      ensures Valid() && task == Refill && hand == n && |old(enqueued)| == |old(queues)| == workers
      ensures queues == old(queues)[w := old(queues)[w] + [old(hand)]]
      ensures enqueued == old(enqueued)[w := old(enqueued)[w] + [old(hand)]]
    {
      hide Stack, Lists, WorkersBut, WorkerOk, Queue, Distinct, InOrder;
      ghost var b, to := hand, Queued(w);
      ghost var owner' := owner[b := to];
      ghost var next' := Dispatched(this, w, b);
      OrderAdded(enqueued, dequeued, queues, w, b);
      Enqueue(w, hand);
      WorkerBack(next, owner', w, heads[w], tails[w], queues[w], hands[w]);
      WorkersPut(next, owner', old(heads), old(tails), old(queues), hands, w, heads, tails, queues, hands);
      hand, task, owner := n, Refill, owner';
      enqueued := enqueued[w := enqueued[w] + [b]];
    }

    /** Take a free buffer, if there is one, to post it. */
    method RefillFrom()
      requires Valid() && task == Refill
      modifies this`root, this`pool, this`hand, this`task, this`owner
      ensures Valid() && pool == if old(pool) == [] then [] else old(pool)[1..]
      ensures if old(pool) == [] then task == Receive && hand == old(hand) else task == Post && hand == old(pool)[0]
    {
      hide Stack, Lists, WorkersBut, InOrder;
      if pool != [] {
        ghost var b := pool[0];
        Taken(owner, InPool, pool, b, AtPoller);
        Listed(owner, InPool, pool, b);
        HandFilled(owner, AtPoller, hand, n, b);
        Moved(this, b, AtPoller, b, next[b], workers);
        assert next[b := next[b]] == next;
        owner := owner[b := AtPoller];
      }
      var b := Alloc();
      if b != n {
        hand, task := b, Post;
      } else {
        task := Receive;
      }
    }

    /** Post the buffer in hand to receive the next request. */
    method PostReceive()
      requires Valid() && task == Post
      modifies this`posted, this`hand, this`task, this`owner
      ensures Valid() && task == Receive && hand == n && posted == old(posted) + [old(hand)]
    {
      hide Stack, Lists, WorkersBut, InOrder;
      ghost var b := hand;
      HandEmptied(owner, AtPoller, hand, n, Posted);
      Added(owner, Posted, posted, b);
      Moved(this, b, Posted, b, next[b], workers);
      assert next[b := next[b]] == next;
      posted, hand, task := posted + [hand], n, Receive;
      owner := owner[b := Posted];
    }

    // The steps of a worker

    /** Take the oldest work, if there is any. */
    method TakeWork(w: nat)
      requires Valid() && w < workers && |hands| == workers && hands[w] >= n
      modifies this`heads, this`tails, this`queues, this`hands, this`owner, this`dequeued
      ensures Valid() && |hands| == workers && |old(queues)| == |old(dequeued)| == workers
      ensures hands == old(hands)[w := First(old(queues)[w], n)]
      ensures queues == if old(queues)[w] == [] then old(queues) else old(queues)[w := old(queues)[w][1..]]
      ensures dequeued == if old(queues)[w] == [] then old(dequeued)
        else old(dequeued)[w := old(dequeued)[w] + [hands[w]]]
    {
      hide Stack, Lists, WorkersBut, WorkerOk, Queue, Distinct, InOrder;
      WorkerFacts(next, owner, w, heads, tails, queues, hands, workers);
      OrderTaken(enqueued, dequeued, queues, w);
      ghost var owner' := owner;
      if queues[w] != [] {
        ghost var b := queues[w][0];
        Given(this, w, b);
        owner' := owner[b := AtWorker(w)];
      } else {
        Kept(this, w);
      }
      var b := Dequeue(w);
      hands := hands[w := b];
      WorkerBack(next, owner', w, heads[w], tails[w], queues[w], hands[w]);
      WorkersPut(next, owner', old(heads), old(tails), old(queues), old(hands), w, heads, tails, queues, hands);
      owner := owner';
      if b != n {
        dequeued := dequeued[w := dequeued[w] + [b]];
      }
    }

    /** Give the buffer in hand back to the pool, once the response is posted. */
    method FinishWork(w: nat)
      requires Valid() && w < workers && |hands| == workers && hands[w] < n
      modifies this`next, this`root, this`pool, this`hands, this`owner
      ensures Valid() && hands == old(hands)[w := n] && pool == [old(hands)[w]] + old(pool)
    {
      hide Stack, Lists, WorkersBut, WorkerOk, Queue, Distinct, InOrder;
      ghost var b := hands[w];
      Returned(this, w, b);
      ghost var owner' := owner[b := InPool];
      Free(hands[w]);
      hands := hands[w := n];
      WorkerBack(next, owner', w, heads[w], tails[w], queues[w], hands[w]);
      WorkersPut(next, owner', heads, tails, queues, old(hands), w, heads, tails, queues, hands);
      owner := owner';
    }

    // Whole runs

    /** The poller starts by posting every buffer; none of these allocations fails. */
    method Fill()
      requires Valid() && task == Receive && posted == [] && |pool| == n
      modifies this
      ensures Valid() && task == Receive && |posted| == n && pool == []
      ensures enqueued == old(enqueued) && dequeued == old(dequeued)
    {
      hide Stack, Lists, WorkersBut, InOrder, Placed;
      for i := 0 to n
        invariant Valid() && task == Receive && |pool| == n - i && |posted| == i
        invariant enqueued == old(enqueued) && dequeued == old(dequeued)
      {
        task := Refill;
        RefillFrom();
        assert task == Post;
        PostReceive();
      }
    }

    ghost function Snapshot(): State
      reads this
    {
      State(pool, posted, task, hand, queues, hands, enqueued, dequeued)
    }

    /** One actor moves. */
    method Perform(e: Event)
      requires Valid() && Sized(Snapshot(), workers)
      modifies this
      ensures Valid() && Snapshot() == Step(old(Snapshot()), n, workers, e)
      ensures e.Poller? ==> hands == old(hands) && dequeued == old(dequeued)
      ensures e.Poller? && old(task) != Dispatch ==> queues == old(queues) && enqueued == old(enqueued)
      ensures e.Poller? && old(task) != Refill ==> pool == old(pool)
      ensures e.Poller? && old(task) == Receive ==>
        if e.k < |old(posted)| then
          task == Dispatch && hand == old(posted)[e.k] && posted == old(posted)[..e.k] + old(posted)[e.k + 1..]
        else task == Refill && hand == old(hand) && posted == old(posted)
      ensures e.Poller? && old(task) == Dispatch && workers > 0 ==>
        var w := e.id % workers;
        && task == Refill && hand == n && posted == old(posted)
        && queues == old(queues)[w := old(queues)[w] + [old(hand)]]
        && enqueued == old(enqueued)[w := old(enqueued)[w] + [old(hand)]]
      ensures e.Poller? && old(task) == Refill ==>
        && posted == old(posted)
        && (if old(pool) == [] then task == Receive && pool == [] && hand == old(hand)
            else task == Post && hand == old(pool)[0] && pool == old(pool)[1..])
      ensures e.Poller? && old(task) == Post ==> task == Receive && hand == n && posted == old(posted) + [old(hand)]
      ensures e.Worker? ==> task == old(task) && hand == old(hand) && posted == old(posted) && enqueued == old(enqueued)
      ensures e.Worker? && e.w < workers && old(hands)[e.w] < n ==>
        && pool == [old(hands)[e.w]] + old(pool) && hands == old(hands)[e.w := n]
        && queues == old(queues) && dequeued == old(dequeued)
      ensures e.Worker? && e.w < workers && old(hands)[e.w] >= n && old(queues)[e.w] != [] ==>
        && pool == old(pool) && hands == old(hands)[e.w := old(queues)[e.w][0]]
        && queues == old(queues)[e.w := old(queues)[e.w][1..]]
        && dequeued == old(dequeued)[e.w := old(dequeued)[e.w] + [old(queues)[e.w][0]]]
      ensures e.Worker? && (e.w < workers ==> old(hands)[e.w] >= n && old(queues)[e.w] == []) ==>
        && pool == old(pool) && queues == old(queues) && dequeued == old(dequeued)
        && hands == if e.w < workers then old(hands)[e.w := n] else old(hands)
    {
      hide Stack, Lists, WorkersBut, InOrder, Placed;
      match e
      case Poller(k, id) =>
        match task {
          case Receive => TryReceive(k);
          case Dispatch =>
            if workers > 0 {
              DispatchTo(id % workers);
            }
          case Refill => RefillFrom();
          case Post => PostReceive();
        }
      case Worker(w) =>
        if w < workers {
          if hands[w] < n {
            FinishWork(w);
          } else {
            TakeWork(w);
          }
        }
    }

    /**
     Whichever actor moves next, in whatever order: every run of poller and workers. The events are carried out
     one by one, ownership stays exact, and each worker's queue gets exactly the buffers dispatched to it and gives
     exactly those the worker takes, both in order.
     */
    method Run(schedule: seq<Event>)
      requires Valid()
      modifies this
      ensures Valid() && Sized(old(Snapshot()), workers)
      ensures Snapshot() == After(old(Snapshot()), n, workers, schedule)
      ensures forall w :: 0 <= w < workers ==>
        && enqueued[w] == old(enqueued)[w] + Sent(old(Snapshot()), n, workers, schedule, w)
        && dequeued[w] == old(dequeued)[w] + TakenBy(old(Snapshot()), n, workers, schedule, w)
        && enqueued[w] == dequeued[w] + queues[w]
    {
      hide Stack, Lists, WorkersBut, InOrder, Placed, Step;
      HistoryShape(this);
      ghost var s := Snapshot();
      for i := 0 to |schedule|
        invariant Valid() && Snapshot() == After(s, n, workers, schedule[..i])
      {
        assert schedule[..i + 1][..i] == schedule[..i];
        Perform(schedule[i]);
      }
      assert schedule[..|schedule|] == schedule;
      HistoryShape(this);
      forall w | 0 <= w < workers
        ensures enqueued[w] == s.enqueued[w] + Sent(s, n, workers, schedule, w)
        ensures dequeued[w] == s.dequeued[w] + TakenBy(s, n, workers, schedule, w)
      {
        QueueHistory(s, n, workers, schedule, w);
      }
    }
  }

  lemma HandEmptied(owner: seq<Place>, place: Place, hand: nat, n: nat, to: Place)
    requires hand < n && Lists(owner, place, Holding(hand, n)) && place != to
    ensures hand < |owner| && owner[hand] == place && Lists(owner[hand := to], place, Holding(n, n))
  {
    assert hand in Holding(hand, n);
    TakenAt(owner, place, Holding(hand, n), 0, to);
    assert Holding(hand, n)[..0] + Holding(hand, n)[0 + 1..] == Holding(n, n);
  }

  lemma WorkerFacts(next: seq<nat>, owner: seq<Place>, w: nat, heads: seq<nat>, tails: seq<nat>,
                    queues: seq<seq<nat>>, hands: seq<nat>, but: nat)
    requires WorkersBut(next, owner, heads, tails, queues, hands, but) && w < |queues| && w != but
    ensures |heads| == |tails| == |queues| == |hands|
    ensures Queue(next, heads[w], tails[w], queues[w]) && Distinct(queues[w])
    ensures Lists(owner, Queued(w), queues[w]) && Lists(owner, AtWorker(w), Holding(hands[w], |next|))
  {
    assert WorkerOk(next, owner, w, heads[w], tails[w], queues[w], hands[w]);
  }

  lemma WorkerBack(next: seq<nat>, owner: seq<Place>, w: nat, head: nat, tail: nat, q: seq<nat>, hand: nat)
    requires Queue(next, head, tail, q) && Lists(owner, Queued(w), q) &&
      Lists(owner, AtWorker(w), Holding(hand, |next|))
    ensures WorkerOk(next, owner, w, head, tail, q, hand)
  {
  }

  /** The one `next` field that `Enqueue` writes, and its new value. */
  lemma Relinked(next: seq<nat>, owner: seq<Place>, w: nat, heads: seq<nat>, tails: seq<nat>, queues: seq<seq<nat>>,
                 hands: seq<nat>, b: nat)
    returns (x: nat, v: nat)
    requires WorkersBut(next, owner, heads, tails, queues, hands, |queues|) && w < |queues| == |tails| &&
      b < |next| == |owner|
    ensures x < |next| && (x == b || owner[x] == Queued(w)) && (queues[w] != [] ==> tails[w] < |next|)
    ensures next[x := v] == if queues[w] == [] then next else next[tails[w] := b]
  {
    assert WorkerOk(next, owner, w, heads[w], tails[w], queues[w], hands[w]);
    if queues[w] == [] {
      x, v := b, next[b];
    } else {
      x, v := tails[w], b;
      assert x in queues[w];
    }
  }

  lemma QueueAdded(owner: seq<Place>, w: nat, q: seq<nat>, hand: nat, n: nat, b: nat)
    requires Lists(owner, Queued(w), q) && Lists(owner, AtWorker(w), Holding(hand, n))
    requires b < |owner| && owner[b] != Queued(w) && owner[b] != AtWorker(w)
    ensures b !in q && Lists(owner[b := Queued(w)], Queued(w), q + [b])
    ensures Lists(owner[b := Queued(w)], AtWorker(w), Holding(hand, n))
  {
    Listed(owner, Queued(w), q, b);
    Added(owner, Queued(w), q, b);
    Elsewhere(owner, AtWorker(w), Holding(hand, n), b, Queued(w));
  }

  lemma OrderAdded(enqueued: seq<seq<nat>>, dequeued: seq<seq<nat>>, queues: seq<seq<nat>>, w: nat, b: nat)
    requires InOrder(enqueued, dequeued, queues) && w < |queues|
    ensures |enqueued| == |queues| && InOrder(enqueued[w := enqueued[w] + [b]], dequeued, queues[w := queues[w] + [b]])
  {
  }

  lemma Listed(owner: seq<Place>, place: Place, s: seq<nat>, b: nat)
    requires Lists(owner, place, s)
    ensures b in s <==> b < |owner| && owner[b] == place
  {
  }

  /** What dispatching the poller's buffer to worker `w` keeps. */
  lemma Dispatched(s: Server, w: nat, b: nat) returns (next': seq<nat>)
    requires s.Valid() && w < s.workers && b == s.hand < s.n
    ensures |s.heads| == |s.tails| == |s.hands| == |s.queues| && |next'| == s.n
    ensures Queue(s.next, s.heads[w], s.tails[w], s.queues[w]) && Distinct(s.queues[w]) && b !in s.queues[w]
    ensures if s.queues[w] == [] then next' == s.next else s.tails[w] < s.n && next' == s.next[s.tails[w] := b]
    ensures var owner' := s.owner[b := Queued(w)];
      && WorkersBut(next', owner', s.heads, s.tails, s.queues, s.hands, w)
      && Stack(next', s.root, s.pool) && Lists(owner', InPool, s.pool) && Lists(owner', Posted, s.posted)
      && Lists(owner', AtPoller, Holding(s.n, s.n))
      && Lists(owner', Queued(w), s.queues[w] + [b]) && Lists(owner', AtWorker(w), Holding(s.hands[w], s.n))
  {
    hide Stack, Lists, WorkersBut, WorkerOk, Queue, Distinct, InOrder;
    HandEmptied(s.owner, AtPoller, b, s.n, Queued(w));
    WorkerFacts(s.next, s.owner, w, s.heads, s.tails, s.queues, s.hands, s.workers);
    var x, v := Relinked(s.next, s.owner, w, s.heads, s.tails, s.queues, s.hands, b);
    Moved(s, b, Queued(w), x, v, w);
    QueueAdded(s.owner, w, s.queues[w], s.hands[w], s.n, b);
    next' := s.next[x := v];
  }

  lemma OrderTaken(enqueued: seq<seq<nat>>, dequeued: seq<seq<nat>>, queues: seq<seq<nat>>, w: nat)
    requires InOrder(enqueued, dequeued, queues) && w < |queues|
    ensures |dequeued| == |queues|
    ensures queues[w] != [] ==> InOrder(enqueued, dequeued[w := dequeued[w] + [queues[w][0]]],
      queues[w := queues[w][1..]])
  {
  }

  /** What taking the oldest work of `w` keeps. */
  lemma Given(s: Server, w: nat, b: nat)
    requires s.Valid() && w < s.workers && |s.hands| == s.workers && s.hands[w] >= s.n && s.queues[w] != [] &&
      b == s.queues[w][0]
    ensures |s.heads| == |s.tails| == |s.hands| == |s.queues| && b < s.n
    ensures var owner' := s.owner[b := AtWorker(w)];
      && WorkersBut(s.next, owner', s.heads, s.tails, s.queues, s.hands, w)
      && Stack(s.next, s.root, s.pool) && Lists(owner', InPool, s.pool) && Lists(owner', Posted, s.posted)
      && Lists(owner', AtPoller, Holding(s.hand, s.n))
      && Lists(owner', Queued(w), s.queues[w][1..]) && Lists(owner', AtWorker(w), Holding(b, s.n))
  {
    hide Stack, Lists, WorkersBut, WorkerOk, Queue, Distinct, InOrder;
    WorkerFacts(s.next, s.owner, w, s.heads, s.tails, s.queues, s.hands, s.workers);
    Taken(s.owner, Queued(w), s.queues[w], b, AtWorker(w));
    Listed(s.owner, Queued(w), s.queues[w], b);
    HandFilled(s.owner, AtWorker(w), s.hands[w], s.n, b);
    Moved(s, b, AtWorker(w), b, s.next[b], w);
    assert s.next[b := s.next[b]] == s.next;
  }

  lemma Kept(s: Server, w: nat)
    requires s.Valid()
    ensures WorkersBut(s.next, s.owner, s.heads, s.tails, s.queues, s.hands, w)
  {
    hide WorkerOk;
  }

  lemma Returned(s: Server, w: nat, b: nat)
    requires s.Valid() && w < s.workers && |s.hands| == s.workers && b == s.hands[w] < s.n
    ensures |s.heads| == |s.tails| == |s.hands| == |s.queues| && b !in s.pool
    ensures var next', owner' := s.next[b := s.root], s.owner[b := InPool];
      && WorkersBut(next', owner', s.heads, s.tails, s.queues, s.hands, w)
      && Lists(owner', InPool, [b] + s.pool) && Lists(owner', Posted, s.posted)
      && Lists(owner', AtPoller, Holding(s.hand, s.n))
      && Queue(next', s.heads[w], s.tails[w], s.queues[w])
      && Lists(owner', Queued(w), s.queues[w]) && Lists(owner', AtWorker(w), Holding(s.n, s.n))
  {
    hide Stack, Lists, WorkersBut, WorkerOk, Queue, Distinct, InOrder;
    WorkerFacts(s.next, s.owner, w, s.heads, s.tails, s.queues, s.hands, s.workers);
    HandEmptied(s.owner, AtWorker(w), b, s.n, InPool);
    Listed(s.owner, InPool, s.pool, b);
    Listed(s.owner, Queued(w), s.queues[w], b);
    Added(s.owner, InPool, s.pool, b);
    Elsewhere(s.owner, Queued(w), s.queues[w], b, InPool);
    QueueFrame(s.next, s.heads[w], s.tails[w], s.queues[w], b, s.root);
    Moved(s, b, InPool, b, s.root, w);
  }

  lemma HistoryShape(s: Server)
    requires s.Valid()
    ensures |s.enqueued| == |s.dequeued| == |s.hands| == |s.queues| == s.workers
    ensures forall w :: 0 <= w < s.workers ==> s.enqueued[w] == s.dequeued[w] + s.queues[w]
  {
  }

  /** A buffer is at a place. */
  ghost predicate IsAt(s: Server, b: nat, p: Place)
    reads s
  {
    match p
    case InPool => b in s.pool
    case Posted => b in s.posted
    case AtPoller => s.hand == b
    case Queued(w) => w < |s.queues| && b in s.queues[w]
    case AtWorker(w) => w < |s.hands| && s.hands[w] == b
  }

  /** Every buffer is in exactly one place. */
  lemma OnePlace(s: Server, b: nat)
    requires s.Valid() && b < s.n
    ensures exists p :: IsAt(s, b, p)
    ensures forall p, q :: IsAt(s, b, p) && IsAt(s, b, q) ==> p == q
  {
    forall p ensures IsAt(s, b, p) <==> p == s.owner[b] {
      match p
      case InPool => Listed(s.owner, InPool, s.pool, b);
      case Posted => Listed(s.owner, Posted, s.posted, b);
      case AtPoller => Listed(s.owner, AtPoller, Holding(s.hand, s.n), b);
      case Queued(w) =>
        if w < s.workers {
          WorkerFacts(s.next, s.owner, w, s.heads, s.tails, s.queues, s.hands, s.workers);
          Listed(s.owner, Queued(w), s.queues[w], b);
        }
      case AtWorker(w) =>
        if w < s.workers {
          WorkerFacts(s.next, s.owner, w, s.heads, s.tails, s.queues, s.hands, s.workers);
          Listed(s.owner, AtWorker(w), Holding(s.hands[w], s.n), b);
        }
    }
    assert IsAt(s, b, s.owner[b]);
  }

  /** A buffer put in an empty hand. */
  lemma HandFilled(owner: seq<Place>, place: Place, hand: nat, n: nat, b: nat)
    requires hand >= n && Lists(owner, place, Holding(hand, n)) && b < |owner| && b < n && owner[b] != place
    ensures Lists(owner[b := place], place, Holding(b, n))
  {
    Added(owner, place, Holding(hand, n), b);
    assert Holding(hand, n) + [b] == Holding(b, n);
  }

  ghost predicate Unrelated(from: Place, to: Place, p: Place) { from != p && to != p }

  /** Buffer `b` moves and the `next` field of `x` changes: what every list not concerned keeps. */
  lemma Moved(s: Server, b: nat, to: Place, x: nat, v: nat, but: nat)
    requires s.Valid() && b < s.n && x < s.n && (x == b || s.owner[x] == Queued(but))
    requires forall w :: 0 <= w < s.workers && w != but ==>
      Unrelated(s.owner[b], to, Queued(w)) && Unrelated(s.owner[b], to, AtWorker(w))
    ensures WorkersBut(s.next[x := v], s.owner[b := to], s.heads, s.tails, s.queues, s.hands, but)
    ensures Unrelated(s.owner[b], to, InPool) ==>
      Stack(s.next[x := v], s.root, s.pool) && Lists(s.owner[b := to], InPool, s.pool)
    ensures Unrelated(s.owner[b], to, Posted) ==> Lists(s.owner[b := to], Posted, s.posted)
    ensures Unrelated(s.owner[b], to, AtPoller) ==> Lists(s.owner[b := to], AtPoller, Holding(s.hand, s.n))
  {
    hide WorkerOk, Stack, Lists, Queue;
    forall w | 0 <= w < s.workers && w != but
      ensures WorkerOk(s.next[x := v], s.owner[b := to], w, s.heads[w], s.tails[w], s.queues[w], s.hands[w])
    {
      WorkerFacts(s.next, s.owner, w, s.heads, s.tails, s.queues, s.hands, s.workers);
      Listed(s.owner, Queued(w), s.queues[w], x);
      WorkerFrame(s.next, s.owner, w, s.heads[w], s.tails[w], s.queues[w], s.hands[w], b, to, x, v);
    }
    if Unrelated(s.owner[b], to, InPool) {
      Listed(s.owner, InPool, s.pool, x);
      StackFrame(s.next, s.root, s.pool, x, v);
      Elsewhere(s.owner, InPool, s.pool, b, to);
    }
    if Unrelated(s.owner[b], to, Posted) {
      Elsewhere(s.owner, Posted, s.posted, b, to);
    }
    if Unrelated(s.owner[b], to, AtPoller) {
      Elsewhere(s.owner, AtPoller, Holding(s.hand, s.n), b, to);
    }
  }
}
