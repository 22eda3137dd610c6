/**
 Delta replication: the ranges left after merging are shipped as remote writes, read from the
 master's image when they are posted and applied in order by each backup.
 */
module Replication {
  import opened Bytes
  import opened Modifications
  import opened Merging

  /** A remote write on its way to a backup. */
  datatype Posted = Posted(des: nat, data: seq<Byte>)

  ghost predicate InImage(r: Modification, base: nat, size: nat) {
    r.src == base + r.des && EndOf(r) <= size
  }

  ghost predicate AllInImage(rs: seq<Modification>, base: nat, size: nat) {
    forall k :: 0 <= k < |rs| ==> InImage(rs[k], base, size)
  }

  /** The write posted for a range: `len` bytes at address `src`, to offset `des`. */
  function Post(r: Modification, image: seq<Byte>, base: nat): Posted
    requires InImage(r, base, |image|)
  {
    Posted(r.des, image[r.src - base..r.src - base + r.len])
  }

  function Posts(rs: seq<Modification>, image: seq<Byte>, base: nat): (ps: seq<Posted>)
    requires AllInImage(rs, base, |image|)
    ensures |ps| == |rs|
  {
    if rs == [] then [] else [Post(rs[0], image, base)] + Posts(rs[1..], image, base)
  }

  ghost predicate Fits(q: seq<Posted>, size: nat) {
    forall k :: 0 <= k < |q| ==> q[k].des + |q[k].data| <= size
  }

  /** An image after the writes of a queue have been applied in order. */
  ghost function Apply(image: seq<Byte>, q: seq<Posted>): (r: seq<Byte>)
    requires Fits(q, |image|)
    ensures |r| == |image|
    decreases |q|
  {
    if q == [] then image else Apply(Splice(image, q[0].des, q[0].data), q[1..])
  }

  lemma LoggedCons(r: Modification, rs: seq<Modification>, i: int)
    ensures Logged([r] + rs, i) <==> Covers(r, i) || Logged(rs, i)
  {
    if Logged([r] + rs, i) {
      var k :| 0 <= k < |[r] + rs| && Covers(([r] + rs)[k], i);
      assert k > 0 ==> Covers(rs[k - 1], i);
    }
    if Logged(rs, i) {
      var k :| 0 <= k < |rs| && Covers(rs[k], i);
      assert ([r] + rs)[k + 1] == rs[k];
    }
    assert ([r] + rs)[0] == r;
  }

  lemma {:induction false} PostsFit(rs: seq<Modification>, image: seq<Byte>, base: nat)
    requires AllInImage(rs, base, |image|)
    ensures Fits(Posts(rs, image, base), |image|)
  {
    if rs != [] {
      PostsFit(rs[1..], image, base);
      assert InImage(rs[0], base, |image|);
    }
  }

  /** Applying the posted ranges copies exactly the bytes they cover. */
  lemma {:induction false} ApplyPosts(b: seq<Byte>, rs: seq<Modification>, image: seq<Byte>, base: nat)
    requires |b| == |image| && AllInImage(rs, base, |image|)
    ensures Fits(Posts(rs, image, base), |b|)
    ensures forall i :: 0 <= i < |b| ==> Apply(b, Posts(rs, image, base))[i] == if Logged(rs, i) then image[i] else b[i]
    decreases |rs|
  {
    PostsFit(rs, image, base);
    if rs != [] {
      var r := rs[0];
      assert InImage(r, base, |image|) && [r] + rs[1..] == rs;
      var b' := Splice(b, r.des, image[r.des..r.des + r.len]);
      ApplyPosts(b', rs[1..], image, base);
      var ps := Posts(rs, image, base);
      assert ps[1..] == Posts(rs[1..], image, base) && ps[0] == Post(r, image, base);
      forall i | 0 <= i < |b| ensures Apply(b, ps)[i] == if Logged(rs, i) then image[i] else b[i] {
        LoggedCons(r, rs[1..], i);
      }
    }
  }

  /** Merged ranges cover every logged byte and stay inside the image. */
  lemma MergedCovers(log: seq<Modification>, out: seq<Modification>, base: nat, size: nat)
    requires Merged(log, out, base) && forall k :: 0 <= k < |log| ==> EndOf(log[k]) <= size
    ensures AllInImage(out, base, size)
    ensures forall i :: Logged(log, i) ==> Logged(out, i)
  {
    forall k | 0 <= k < |out| ensures InImage(out[k], base, size) {
      assert GoodRange(out[k], log, base);
    }
    forall i | Logged(log, i) ensures Logged(out, i) {
      var k :| 0 <= k < |log| && Covers(log[k], i);
      assert ContainedAt(log[k], out);
      var x :| 0 <= x < |out| && Inside(log[k], out[x]);
      assert Covers(out[x], i);
    }
  }

  /**
   Delta replication: if the log accounts for every change from the old image to the new one, then
   shipping the merged ranges turns the old image into the new one.
   */
  lemma ReplayRestores(m: seq<Byte>, m': seq<Byte>, log: seq<Modification>, out: seq<Modification>, base: nat)
    requires Sound(m, m', log) && Merged(log, out, base) && forall k :: 0 <= k < |log| ==> EndOf(log[k]) <= |m'|
    ensures AllInImage(out, base, |m'|) && Fits(Posts(out, m', base), |m|)
    ensures Apply(m, Posts(out, m', base)) == m'
  {
    MergedCovers(log, out, base, |m'|);
    ApplyPosts(m, out, m', base);
  }

  /** An image after some of the ranges have arrived: their bytes are new, all others are old. */
  ghost predicate Patched(m: seq<Byte>, m': seq<Byte>, rs: seq<Modification>, r: seq<Byte>) {
    && |m| == |m'| == |r|
    && (forall i :: 0 <= i < |m| ==> r[i] == if Logged(rs, i) then m'[i] else m[i])
  }

  /** What a backup is left with when only the first `n` ranges are posted. */
  lemma PrefixPatches(m: seq<Byte>, m': seq<Byte>, out: seq<Modification>, base: nat, n: nat)
    requires |m| == |m'| && n <= |out| && AllInImage(out, base, |m'|)
    ensures AllInImage(out[..n], base, |m'|) && Fits(Posts(out[..n], m', base), |m|)
    ensures Patched(m, m', out[..n], Apply(m, Posts(out[..n], m', base)))
  {
    ApplyPosts(m, out[..n], m', base);
  }

  // The protocol over whole runs

  /** A worker's tablet and its backups: images, and the remote writes still on their way to each. */
  datatype System = System(master: seq<Byte>, images: seq<seq<Byte>>, queues: seq<seq<Posted>>, syncing: bool)

  /**
   One step: the master executes a request, changing its image as its log says, and posts the merged
   ranges to every backup; a backup applies the oldest write queued for it; or, when the last
   completion of every queue pair is in, the worker posts its response.
   */
  datatype Step =
    | Execute(image: seq<Byte>, log: seq<Modification>, ranges: seq<Modification>, base: nat)
    | Deliver(k: nat)
    | Respond

  ghost predicate Enabled(s: System, step: Step) {
    match step
    case Execute(image, log, ranges, base) =>
      && !s.syncing && Sound(s.master, image, log) && Merged(log, ranges, base)
      && (forall k :: 0 <= k < |log| ==> EndOf(log[k]) <= |image|)
      && AllInImage(ranges, base, |image|)
    case Deliver(k) =>
      && k < |s.queues| && k < |s.images| && s.queues[k] != []
      && s.queues[k][0].des + |s.queues[k][0].data| <= |s.images[k]|
    case Respond =>
      s.syncing && forall k :: 0 <= k < |s.queues| ==> s.queues[k] == []
  }

  ghost function After(s: System, step: Step): System
    requires Enabled(s, step)
  {
    match step
    case Execute(image, log, ranges, base) =>
      System(image, s.images, seq(|s.queues|,
        k requires 0 <= k < |s.queues| => s.queues[k] + Posts(ranges, image, base)), true)
    case Deliver(k) =>
      var w := s.queues[k][0];
      s.(images := s.images[k := Splice(s.images[k], w.des, w.data)], queues := s.queues[k := s.queues[k][1..]])
    case Respond => s.(syncing := false)
  }

  ghost predicate Replicated(s: System) {
    forall k :: 0 <= k < |s.images| ==> s.images[k] == s.master
  }

  /** Once its queue drains, backup `k` will equal the master. */
  ghost predicate Converging(s: System, k: nat)
    requires k < |s.images| && k < |s.queues|
  {
    Fits(s.queues[k], |s.images[k]|) && Apply(s.images[k], s.queues[k]) == s.master
  }

  ghost predicate Inv(s: System) {
    && |s.images| == |s.queues|
    && (forall k {:trigger Converging(s, k)} :: 0 <= k < |s.images| ==> Converging(s, k))
    && (!s.syncing ==> forall k :: 0 <= k < |s.queues| ==> s.queues[k] == [])
  }

  lemma DeliverKeeps(s: System, j: nat, k: nat)
    requires Inv(s) && Enabled(s, Deliver(j)) && k < |s.images|
    ensures Converging(After(s, Deliver(j)), k)
  {
    assert Converging(s, k);
  }

  lemma ExecuteKeeps(s: System, step: Step, k: nat)
    requires Inv(s) && step.Execute? && Enabled(s, step) && k < |s.images|
    ensures Converging(After(s, step), k)
  {
    assert Converging(s, k);
    ReplayRestores(s.master, step.image, step.log, step.ranges, step.base);
    assert s.queues[k] + Posts(step.ranges, step.image, step.base) == Posts(step.ranges, step.image, step.base);
  }

  /** Every step keeps the invariant, and a response is posted only when all images are equal. */
  lemma StepKeeps(s: System, step: Step)
    requires Inv(s) && Enabled(s, step)
    ensures Inv(After(s, step))
    ensures step == Respond ==> Replicated(s) && Replicated(After(s, step))
  {
    var s' := After(s, step);
    forall k | 0 <= k < |s'.images| ensures Converging(s', k) && (step == Respond ==> s.images[k] == s.master) {
      match step
      case Execute(_, _, _, _) => ExecuteKeeps(s, step, k);
      case Deliver(j) => DeliverKeeps(s, j, k);
      case Respond => assert Converging(s, k);
    }
  }

  /** The steps can be taken one after another from `s`, each where it is enabled. */
  ghost predicate CanRun(s: System, steps: seq<Step>)
    decreases |steps|, 0
  {
    steps == [] ||
    var n := |steps| - 1;
    CanRun(s, steps[..n]) && Enabled(Final(s, steps[..n]), steps[n])
  }

  /** The state that the steps lead to. */
  ghost function Final(s: System, steps: seq<Step>): System
    requires CanRun(s, steps)
    decreases |steps|, 1
  {
    if steps == [] then s else After(Final(s, steps[..|steps| - 1]), steps[|steps| - 1])
  }

  lemma RunMore(s: System, steps: seq<Step>, step: Step)
    requires CanRun(s, steps) && Enabled(Final(s, steps), step)
    ensures CanRun(s, steps + [step]) && Final(s, steps + [step]) == After(Final(s, steps), step)
  {
    assert (steps + [step])[..|steps|] == steps;
  }

  lemma {:induction false} RunConcat(s: System, steps: seq<Step>, more: seq<Step>)
    requires CanRun(s, steps) && CanRun(Final(s, steps), more)
    ensures CanRun(s, steps + more) && Final(s, steps + more) == Final(Final(s, steps), more)
    decreases |more|
  {
    hide Enabled, After;
    if more == [] {
      assert steps + more == steps;
    } else {
      var n := |more| - 1;
      RunConcat(s, steps, more[..n]);
      RunMore(s, steps + more[..n], more[n]);
      assert steps + more == steps + more[..n] + [more[n]];
    }
  }

  lemma {:induction false} PrefixRuns(s: System, steps: seq<Step>, i: nat)
    requires CanRun(s, steps) && i <= |steps|
    ensures CanRun(s, steps[..i]) && (i < |steps| ==> Enabled(Final(s, steps[..i]), steps[i]))
    decreases |steps|
  {
    if i == |steps| {
      assert steps[..i] == steps;
    } else if i < |steps| - 1 {
      var n := |steps| - 1;
      PrefixRuns(s, steps[..n], i);
      assert steps[..n][..i] == steps[..i];
    }
  }

  lemma {:induction false} RunKeeps(s: System, steps: seq<Step>)
    requires CanRun(s, steps) && Inv(s)
    ensures Inv(Final(s, steps))
    decreases |steps|
  {
    if steps != [] {
      var n := |steps| - 1;
      RunKeeps(s, steps[..n]);
      StepKeeps(Final(s, steps[..n]), steps[n]);
    }
  }

  /** Equal images and nothing on its way. */
  ghost predicate Settled(s: System) {
    && |s.images| == |s.queues| && !s.syncing && Replicated(s)
    && (forall k :: 0 <= k < |s.queues| ==> s.queues[k] == [])
  }

  /**
   Safety over whole runs: from equal images and empty queues, for every sequence of requests and
   every in-order delivery of the posted writes, whenever a response is posted every backup image
   equals the master image byte for byte.
   */
  lemma RespondsReplicated(s: System, steps: seq<Step>, i: nat)
    requires CanRun(s, steps) && Settled(s) && i < |steps| && steps[i] == Respond
    ensures CanRun(s, steps[..i]) && Replicated(Final(s, steps[..i]))
  {
    forall k | 0 <= k < |s.images| ensures Converging(s, k) {
      assert s.queues[k] == [];
    }
    PrefixRuns(s, steps, i);
    RunKeeps(s, steps[..i]);
    StepKeeps(Final(s, steps[..i]), steps[i]);
  }
}
