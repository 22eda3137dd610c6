/** Sorting and merging the write log into a few ranges before it is shipped. */
module Merging {
  import opened Bytes
  import opened Modifications

  const GAP: nat := 16

  function EndOf(m: Modification): nat { m.des + m.len }

  ghost predicate Sorted(s: seq<Modification>) {
    forall i, j :: 0 <= i < j < |s| ==> s[i].des <= s[j].des
  }

  /** Ranges in order with more than a gap between any two. */
  ghost predicate Separated(out: seq<Modification>) {
    forall i, j :: 0 <= i < j < |out| ==> EndOf(out[i]) + GAP < out[j].des
  }

  ghost predicate Inside(x: Modification, o: Modification) {
    o.des <= x.des && EndOf(x) <= EndOf(o)
  }

  ghost predicate ContainedAt(x: Modification, out: seq<Modification>) {
    exists k :: 0 <= k < |out| && Inside(x, out[k])
  }

  /** The range starts where some entry starts and ends where some entry ends. */
  ghost predicate Anchored(o: Modification, log: seq<Modification>) {
    && (exists k :: 0 <= k < |log| && log[k].des == o.des)
    && (exists k :: 0 <= k < |log| && EndOf(log[k]) == EndOf(o))
  }

  /** Byte `i` lies between the end of one entry and the start of another, at most a gap apart. */
  ghost predicate InGap(log: seq<Modification>, i: int) {
    exists k, k' :: 0 <= k < |log| && 0 <= k' < |log| && EndOf(log[k]) <= i < log[k'].des <= EndOf(log[k]) + GAP
  }

  ghost predicate OnlyGaps(o: Modification, log: seq<Modification>) {
    forall i {:trigger Covers(o, i)} :: Covers(o, i) ==> Logged(log, i) || InGap(log, i)
  }

  /** An output range: addressed like the entries, anchored in them, and covering only them and small gaps. */
  ghost predicate GoodRange(o: Modification, log: seq<Modification>, base: nat) {
    o.src == base + o.des && Anchored(o, log) && OnlyGaps(o, log)
  }

  /** What merging promises about its output. */
  ghost predicate Merged(log: seq<Modification>, out: seq<Modification>, base: nat) {
    && Separated(out)
    && (forall k {:trigger ContainedAt(log[k], out)} :: 0 <= k < |log| ==> ContainedAt(log[k], out))
    && (forall k {:trigger GoodRange(out[k], log, base)} :: 0 <= k < |out| ==> GoodRange(out[k], log, base))
  }

  lemma AnchoredMore(o: Modification, log: seq<Modification>, e: Modification)
    requires Anchored(o, log)
    ensures Anchored(o, log + [e])
  {
    var k :| 0 <= k < |log| && log[k].des == o.des;
    var k' :| 0 <= k' < |log| && EndOf(log[k']) == EndOf(o);
    assert (log + [e])[k].des == o.des && EndOf((log + [e])[k']) == EndOf(o);
  }

  lemma OnlyGapsMore(o: Modification, log: seq<Modification>, e: Modification)
    requires OnlyGaps(o, log)
    ensures OnlyGaps(o, log + [e])
  {
    forall i | Covers(o, i) ensures Logged(log + [e], i) || InGap(log + [e], i) {
      LoggedMore(log, e, i);
      if !Logged(log, i) {
        var k, k' :| 0 <= k < |log| && 0 <= k' < |log| && EndOf(log[k]) <= i < log[k'].des <= EndOf(log[k]) + GAP;
        assert (log + [e])[k] == log[k] && (log + [e])[k'] == log[k'];
      }
    }
  }

  lemma GoodRangeMore(o: Modification, log: seq<Modification>, e: Modification, base: nat)
    requires GoodRange(o, log, base)
    ensures GoodRange(o, log + [e], base)
  {
    AnchoredMore(o, log, e);
    OnlyGapsMore(o, log, e);
  }

  lemma GoodRangeNew(log: seq<Modification>, e: Modification, base: nat)
    requires e.src == base + e.des
    ensures GoodRange(e, log + [e], base)
  {
    assert (log + [e])[|log|] == e;
    forall i | Covers(e, i) ensures Logged(log + [e], i) {
      LoggedMore(log, e, i);
    }
  }

  /** Entries stay contained when the ranges only grow and more follow. */
  lemma ContainedMore(x: Modification, out: seq<Modification>, out': seq<Modification>)
    requires ContainedAt(x, out) && |out| <= |out'| && forall k :: 0 <= k < |out| ==> Inside(out[k], out'[k])
    ensures ContainedAt(x, out')
  {
    var k :| 0 <= k < |out| && Inside(x, out[k]);
    assert Inside(out[k], out'[k]) && Inside(x, out'[k]);
  }

  /** An entry that starts beyond the gap opens a new range. */
  lemma MergeBreak(log: seq<Modification>, out: seq<Modification>, c: Modification, e: Modification, base: nat)
    requires Merged(log, out + [c], base) && e.src == base + e.des && e.des > EndOf(c) + GAP
    ensures Merged(log + [e], out + [c] + [e], base)
  {
    hide GoodRange, ContainedAt;
    var log', out1, out' := log + [e], out + [c], out + [c] + [e];
    forall i, j | 0 <= i < j < |out'| ensures EndOf(out'[i]) + GAP < out'[j].des {
      assert i < |out| ==> EndOf(out1[i]) + GAP < out1[|out|].des;
    }
    forall k | 0 <= k < |log'| ensures ContainedAt(log'[k], out') {
      if k < |log| {
        assert ContainedAt(log[k], out1);
        ContainedMore(log[k], out1, out');
      } else {
        ContainedLast(e, out1);
      }
    }
    forall k | 0 <= k < |out'| ensures GoodRange(out'[k], log', base) {
      if k < |out1| {
        assert GoodRange(out1[k], log, base);
        GoodRangeMore(out1[k], log, e, base);
      } else {
        GoodRangeNew(log, e, base);
      }
    }
  }

  lemma ContainedLast(e: Modification, out: seq<Modification>)
    ensures ContainedAt(e, out + [e])
  {
    assert Inside(e, (out + [e])[|out|]);
  }

  /** The current range after taking in an entry that starts within the gap. */
  function Extend(c: Modification, e: Modification): Modification
    requires c.des <= e.des
  {
    c.(len := (if EndOf(e) > EndOf(c) then EndOf(e) else EndOf(c)) - c.des)
  }

  lemma ExtendOnlyGaps(log: seq<Modification>, c: Modification, e: Modification)
    requires Anchored(c, log) && OnlyGaps(c, log) && c.des <= e.des <= EndOf(c) + GAP
    ensures Anchored(Extend(c, e), log + [e]) && OnlyGaps(Extend(c, e), log + [e])
  {
    var log', c' := log + [e], Extend(c, e);
    AnchoredMore(c, log, e);
    OnlyGapsMore(c, log, e);
    assert log'[|log|] == e;
    var a :| 0 <= a < |log| && EndOf(log[a]) == EndOf(c);
    assert log'[a] == log[a];
    assert EndOf(c') == EndOf(log'[a]) || EndOf(c') == EndOf(log'[|log|]);
    forall i | Covers(c', i) ensures Logged(log', i) || InGap(log', i) {
      LoggedMore(log, e, i);
      if !Covers(c, i) && !Covers(e, i) {
        assert EndOf(log'[a]) <= i < log'[|log|].des <= EndOf(log'[a]) + GAP;
      }
    }
  }

  lemma MergeExtend(log: seq<Modification>, out: seq<Modification>, c: Modification, e: Modification, base: nat)
    requires Merged(log, out + [c], base) && c.des <= e.des <= EndOf(c) + GAP
    ensures Merged(log + [e], out + [Extend(c, e)], base)
  {
    var c' := Extend(c, e);
    var log', out1, out' := log + [e], out + [c], out + [c'];
    assert GoodRange(out1[|out|], log, base);
    ExtendOnlyGaps(log, c, e);
    assert GoodRange(c', log', base);
    assert Inside(e, c');
    ContainedLast(c', out);
    ContainedIn(e, c', out');
    hide GoodRange, ContainedAt;
    forall i, j | 0 <= i < j < |out'| ensures EndOf(out'[i]) + GAP < out'[j].des {
      assert out'[i] == out1[i] && out'[j].des == out1[j].des;
    }
    forall k | 0 <= k < |log'| ensures ContainedAt(log'[k], out') {
      if k < |log| {
        assert ContainedAt(log[k], out1);
        ContainedMore(log[k], out1, out');
      }
    }
    forall k | 0 <= k < |out'| ensures GoodRange(out'[k], log', base) {
      if k < |out| {
        assert GoodRange(out1[k], log, base);
        GoodRangeMore(out1[k], log, e, base);
      }
    }
  }

  lemma ContainedIn(e: Modification, c: Modification, out: seq<Modification>)
    requires Inside(e, c) && ContainedAt(c, out)
    ensures ContainedAt(e, out)
  {
    var k :| 0 <= k < |out| && Inside(c, out[k]);
    assert Inside(e, out[k]);
  }

  lemma MergeFirst(e: Modification, base: nat)
    requires e.src == base + e.des
    ensures Merged([e], [e], base)
  {
    hide GoodRange, ContainedAt;
    assert [] + [e] == [e];
    GoodRangeNew([], e, base);
    ContainedLast(e, []);
  }

  ghost predicate SameEntries(s: seq<Modification>, s': seq<Modification>) {
    forall x :: x in s <==> x in s'
  }

  lemma GoodRangePermuted(o: Modification, s: seq<Modification>, s': seq<Modification>, base: nat)
    requires GoodRange(o, s, base) && SameEntries(s, s')
    ensures GoodRange(o, s', base)
  {
    var k :| 0 <= k < |s| && s[k].des == o.des;
    assert s[k] in s';
    var l :| 0 <= l < |s| && EndOf(s[l]) == EndOf(o);
    assert s[l] in s';
    forall i | Covers(o, i) ensures Logged(s', i) || InGap(s', i) {
      if Logged(s, i) {
        var x :| 0 <= x < |s| && Covers(s[x], i);
        assert s[x] in s';
      } else {
        var x, y :| 0 <= x < |s| && 0 <= y < |s| && EndOf(s[x]) <= i < s[y].des <= EndOf(s[x]) + GAP;
        assert s[x] in s' && s[y] in s';
        var x' :| 0 <= x' < |s'| && s'[x'] == s[x];
        var y' :| 0 <= y' < |s'| && s'[y'] == s[y];
        assert EndOf(s'[x']) <= i < s'[y'].des <= EndOf(s'[x']) + GAP;
      }
    }
  }

  lemma SameMembers(s: seq<Modification>, s': seq<Modification>)
    requires Permuted(s, s')
    ensures SameEntries(s, s')
  {
    forall x ensures x in s <==> x in s' {
      assert x in s <==> x in multiset(s);
      assert x in s' <==> x in multiset(s');
    }
  }

  /** What merging promises does not depend on the order of the entries. */
  lemma MergedPermuted(s: seq<Modification>, s': seq<Modification>, out: seq<Modification>, base: nat)
    requires Merged(s, out, base) && SameEntries(s, s')
    ensures Merged(s', out, base)
  {
    forall k | 0 <= k < |s'| ensures ContainedAt(s'[k], out) {
      assert s'[k] in s;
      var x :| 0 <= x < |s| && s[x] == s'[k];
      assert ContainedAt(s[x], out);
    }
    forall k | 0 <= k < |out| ensures GoodRange(out[k], s', base) {
      assert GoodRange(out[k], s, base);
      GoodRangePermuted(out[k], s, s', base);
    }
  }

  ghost predicate Permuted(s: seq<Modification>, s': seq<Modification>) {
    multiset(s) == multiset(s')
  }

  lemma PermutedStep(s: seq<Modification>, s': seq<Modification>, t: seq<Modification>)
    requires Permuted(s, s') && Permuted(s', t)
    ensures Permuted(s, t)
  {
  }

  method Swap(a: array<Modification>, i: nat, j: nat)
    requires i < j < a.Length
    modifies a
    ensures a[i] == old(a[j]) && a[j] == old(a[i]) && forall x :: 0 <= x < a.Length && x != i && x != j ==>
      a[x] == old(a[x])
    ensures Permuted(a[..], old(a[..]))
  {
    a[i], a[j] := a[j], a[i];
  }

  /** The first `i` entries are no larger than any after them. */
  ghost predicate Placed(a: array<Modification>, i: nat)
    reads a
  {
    forall x, y :: 0 <= x < i && x < y < a.Length ==> a[x].des <= a[y].des
  }

  /** The inner loop of the exchange sort: the smallest entry from `i` on comes to `i`. */
  method Exchange(a: array<Modification>, i: nat)
    requires i < a.Length && Placed(a, i)
    modifies a
    ensures Placed(a, i + 1) && Permuted(a[..], old(a[..]))
  {
    hide Permuted;
    SelfPermuted(a[..]);
    for j := i + 1 to a.Length
      invariant Placed(a, i) && Permuted(a[..], old(a[..]))
      invariant forall y :: i <= y < j ==> a[i].des <= a[y].des
    {
      if a[j].des < a[i].des {
        ghost var s := a[..];
        Swap(a, i, j);
        PermutedStep(a[..], s, old(a[..]));
      }
    }
  }

  lemma SelfPermuted(s: seq<Modification>)
    ensures Permuted(s, s)
  {
  }

  /** The exchange sort at the start of `MergeModifications`. */
  method SortByOffset(a: array<Modification>)
    modifies a
    ensures Sorted(a[..]) && Permuted(a[..], old(a[..]))
  {
    hide Permuted;
    SelfPermuted(a[..]);
    for i := 0 to a.Length
      invariant Placed(a, i) && Permuted(a[..], old(a[..]))
    {
      ghost var s := a[..];
      Exchange(a, i);
      PermutedStep(a[..], s, old(a[..]));
    }
  }

  /** The range under construction and how many have been written out. */
  datatype Open = Open(i: nat, begin: nat, end: nat, src: nat) {
    predicate Ok() { begin <= end }
    function Range(): Modification requires Ok() { Modification(begin, src, end - begin) }
  }

  /** The body of the merge loop: write the open range out, or extend it. */
  method MergeOne(a: array<Modification>, k: nat, o: Open) returns (o': Open)
    requires k < a.Length && o.Ok() && o.i <= k && o.begin <= a[k].des && (o.i == k ==> a[k].des <= o.end + GAP)
    modifies a
    ensures o'.Ok() && o'.i <= k && o'.begin <= old(a[k]).des
    ensures a[..o'.i] + [o'.Range()] == Next(old(a[..o.i]), o.Range(), old(a[k]))
    ensures forall x :: k <= x < a.Length ==> a[x] == old(a[x])
  {
    var m := a[k];
    if m.des > o.end + GAP {
      a[o.i] := o.Range();
      o' := Open(o.i + 1, m.des, m.des + m.len, m.src);
      assert a[..o'.i] == old(a[..o.i]) + [o.Range()];
      assert o'.Range() == m;
    } else {
      o' := o.(end := if m.des + m.len > o.end then m.des + m.len else o.end);
      assert a[..o'.i] == old(a[..o.i]);
    }
  }

  /** The merge loop of `MergeModifications`, on a sorted log. Output goes over entries already read. */
  method MergeSorted(a: array<Modification>, ghost base: nat) returns (n: nat)
    requires a.Length > 0 && Sorted(a[..]) && forall k :: 0 <= k < a.Length ==> a[k].src == base + a[k].des
    modifies a
    ensures 1 <= n <= a.Length && Merged(old(a[..]), a[..n], base)
  {
    ghost var s := a[..];
    var o := Open(0, a[0].des, a[0].des + a[0].len, a[0].src);
    MergeFirst(s[0], base);
    assert Read(s, 0) == [s[0]] && a[..0] + [o.Range()] == [s[0]];
    hide Merged, Read, Sorted, Next;
    for k := 0 to a.Length
      invariant o.Ok() && o.i <= k && forall x :: k <= x < a.Length ==> a[x] == s[x]
      invariant k == 0 ==> o.begin == s[0].des && o.end == EndOf(s[0])
      invariant k > 0 ==> o.i < k && o.begin <= s[k - 1].des
      invariant Merged(Read(s, k), a[..o.i] + [o.Range()], base)
    {
      if k > 0 {
        InOrder(s, k);
      }
      MergeStep(s, k, a[..o.i], o.Range(), base);
      o := MergeOne(a, k, o);
    }
    a[o.i] := o.Range();
    n := o.i + 1;
    ReadAll(s);
    assert a[..n] == a[..o.i] + [o.Range()];
  }

  /** Sort the log and merge, in place, entries that are at most `GAP` bytes apart. */
  method MergeModifications(a: array<Modification>, ghost base: nat) returns (n: nat)
    requires a.Length > 0 && forall k :: 0 <= k < a.Length ==> a[k].src == base + a[k].des
    modifies a
    ensures 1 <= n <= a.Length && Merged(old(a[..]), a[..n], base)
  {
    hide Merged;
    ghost var log := a[..];
    SortByOffset(a);
    ghost var s := a[..];
    SameMembers(s, log);
    assert forall k :: 0 <= k < |s| ==> s[k].src == base + s[k].des by {
      assert forall k :: 0 <= k < |s| ==> s[k] in log;
    }
    n := MergeSorted(a, base);
    MergedPermuted(s, log, a[..n], base);
  }

  /** The entries the loop has accounted for before iteration `k`: the first is there from the start. */
  ghost function Read(s: seq<Modification>, k: nat): seq<Modification>
    requires k <= |s| && |s| > 0
  {
    s[..if k == 0 then 1 else k]
  }

  lemma ReadAll(s: seq<Modification>)
    requires |s| > 0
    ensures Read(s, |s|) == s
  {
  }

  ghost function Next(out: seq<Modification>, c: Modification, e: Modification): seq<Modification>
    requires c.des <= e.des
  {
    if e.des > EndOf(c) + GAP then out + [c] + [e] else out + [Extend(c, e)]
  }

  lemma InOrder(s: seq<Modification>, k: nat)
    requires Sorted(s) && 0 < k < |s|
    ensures s[k - 1].des <= s[k].des
  {
  }

  /** One step of the merge loop. */
  lemma MergeStep(s: seq<Modification>, k: nat, out: seq<Modification>, c: Modification, base: nat)
    requires k < |s| && Merged(Read(s, k), out + [c], base) && c.des <= s[k].des && s[k].src == base + s[k].des
    requires k == 0 ==> c.des == s[0].des && c.len == s[0].len
    ensures Merged(Read(s, k + 1), Next(out, c, s[k]), base)
  {
    hide Merged;
    if k == 0 {
      assert Extend(c, s[k]) == c;
    } else {
      assert Read(s, k + 1) == Read(s, k) + [s[k]];
      if s[k].des > EndOf(c) + GAP {
        MergeBreak(s[..k], out, c, s[k], base);
      } else {
        MergeExtend(s[..k], out, c, s[k], base);
      }
    }
  }
}
