/** How many ranges can be left after merging: at most one per place the stores were made. */
module Scatter {
  import opened Modifications
  import opened Merging

  /** A logged entry that opens the range `o` and starts within reach of its site. */
  ghost predicate Opens(log: seq<Modification>, sites: seq<nat>, o: Modification, k: nat) {
    k < |log| == |sites| && log[k].des == o.des && sites[k] <= o.des <= sites[k] + 16
  }

  lemma RangesApart(out: seq<Modification>, i: nat, j: nat)
    requires Separated(out) && i < j < |out|
    ensures EndOf(out[i]) + GAP < out[j].des
  {
  }

  /** An entry that ends where a range starts is empty. */
  lemma EndsAtStart(p: Modification, out: seq<Modification>, x: nat)
    requires Separated(out) && x < |out| && ContainedAt(p, out) && EndOf(p) == out[x].des
    ensures p.des == out[x].des
  {
    var y: nat :| y < |out| && Inside(p, out[y]);
    hide Separated;
    if y < x {
      RangesApart(out, y, x);
    } else if x < y {
      RangesApart(out, x, y);
    }
  }

  /** Every merged range is opened by an entry that starts within reach of its site. */
  lemma OpenerExists(log: seq<Modification>, sites: seq<nat>, out: seq<Modification>, base: nat, x: nat)
    returns (k: nat)
    requires SitesOk(log, sites) && Merged(log, out, base) && x < |out|
    ensures Opens(log, sites, out[x], k)
  {
    assert GoodRange(out[x], log, base);
    k :| 0 <= k < |log| && log[k].des == out[x].des;
    assert SiteOk(log, sites, k);
    if k > 0 && EndOf(log[k - 1]) == out[x].des {
      assert ContainedAt(log[k - 1], out);
      EndsAtStart(log[k - 1], out, x);
    }
  }

  lemma SitesDiffer(log: seq<Modification>, sites: seq<nat>, out: seq<Modification>, x: nat, k: nat, y: nat, l: nat)
    requires Separated(out) && x < y < |out| && Opens(log, sites, out[x], k) && Opens(log, sites, out[y], l)
    ensures sites[k] != sites[l]
  {
    assert EndOf(out[x]) + GAP < out[y].des;
  }

  ghost predicate Openers(log: seq<Modification>, sites: seq<nat>, out: seq<Modification>, n: nat, ks: seq<nat>) {
    |ks| == n <= |out| && forall x :: 0 <= x < n ==> Opens(log, sites, out[x], ks[x])
  }

  lemma {:induction false} OpenersExist(log: seq<Modification>, sites: seq<nat>, out: seq<Modification>, base: nat,
                                        n: nat) returns (ks: seq<nat>)
    requires SitesOk(log, sites) && Merged(log, out, base) && n <= |out|
    ensures Openers(log, sites, out, n, ks)
  {
    if n == 0 {
      ks := [];
    } else {
      ks := OpenersExist(log, sites, out, base, n - 1);
      var k := OpenerExists(log, sites, out, base, n - 1);
      ks := ks + [k];
    }
  }

  /** Distinct members of a set are no more than the set has. */
  lemma {:induction false} DistinctFit(s: seq<nat>, spots: set<nat>)
    requires forall i :: 0 <= i < |s| ==> s[i] in spots
    requires forall i, j :: 0 <= i < j < |s| ==> s[i] != s[j]
    ensures |s| <= |spots|
  {
    if s != [] {
      var n := |s| - 1;
      DistinctFit(s[..n], spots - {s[n]});
    }
  }

  /** After merging there is at most one range per spot. */
  lemma RangesBound(log: seq<Modification>, sites: seq<nat>, spots: set<nat>, out: seq<Modification>, base: nat)
    requires SitesOk(log, sites) && (forall k :: 0 <= k < |sites| ==> sites[k] in spots) && Merged(log, out, base)
    ensures |out| <= |spots|
  {
    var ks := OpenersExist(log, sites, out, base, |out|);
    var at := seq(|out|, x requires 0 <= x < |out| && Openers(log, sites, out, |out|, ks) => sites[ks[x]]);
    forall i, j | 0 <= i < j < |at| ensures at[i] != at[j] {
      SitesDiffer(log, sites, out, i, ks[i], j, ks[j]);
    }
    DistinctFit(at, spots);
  }
}
