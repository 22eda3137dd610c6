/** The write log: one entry per store, naming the bytes that were written. */
module Modifications {
  import opened Bytes
  import opened Layout

  datatype Modification = Modification(des: nat, src: nat, len: nat)

  ghost predicate Covers(m: Modification, i: int) {
    m.des <= i < m.des + m.len
  }

  ghost predicate Logged(log: seq<Modification>, i: int) {
    exists k :: 0 <= k < |log| && Covers(log[k], i)
  }

  /** Every byte that differs between the two images lies in a logged range. */
  ghost predicate Sound(m: seq<Byte>, m': seq<Byte>, log: seq<Modification>) {
    && |m| == |m'|
    && (forall i :: 0 <= i < |m| && m[i] != m'[i] ==> Logged(log, i))
  }

  lemma LoggedMore(log: seq<Modification>, e: Modification, i: int)
    ensures Logged(log, i) ==> Logged(log + [e], i)
    ensures Covers(e, i) ==> Logged(log + [e], i)
  {
    if Logged(log, i) {
      var k :| 0 <= k < |log| && Covers(log[k], i);
      assert Covers((log + [e])[k], i);
    }
    assert (log + [e])[|log|] == e;
  }

  lemma SoundStep(m: seq<Byte>, m': seq<Byte>, log: seq<Modification>, o: nat, src: nat, s: seq<Byte>)
    requires Sound(m, m', log) && o + |s| <= |m'|
    ensures Sound(m, Splice(m', o, s), log + [Modification(o, src, |s|)])
  {
    var e := Modification(o, src, |s|);
    forall i | 0 <= i < |m| && m[i] != Splice(m', o, s)[i] ensures Logged(log + [e], i) {
      LoggedMore(log, e, i);
      assert m[i] != m'[i] || Covers(e, i);
    }
  }

  /**
   Entry `k` starts within 16 bytes of its site, or continues the entry before it, which has the
   same site. Entries with one site end up in one merged range.
   */
  ghost predicate SiteOk(log: seq<Modification>, sites: seq<nat>, k: nat)
    requires k < |log| == |sites|
  {
    || sites[k] <= log[k].des <= sites[k] + 16
    || (k > 0 && sites[k] == sites[k - 1] <= log[k - 1].des <= sites[k] + 16
        && log[k].des == log[k - 1].des + log[k - 1].len)
  }

  ghost predicate SitesOk(log: seq<Modification>, sites: seq<nat>) {
    && |log| == |sites|
    && (forall k {:trigger SiteOk(log, sites, k)} :: 0 <= k < |log| ==> SiteOk(log, sites, k))
  }

  lemma SitesStep(log: seq<Modification>, sites: seq<nat>, e: Modification, at: nat)
    requires SitesOk(log, sites)
    requires SiteOk(log + [e], sites + [at], |log|)
    ensures SitesOk(log + [e], sites + [at])
  {
    forall k | 0 <= k < |log + [e]| ensures SiteOk(log + [e], sites + [at], k) {
      assert k < |log| ==> SiteOk(log, sites, k);
    }
  }

  /**
   What the proofs record about the stores: the site of each entry, the set of such places, the
   lowest logged offset (the image size if nothing is logged), and whether offset 0 was accessed.
   */
  datatype Trace = Trace(sites: seq<nat>, spots: set<nat>, low: nat, zero: bool) {
    ghost function Noted(at: nat, o: nat): Trace {
      Trace(sites + [at], spots + {at}, if o < low then o else low, zero || o == 0)
    }
  }

  ghost predicate StartsAt(log: seq<Modification>, o: nat) {
    exists k :: 0 <= k < |log| && log[k].des == o
  }

  ghost predicate EntryOk(e: Modification, base: nat, size: nat) {
    e.src == base + e.des && e.des + e.len <= size && e.len <= MAX_BLOCK
  }

  /**
   The log accounts for every difference between the two images; its entries are short and stay
   inside the image, and each belongs to one of the `spots`.
   */
  ghost predicate Accounts(m: seq<Byte>, m': seq<Byte>, log: seq<Modification>, t: Trace, base: nat) {
    && Sound(m, m', log)
    && SitesOk(log, t.sites) && (forall k :: 0 <= k < |t.sites| ==> t.sites[k] in t.spots)
    && (t.low == IMAGE_SIZE || StartsAt(log, t.low))
    && (forall k :: 0 <= k < |log| ==> EntryOk(log[k], base, |m'|))
  }

  lemma StartsMore(log: seq<Modification>, e: Modification, o: nat)
    ensures StartsAt(log, o) ==> StartsAt(log + [e], o)
    ensures StartsAt(log + [e], e.des)
  {
    if StartsAt(log, o) {
      var k :| 0 <= k < |log| && log[k].des == o;
      assert (log + [e])[k].des == o;
    }
    assert (log + [e])[|log|] == e;
  }

  lemma AccountsStep(m: seq<Byte>, m': seq<Byte>, log: seq<Modification>, t: Trace, base: nat, o: nat, s: seq<Byte>,
                     at: nat)
    requires Accounts(m, m', log, t, base) && o + |s| <= |m'| && |s| <= MAX_BLOCK
    requires SiteOk(log + [Modification(o, base + o, |s|)], t.sites + [at], |log|)
    ensures Accounts(m, Splice(m', o, s), log + [Modification(o, base + o, |s|)], t.Noted(at, o), base)
  {
    var e := Modification(o, base + o, |s|);
    SoundStep(m, m', log, o, base + o, s);
    SitesStep(log, t.sites, e, at);
    StartsMore(log, e, t.low);
    hide Sound, SitesOk, StartsAt;
  }
}
