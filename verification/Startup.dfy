/** From start-up: a master and its backups are formatted separately and hold the same bytes. */
module Startup {
  import opened Bytes
  import opened Layout
  import opened Blocks
  import opened Modifications
  import opened Allocation
  import opened Replication
  import HashChains
  import opened Tablets
  import opened Serving
  import FreeLists

  ghost predicate Clean(images: seq<array<Byte>>)
    reads images
  {
    forall k :: 0 <= k < |images| ==> Zeroed(images[k][..])
  }

  /** Format one backup: it then equals every other image formatted over zeros. */
  method FormatBackup(image: array<Byte>, base: nat, build: Build, master: Tablet)
    requires image.Length == IMAGE_SIZE && Zeroed(image[..]) && build.alwaysWritesFooter
    requires master.Valid() && master.alloc.Formatted() && Zeroed(master.alloc.mem[..]) && master.alloc.mem != image
    modifies image
    ensures image[..] == master.alloc.mem[..]
  {
    hide Accounts, Mirrors, Consistent, HashChains.Contents, HashChains.TableOk, Holds;
    ghost var zeros := image[..];
    var backup := new Tablet(image, base, build);
    TailsAlike(image[..], zeros, master.alloc.mem[..]);
    FormattedAlike(backup.alloc, master.alloc);
  }

  lemma TailsAlike(m: seq<Byte>, zeros: seq<Byte>, m': seq<Byte>)
    requires |m| == IMAGE_SIZE && Zeroed(zeros) && Zeroed(m') && m[K_SIZE..] == zeros[K_SIZE..]
    ensures m[K_SIZE..] == m'[K_SIZE..]
  {
    assert forall i :: 0 <= i < IMAGE_SIZE - K_SIZE ==> zeros[K_SIZE..][i] == zeros[K_SIZE + i];
  }

  method FormatBackups(images: seq<array<Byte>>, base: nat, build: Build, master: Tablet)
    requires Unlike(images) && Clean(images) && build.alwaysWritesFooter
    requires master.Valid() && master.alloc.Formatted() && Zeroed(master.alloc.mem[..])
    requires forall k :: 0 <= k < |images| ==> images[k] != master.alloc.mem
    modifies images
    ensures forall k :: 0 <= k < |images| ==> images[k][..] == master.alloc.mem[..]
  {
    hide Zeroed, Accounts, Mirrors, Consistent, HashChains.TableOk, Holds;
    for k := 0 to |images|
      invariant forall j :: 0 <= j < k ==> images[j][..] == master.alloc.mem[..]
      invariant forall j :: k <= j < |images| ==> Zeroed(images[j][..])
    {
      ZeroedLength(images[k]);
      FormatBackup(images[k], base, build, master);
    }
  }

  lemma ZeroedLength(a: array<Byte>)
    requires Zeroed(a[..])
    ensures a.Length == IMAGE_SIZE
  {
  }

  /** The protocol's state at start-up: every image is the formatted one. */
  ghost function FirstState(start: seq<Byte>, n: nat): System {
    Idle(start, seq(n, _ => start))
  }

  /**
   A master and its backups, started on memory whose last part happens to be zero: whatever requests
   follow, the promises of `Serve` hold from the first one on, and the map starts empty.
   */
  method ServeFromStart(image: array<Byte>, copies: seq<array<Byte>>, base: nat, build: Build, rs: seq<Request>)
    returns (tablet: Tablet, responses: seq<Response>, ghost start: seq<Byte>, ghost moments: seq<Moment>,
             ghost full: Blocks, ghost listed: FreeLists.Lists, ghost steps: seq<Step>)
    requires Zeroed(image[..]) && Clean(copies) && Distinct(copies, image) && build.alwaysWritesFooter
    requires forall i :: 0 <= i < |rs| ==> Acceptable(rs[i])
    modifies image, copies
    ensures tablet.alloc.mem == image && tablet.alloc.build == build && |responses| <= |rs|
    ensures HoldsMap(start, map[]) && Describes(start, NEW_BLOCKS)
    ensures Served(map[], rs, responses, moments, |copies|, FirstState(start, |copies|), steps)
    ensures CanRun(FirstState(start, |copies|), steps)
    ensures Final(FirstState(start, |copies|), steps) == Idle(LastImage(start, moments), ImagesOf(copies))
    ensures |responses| < |rs| ==> rs[|responses|].Put? || rs[|responses|].Add?
    ensures |responses| < |rs| ==>
      && Depicts(LastImage(start, moments), full, listed) && Exhausted(full, listed, NeedOf(rs[|responses|]))
      && Exhausted(tablet.alloc.blocks, tablet.alloc.lists, NeedOf(rs[|responses|]))
    ensures build.guardsNullNext ==> FreeLists.Exact(listed, full)
    ensures rs != [] ==> responses != []
    ensures |responses| == |rs| ==>
      && tablet.Valid() && HashChains.Contents(tablet.t) == MapAfter(map[], rs, |rs|)
      && forall k :: 0 <= k < |copies| ==> copies[k][..] == image[..]
  {
    hide Zeroed, Clean, Accounts, Mirrors, Consistent, HashChains.TableOk, Holds, HashChains.Contents, Served, NoRoom,
      Describes, Depicts, Exhausted, Acceptable, HoldsMap, CanRun, Final;
    ZeroedLength(image);
    ghost var zeros := image[..];
    tablet := new Tablet(image, base, build);
    StillZeroed(zeros, image[..]);
    FormatBackups(copies, base, build, tablet);
    start := image[..];
    ghost var lists := tablet.alloc.lists;
    HoldsMapNow(tablet);
    DescribesNow(tablet);
    assert ImagesOf(copies) == seq(|copies|, _ => start);
    responses, moments, full, listed, steps := Serve(tablet, copies, rs);
    ServedRuns(rs, responses, moments, |copies|, FirstState(start, |copies|), steps);
    if rs != [] && responses == [] {
      RoomAtFirst(start, lists, full, listed, rs[0]);
    }
  }

  /** The first request finds room whatever the build. */
  lemma RoomAtFirst(start: seq<Byte>, lists: FreeLists.Lists, full: Blocks, listed: FreeLists.Lists, r: Request)
    requires Depicts(start, NEW_BLOCKS, lists) && FreeLists.Exact(lists, NEW_BLOCKS)
    requires Depicts(start, full, listed) && Acceptable(r) && (r.Put? || r.Add?)
    ensures !Exhausted(full, listed, NeedOf(r))
  {
    assert Describes(start, full) && Describes(start, NEW_BLOCKS);
    DescribesOne(start, full, NEW_BLOCKS);
    DepictsHeads(start, NEW_BLOCKS, lists, listed);
    var w :| Mirrors(start, w) && Consistent(w, NEW_BLOCKS, lists);
    var size := OBJECT + |r.key| + |r.val|;
    RoundupUnits(size);
    HeadsSuffice(w, NEW_BLOCKS, lists, UnitsFor(size), 0);
    RoomInUnits(NEW_BLOCKS, lists, size);
    assert NEW_BLOCKS[0] == Block(UNITS, true);
  }

  lemma StillZeroed(m: seq<Byte>, m': seq<Byte>)
    requires Zeroed(m) && |m'| == IMAGE_SIZE && m'[K_SIZE..] == m[K_SIZE..]
    ensures Zeroed(m')
  {
    TailZeroed(m, m');
  }

  lemma ServedRuns(rs: seq<Request>, responses: seq<Response>, moments: seq<Moment>, n: nat, s: System,
                   steps: seq<Step>)
    requires Served(map[], rs, responses, moments, n, s, steps)
    ensures |moments| == |responses| <= |rs| && CanRun(s, steps)
  {
  }
}
