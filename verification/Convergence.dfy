/**
 * The diff of a tree against a remembered snapshot, and what one synchronisation round
 * (server diff to the client, then client diff to the server) does to two replicas.
 */
module Convergence {
  import opened Text
  import opened FileSystem
  import opened Patch

  /** What a snapshot node remembers of a path. */
  datatype Meta = Meta(folder: bool, mtime: int)
  type Snapshot = map<Path, Meta>

  function Ups(b: Snapshot, m: Tree): set<Path> {
    set p | p in m && p in b && m[p].File? && b[p].mtime != m[p].mtime
  }

  function Dels(b: Snapshot, m: Tree): set<Path> {
    set p | p in b && p !in m
  }

  function News(b: Snapshot, m: Tree): set<Path> {
    set p | p in m && p !in b && p != []
  }

  /** `ups`, `dels` and `news` list exactly the differences, a new folder before what it contains. */
  ghost predicate Lists(b: Snapshot, m: Tree, ups: seq<Path>, dels: seq<Path>, news: seq<Path>) {
    Elems(ups) == Ups(b, m) && Elems(dels) == Dels(b, m) && Elems(news) == News(b, m) &&
    forall i :: 0 <= i < |news| && Parent'(news[i]) in News(b, m) ==> Parent'(news[i]) in news[..i]
  }

  function Parent'(p: Path): Path {
    if p == [] then [] else Parent(p)
  }

  function DiffMsgs(m: Tree, ups: seq<Path>, dels: seq<Path>, news: seq<Path>): seq<Msg>
    requires forall p :: p in ups ==> HasFile(m, p)
    requires forall p :: p in news ==> p in m
  {
    UpdateMsgs(m, ups) + DeleteMsgs(dels) + CreateMsgs(m, news)
  }

  predicate SameEntry(a: Entry, b: Entry) {
    a.Folder? == b.Folder? && (a.File? ==> a.content == b.content)
  }

  /** Equal names, kinds and contents; modification times may differ. */
  predicate SameData(s: Tree, t: Tree) {
    s.Keys == t.Keys && forall p :: p in s ==> SameEntry(s[p], t[p])
  }

  /** Everything the snapshot remembers is still as remembered. */
  predicate Tracks(b: Snapshot, fs: Tree) {
    forall p :: p in b ==>
      p != [] && p in fs && b[p].folder == fs[p].Folder? && (fs[p].File? ==> b[p].mtime == fs[p].mtime)
  }

  predicate Exact(b: Snapshot, fs: Tree) {
    Tracks(b, fs) && b.Keys == fs.Keys - {[]}
  }

  lemma NothingDiffers(b: Snapshot, m: Tree)
    requires Exact(b, m)
    ensures Ups(b, m) == {} && Dels(b, m) == {} && News(b, m) == {}
  {
  }

  /** What a replica must satisfy for the diff of `m` against `b` to apply to it. */
  predicate Receives(r: Tree, b: Snapshot, m: Tree) {
    Closed(r) && Closed(m) && [] !in b &&
    (forall p :: p in Ups(b, m) ==> p in r) &&
    (forall p :: p in News(b, m) ==> Parent'(p) in News(b, m) || Parent'(p) in r) &&
    (forall p :: p in m && p in r ==> m[p].Folder? == r[p].Folder?)
  }

  function AfterDiff(r: Tree, b: Snapshot, m: Tree, clock: Clock): Tree {
    Patched(r, m, Ups(b, m), Dels(b, m), News(b, m), clock)
  }

  /** Replaying any listing of the differences, in phase order, leaves exactly `AfterDiff`. */
  lemma {:induction false} DiffEffect(
      r: Tree, b: Snapshot, m: Tree, ups: seq<Path>, dels: seq<Path>, news: seq<Path>, clock: Clock)
    requires Receives(r, b, m) && Lists(b, m, ups, dels, news)
    ensures forall p :: p in ups ==> HasFile(m, p)
    ensures forall p :: p in news ==> p in m
    ensures Replay(r, DiffMsgs(m, ups, dels, news), clock) == Some(AfterDiff(r, b, m, clock))
  {
    forall p | p in ups ensures HasFile(m, p) && HasFile(r, p) { assert p in Elems(ups); }
    forall p | p in news ensures p in News(b, m) { assert p in Elems(news); }
    assert [] in dels ==> [] in Elems(dels);
    var rd := Patched(r, map[], {}, Elems(dels), {}, clock);
    forall i | 0 <= i < |news|
      ensures news[i] != []
      ensures HasFolder(rd, Parent(news[i])) ||
              (Parent(news[i]) in news[..i] && HasFolder(m, Parent(news[i])))
    {
      assert news[i] in news;
      ParentReady(r, b, m, news[i], clock);
    }
    PatchEffect(r, m, ups, dels, news, clock);
  }

  lemma ParentReady(r: Tree, b: Snapshot, m: Tree, p: Path, clock: Clock)
    requires Receives(r, b, m) && p in News(b, m)
    ensures HasFolder(m, Parent(p))
    ensures Parent(p) in News(b, m) || HasFolder(Patched(r, map[], {}, Dels(b, m), {}, clock), Parent(p))
  {
    var q := Parent(p);
    if q !in News(b, m) {
      assert Parent'(p) == q;
      assert q in r;
      if Under(Dels(b, m), q) {
        var d :| d in Dels(b, m) && d <= q;
        ClosedUp(m, d, q);
      }
    }
  }

  /**
   * Patch correctness in general form: whenever the replica already agrees on everything the diff leaves out,
   * and holds nothing extra but what the diff deletes, the diff turns it into exactly the sender's tree.
   */
  lemma {:induction false} PatchCorrect(
      r: Tree, b: Snapshot, m: Tree, ups: seq<Path>, dels: seq<Path>, news: seq<Path>, clock: Clock)
    requires Receives(r, b, m) && Lists(b, m, ups, dels, news)
    requires forall p :: p in b && p in m && p !in Ups(b, m) ==> p in r && SameEntry(r[p], m[p])
    requires forall p :: p in r && p !in m ==> Under(Dels(b, m), p)
    ensures forall p :: p in ups ==> HasFile(m, p)
    ensures forall p :: p in news ==> p in m
    ensures Replay(r, DiffMsgs(m, ups, dels, news), clock).Some?
    ensures SameData(Replay(r, DiffMsgs(m, ups, dels, news), clock).value, m)
  {
    DiffEffect(r, b, m, ups, dels, news, clock);
    var r' := AfterDiff(r, b, m, clock);
    forall p | p in m ensures p in r' && SameEntry(r'[p], m[p]) {
      if p !in News(b, m) {
        assert p == [] || (p in b && p in r);
        if Under(Dels(b, m), p) {
          var d :| d in Dels(b, m) && d <= p;
          ClosedUp(m, d, p);
        }
      }
    }
  }

  // ---------------------------------------------------------------------------------------------
  // One round

  predicate Touched(a: Tree, b: Tree, p: Path) {
    (p in a) != (p in b) || (p in a && p in b && a[p] != b[p])
  }

  /** Any edits a user may make: kinds stay, and a changed content shows in the modification time. */
  predicate Edited(a: Tree, b: Tree) {
    Closed(a) && Closed(b) &&
    forall p :: p in a && p in b ==>
      a[p].Folder? == b[p].Folder? && (a[p].File? && a[p].mtime == b[p].mtime ==> a[p] == b[p])
  }

  /** No path touched on one side equals, contains or lies below a path touched on the other. */
  ghost predicate Independent(s0: Tree, s1: Tree, c0: Tree, c1: Tree) {
    forall p, q :: Touched(s0, s1, p) && Touched(c0, c1, q) ==> !(p <= q) && !(q <= p)
  }

  /** The three-way merge: each side's touched paths from that side, everything else as it was on both. */
  function Merged(s0: Tree, s1: Tree, c1: Tree): Tree {
    map p | p in s1.Keys + c1.Keys && (if Touched(s0, s1, p) then p in s1 else p in c1) ::
      if Touched(s0, s1, p) then s1[p] else c1[p]
  }

  /** The state at the start of a round, after both users have edited. */
  ghost predicate RoundStart(s0: Tree, s1: Tree, c0: Tree, c1: Tree, bs: Snapshot, bc: Snapshot) {
    && SameData(s0, c0)
    && Edited(s0, s1) && Edited(c0, c1) && Independent(s0, s1, c0, c1)
    && Exact(bs, s0) && Tracks(bc, c0)
  }

  /**
   * The client's snapshot notices every deletion: it knows the path or a folder above it that is gone too. A snapshot
   * older than the handshake does not know the files pulled then.
   */
  ghost predicate DeletesSeen(c0: Tree, c1: Tree, bc: Snapshot) {
    forall p :: p in c0 && p !in c1 ==> Under(Dels(bc, c1), p)
  }

  /** Neither side can have touched a path at, above or below one that the other touched. */
  lemma OneSided(s0: Tree, s1: Tree, c0: Tree, c1: Tree, p: Path, q: Path)
    requires Independent(s0, s1, c0, c1) && Touched(s0, s1, p) && (p <= q || q <= p)
    ensures !Touched(c0, c1, q)
  {
  }

  lemma ClientReceives(s0: Tree, s1: Tree, c0: Tree, c1: Tree, bs: Snapshot, bc: Snapshot)
    requires RoundStart(s0, s1, c0, c1, bs, bc)
    ensures Receives(c1, bs, s1)
  {
    forall p | p in Ups(bs, s1) ensures p in c1 {
      assert Touched(s0, s1, p);
      OneSided(s0, s1, c0, c1, p, p);
    }
    forall p | p in News(bs, s1) ensures Parent'(p) in News(bs, s1) || Parent'(p) in c1 {
      assert Touched(s0, s1, p);
      OneSided(s0, s1, c0, c1, p, Parent(p));
    }
    forall p | p in s1 && p in c1 ensures s1[p].Folder? == c1[p].Folder? {
      if p !in s0 {
        assert Touched(s0, s1, p);
        OneSided(s0, s1, c0, c1, p, p);
      }
    }
  }

  /** After the server's diff the client holds the merge, and kept its own entry wherever the server touched nothing. */
  lemma FirstLeg(s0: Tree, s1: Tree, c0: Tree, c1: Tree, bs: Snapshot, bc: Snapshot, clock: Clock)
    requires RoundStart(s0, s1, c0, c1, bs, bc)
    ensures var c2 := AfterDiff(c1, bs, s1, clock);
            SameData(c2, Merged(s0, s1, c1)) && Closed(c2) &&
            forall p :: p in c2 && !Touched(s0, s1, p) ==> c2[p] == c1[p]
  {
    var c2, m := AfterDiff(c1, bs, s1, clock), Merged(s0, s1, c1);
    forall p ensures FirstLegAt(c2, m, c1, s0, s1, p) {
      FirstLegEntry(s0, s1, c0, c1, bs, bc, clock, p);
    }
    assert c2.Keys == m.Keys by {
      forall p ensures p in c2 <==> p in m { assert FirstLegAt(c2, m, c1, s0, s1, p); }
    }
    forall p | p in c2 ensures SameEntry(c2[p], m[p]) { assert FirstLegAt(c2, m, c1, s0, s1, p); }
    forall p | p in c2 && p != [] ensures HasFolder(c2, Parent(p)) {
      MergedParent(s0, s1, c0, c1, bs, bc, p);
      assert FirstLegAt(c2, m, c1, s0, s1, Parent(p));
    }
    forall p | p in c2 && !Touched(s0, s1, p) ensures c2[p] == c1[p] {
      assert FirstLegAt(c2, m, c1, s0, s1, p);
    }
    assert HasFolder(c2, []) by { assert FirstLegAt(c2, m, c1, s0, s1, []); }
  }

  predicate FirstLegAt(c2: Tree, m: Tree, c1: Tree, s0: Tree, s1: Tree, p: Path) {
    (p in c2 <==> p in m) &&
    (p in c2 ==> SameEntry(c2[p], m[p])) &&
    (p in c2 && !Touched(s0, s1, p) ==> p in c1 && c2[p] == c1[p])
  }

  lemma FirstLegEntry(
      s0: Tree, s1: Tree, c0: Tree, c1: Tree, bs: Snapshot, bc: Snapshot, clock: Clock, p: Path)
    requires RoundStart(s0, s1, c0, c1, bs, bc)
    ensures FirstLegAt(AfterDiff(c1, bs, s1, clock), Merged(s0, s1, c1), c1, s0, s1, p)
  {
    UnderDeleted(s0, s1, c0, c1, bs, bc, p);
    if Touched(s0, s1, p) {
      OneSided(s0, s1, c0, c1, p, p);
      assert p in s1 <==> p in News(bs, s1) || p in Ups(bs, s1);
      assert p !in s1 ==> p in Dels(bs, s1) && p <= p;
    } else {
      assert p !in News(bs, s1) && p !in Ups(bs, s1);
    }
  }

  /** Nothing of the merge lies under a path the server deleted. */
  lemma UnderDeleted(s0: Tree, s1: Tree, c0: Tree, c1: Tree, bs: Snapshot, bc: Snapshot, p: Path)
    requires RoundStart(s0, s1, c0, c1, bs, bc)
    ensures Under(Dels(bs, s1), p) ==> p !in s1 && (p in c1 ==> Touched(s0, s1, p))
  {
    if Under(Dels(bs, s1), p) {
      var d :| d in Dels(bs, s1) && d <= p;
      assert Touched(s0, s1, d);
      if p in s1 { ClosedUp(s1, d, p); }
      OneSided(s0, s1, c0, c1, d, p);
      assert !Touched(c0, c1, p);
    }
  }

  lemma MergedParent(s0: Tree, s1: Tree, c0: Tree, c1: Tree, bs: Snapshot, bc: Snapshot, p: Path)
    requires RoundStart(s0, s1, c0, c1, bs, bc)
    requires p in Merged(s0, s1, c1) && p != []
    ensures HasFolder(Merged(s0, s1, c1), Parent(p))
  {
    var q := Parent(p);
    if Touched(s0, s1, p) {
      OneSided(s0, s1, c0, c1, p, q);
    } else if Touched(c0, c1, p) {
      if Touched(s0, s1, q) { OneSided(s0, s1, c0, c1, q, p); }
    } else {
      assert HasFolder(s1, q) && HasFolder(c1, q);
    }
  }

  /** The client's tree `c2` once it has taken in the server's diff. */
  ghost predicate MidRound(
      s0: Tree, s1: Tree, c0: Tree, c1: Tree, bs: Snapshot, bc: Snapshot, c2: Tree)
  {
    && RoundStart(s0, s1, c0, c1, bs, bc)
    && Closed(c2) && SameData(c2, Merged(s0, s1, c1))
    && forall p :: p in c2 && !Touched(s0, s1, p) ==> c2[p] == c1[p]
  }

  /** Where the server already stands with respect to the merge. */
  lemma ServerAt(s0: Tree, s1: Tree, c0: Tree, c1: Tree, bs: Snapshot, bc: Snapshot, c2: Tree, p: Path)
    requires MidRound(s0, s1, c0, c1, bs, bc, c2)
    ensures p in c2 && p in s1 ==> c2[p].Folder? == s1[p].Folder?
    ensures p in c2 && p in c0 ==> p in s1
    ensures p in c2 && p in bc && p !in Ups(bc, c2) ==> p in s1 && SameEntry(c2[p], s1[p])
    ensures p !in c2 && p in s1 ==> p in c0 && p !in c1
  {
    if Touched(s0, s1, p) {
      OneSided(s0, s1, c0, c1, p, p);
    }
  }

  /** What the client sends as deleted at or above one of its own deletions is what was deleted when the round began. */
  lemma DeletesKept(s0: Tree, s1: Tree, c0: Tree, c1: Tree, bs: Snapshot, bc: Snapshot, c2: Tree, p: Path)
    requires MidRound(s0, s1, c0, c1, bs, bc, c2) && p in c0 && p !in c1
    ensures Under(Dels(bc, c2), p) <==> Under(Dels(bc, c1), p)
  {
    hide MidRound;
    forall d | d <= p ensures d in c2 <==> d in c1 {
      AboveDeleted(s0, s1, c0, c1, bs, bc, c2, p, d);
    }
    assert forall d :: d in bc && d <= p ==> (d in Dels(bc, c2) <==> d in Dels(bc, c1));
  }

  lemma AboveDeleted(
      s0: Tree, s1: Tree, c0: Tree, c1: Tree, bs: Snapshot, bc: Snapshot, c2: Tree, p: Path, d: Path)
    requires MidRound(s0, s1, c0, c1, bs, bc, c2) && p in c0 && p !in c1 && d <= p
    ensures d in c2 <==> d in c1
  {
    assert Touched(c0, c1, p);
    assert !Touched(s0, s1, d);
    hide Edited, Independent, Exact, Tracks, Touched;
    assert d in c2 <==> d in Merged(s0, s1, c1);
  }

  lemma ServerReceives(s0: Tree, s1: Tree, c0: Tree, c1: Tree, bs: Snapshot, bc: Snapshot, c2: Tree)
    requires MidRound(s0, s1, c0, c1, bs, bc, c2)
    ensures Receives(s1, bc, c2)
  {
    forall p ensures (p in c2 && p in s1 ==> c2[p].Folder? == s1[p].Folder?) && (p in Ups(bc, c2) ==> p in s1) {
      ServerAt(s0, s1, c0, c1, bs, bc, c2, p);
    }
    forall p | p in News(bc, c2) ensures Parent'(p) in News(bc, c2) || Parent'(p) in s1 {
      ServerAt(s0, s1, c0, c1, bs, bc, c2, Parent(p));
    }
  }

  /** The client's diff, echoes included, brings the server to the client's tree if and only if it tells every deletion. */
  lemma SecondLeg(
      s0: Tree, s1: Tree, c0: Tree, c1: Tree, bs: Snapshot, bc: Snapshot, c2: Tree, clock: Clock)
    requires MidRound(s0, s1, c0, c1, bs, bc, c2)
    ensures SameData(AfterDiff(s1, bc, c2, clock), c2) <==> DeletesSeen(c0, c1, bc)
  {
    hide MidRound;
    var s2 := AfterDiff(s1, bc, c2, clock);
    forall p
      ensures p in c2 ==> p in s2 && SameEntry(s2[p], c2[p])
      ensures p in s2 && p !in c2 ==> p in c0 && p !in c1 && !Under(Dels(bc, c1), p)
      ensures p in c0 && p !in c1 && !Under(Dels(bc, c1), p) ==> p in s2 && p !in c2
    {
      SecondLegEntry(s0, s1, c0, c1, bs, bc, c2, clock, p);
    }
    hide AfterDiff, Touched;
    if DeletesSeen(c0, c1, bc) { assert s2.Keys == c2.Keys; }
  }

  /** Where the server ends: at the client's entry, or holding on to a file whose deletion it was not told. */
  lemma SecondLegEntry(
      s0: Tree, s1: Tree, c0: Tree, c1: Tree, bs: Snapshot, bc: Snapshot, c2: Tree, clock: Clock, p: Path)
    requires MidRound(s0, s1, c0, c1, bs, bc, c2)
    ensures var s2 := AfterDiff(s1, bc, c2, clock);
            && (p in c2 ==> p in s2 && SameEntry(s2[p], c2[p]))
            && (p in s2 && p !in c2 <==> p in c0 && p !in c1 && !Under(Dels(bc, c1), p))
  {
    ServerAt(s0, s1, c0, c1, bs, bc, c2, p);
    if p in c2 {
      if Under(Dels(bc, c2), p) {
        var d :| d in Dels(bc, c2) && d <= p;
        ClosedUp(c2, d, p);
      }
      assert p in News(bc, c2) || p in bc || p == [];
    }
    if p in c0 && p !in c1 {
      assert Touched(c0, c1, p);
      if Touched(s0, s1, p) { OneSided(s0, s1, c0, c1, p, p); }
      DeletesKept(s0, s1, c0, c1, bs, bc, c2, p);
    }
  }

  /**
   * One round leaves both replicas equal to the three-way merge, whatever times the writes are stamped with, if and only if
   * the client's snapshot notices all its deletions. The client has the merge in any case.
   */
  lemma {:induction false} RoundMerges(
      s0: Tree, s1: Tree, c0: Tree, c1: Tree, bs: Snapshot, bc: Snapshot, clock: Clock, clock': Clock)
    requires RoundStart(s0, s1, c0, c1, bs, bc)
    ensures var c2 := AfterDiff(c1, bs, s1, clock);
            var s2 := AfterDiff(s1, bc, c2, clock');
            && Receives(c1, bs, s1) && Receives(s1, bc, c2)
            && SameData(c2, Merged(s0, s1, c1)) && Closed(c2)
            && (SameData(s2, Merged(s0, s1, c1)) <==> DeletesSeen(c0, c1, bc))
            && (DeletesSeen(c0, c1, bc) ==> SameData(s2, c2) && Closed(s2))
  {
    var c2 := AfterDiff(c1, bs, s1, clock);
    var s2 := AfterDiff(s1, bc, c2, clock');
    ClientReceives(s0, s1, c0, c1, bs, bc);
    FirstLeg(s0, s1, c0, c1, bs, bc, clock);
    ServerReceives(s0, s1, c0, c1, bs, bc, c2);
    SecondLeg(s0, s1, c0, c1, bs, bc, c2, clock');
    hide AfterDiff, DeletesSeen, Merged, Receives, RoundStart;
    SameThrough(s2, c2, Merged(s0, s1, c1));
    if DeletesSeen(c0, c1, bc) { SameDataClosed(c2, s2); }
  }

  /** The smallest such loss: one pulled file, deleted on the client, comes back to nobody but stays on the server. */
  lemma LostDelete(f: Entry, clock: Clock, clock': Clock)
    requires f.File?
    ensures var s, c1, bs := map[[] := Folder, ["a"] := f], map[[] := Folder], map[["a"] := Meta(false, f.mtime)];
            && RoundStart(s, s, s, c1, bs, map[])
            && AfterDiff(c1, bs, s, clock) == Merged(s, s, c1) == c1
            && AfterDiff(s, map[], c1, clock') == s
  {
    var s, c1, bs := map[[] := Folder, ["a"] := f], map[[] := Folder], map[["a"] := Meta(false, f.mtime)];
    assert Parent(["a"]) == [];
    assert bs.Keys == s.Keys - {[]};
    NothingDone(c1, s, bs, clock);
    NothingDone(s, c1, map[], clock');
    assert Merged(s, s, c1) == c1 && Independent(s, s, s, c1);
  }

  /** The smallest round with edits on both sides: each creates a file, and both end with both. */
  lemma BothCreate(e: Entry, f: Entry, clock: Clock, clock': Clock)
    requires e.File? && f.File?
    ensures var s0, s1, c1 := map[[] := Folder], map[[] := Folder, ["a"] := e], map[[] := Folder, ["b"] := f];
            && RoundStart(s0, s1, s0, c1, map[], map[]) && DeletesSeen(s0, c1, map[])
            && SameData(AfterDiff(c1, map[], s1, clock), map[[] := Folder, ["a"] := e, ["b"] := f])
            && SameData(AfterDiff(s1, map[], AfterDiff(c1, map[], s1, clock), clock'),
                        map[[] := Folder, ["a"] := e, ["b"] := f])
  {
    var s0, s1, c1 := map[[] := Folder], map[[] := Folder, ["a"] := e], map[[] := Folder, ["b"] := f];
    OneCreated(["a"], e);
    OneCreated(["b"], f);
    assert ["a"][0] != ["b"][0];
    var b: Snapshot := map[];
    assert Independent(s0, s1, s0, c1) && Exact(b, s0);
    assert Merged(s0, s1, c1) == map[[] := Folder, ["a"] := e, ["b"] := f];
    hide Edited, Independent, Exact, Merged, AfterDiff, SameData, Touched;
    assert SameData(s0, s0) by { SameDataSelf(s0); }
    RoundMerges(s0, s1, s0, c1, b, b, clock, clock');
  }

  lemma OneCreated(p: Path, e: Entry)
    requires |p| == 1 && e.File?
    ensures var s0, s1 := map[[] := Folder], map[[] := Folder, p := e];
            Edited(s0, s1) && forall x :: Touched(s0, s1, x) <==> x == p
  {
    assert Parent(p) == [];
  }

  lemma SameDataSelf(s: Tree)
    ensures SameData(s, s)
  {
  }

  lemma NothingDone(r: Tree, m: Tree, b: Snapshot, clock: Clock)
    requires Exact(b, m)
    ensures AfterDiff(r, b, m, clock) == r
  {
    NothingDiffers(b, m);
  }

  lemma SameThrough(a: Tree, b: Tree, m: Tree)
    requires SameData(b, m)
    ensures SameData(a, b) <==> SameData(a, m)
  {
  }

  lemma SameDataClosed(c: Tree, s: Tree)
    requires Closed(c) && SameData(s, c)
    ensures Closed(s)
  {
    forall p | p in s && p != [] ensures HasFolder(s, Parent(p)) { assert HasFolder(c, Parent(p)); }
  }
}
