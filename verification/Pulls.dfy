/** The handshake's pulls on the real disks: entry by entry of a manifest, they do to the replicas what `Handshake` says. */
module Pulls {
  import opened Text
  import opened FileSystem
  import opened Patch
  import opened Convergence
  import opened Receiver
  import opened Replica
  import opened Transfer
  import opened Handshake
  import opened DeleteReader
  import opened CreateReader
  import opened Diff
  import opened Manifest
  import opened PullServer
  import opened MarkedDiff

  /** What is on the disk under the replica is what is in the replica. */
  lemma AtView(fs: Tree, base: Path, p: Path)
    requires p != []
    ensures base + p in fs <==> p in View(fs, base)
    ensures base + p in fs ==> fs[base + p] == View(fs, base)[p]
    ensures Parent(base + p) == base + Parent(p)
    ensures HasFolder(fs, Parent(base + p)) <==> HasFolder(View(fs, base), Parent(p))
  {
  }

  lemma BackupBelow(base: Path, p: Path, stamp: string)
    requires p != []
    ensures base + p != [] && Backup(base + p, stamp) == base + Backup(p, stamp) && Backup(p, stamp) != []
    ensures Parent(Backup(p, stamp)) == Parent(p)
  {
    assert Parent(base + p) == base + Parent(p);
    assert Backup(base + p, stamp) == base + Backup(p, stamp);
  }

  /** `r` on the disk is `v` in the replica, with nothing else changed. */
  ghost predicate Agree(fs: Tree, base: Path, r: Option<Tree>, v: Option<Tree>) {
    && r.Some? == v.Some?
    && (r.Some? ==>
          && View(r.value, base) == v.value && HasFolder(r.value, base) && Closed(r.value)
          && SameOutside(fs, r.value, base))
  }

  lemma SameOutsideTwice(a: Tree, b: Tree, c: Tree, base: Path)
    requires SameOutside(a, b, base) && SameOutside(b, c, base)
    ensures SameOutside(a, c, base)
  {
  }

  lemma FetchOnView(fs: Tree, base: Path, p: Path, content: string, clock: Clock)
    requires Closed(fs) && HasFolder(fs, base) && p != []
    ensures Agree(fs, base, Fetch(fs, base + p, content, clock), Fetch(View(fs, base), p, content, Shifted(base, clock)))
  {
    hide View, Closed, Pull;
    AtView(fs, base, p);
    var r := Fetch(fs, base + p, content, clock);
    if r.Some? {
      WriteOnView(fs, base, p, File(Pull(content).value, clock(base + p)));
    }
  }

  /** What pulling a file over another one does, in one formula. */
  lemma ReplaceEffect(fs: Tree, p: Path, stamp: string, content: string, mtime: int, clock: Clock)
    requires Closed(fs) && p != [] && HasFile(fs, p) && Backup(p, stamp) !in fs
    ensures ServerStep(fs, p, File(content, mtime), stamp, clock) ==
            if Pull(content).None? then None
            else Some(fs[Backup(p, stamp) := fs[p]][p := File(Pull(content).value, clock(p))])
  {
    hide Pull;
    var q := Backup(p, stamp);
    RenamedFile(fs, p, q);
    assert q != Parent(p) && p != Parent(p) by { assert |Parent(p)| < |p| && |q| == |p|; }
    if Pull(content).Some? {
      var e := File(Pull(content).value, clock(p));
      assert (fs - {p})[q := fs[p]][p := e] == fs[q := fs[p]][p := e];
    }
  }

  /** A conflicting file moved aside and replaced. */
  lemma ReplaceOnView(fs: Tree, base: Path, p: Path, stamp: string, content: string, mtime: int, clock: Clock)
    requires Closed(fs) && HasFolder(fs, base) && p != [] && HasFile(fs, base + p) && Backup(base + p, stamp) !in fs
    ensures Agree(fs, base, ServerStep(fs, base + p, File(content, mtime), stamp, clock),
                  ServerStep(View(fs, base), p, File(content, mtime), stamp, Shifted(base, clock)))
  {
    hide ServerStep, View, Pull, Closed, Backup;
    var v, q := View(fs, base), Backup(p, stamp);
    AtView(fs, base, p);
    BackupBelow(base, p, stamp);
    AtView(fs, base, q);
    ViewClosed(fs, base);
    ReplaceEffect(fs, base + p, stamp, content, mtime, clock);
    ReplaceEffect(v, p, stamp, content, mtime, Shifted(base, clock));
    if Pull(content).Some? {
      ParentOnDisk(fs, base + p);
      var e := File(Pull(content).value, clock(base + p));
      var fs1 := fs[base + q := fs[base + p]];
      WriteOnView(fs, base, q, fs[base + p]);
      WriteOnView(fs1, base, p, e);
      SameOutsideTwice(fs, fs1, fs1[base + p := e], base);
    }
  }

  lemma ParentOnDisk(fs: Tree, p: Path)
    requires Closed(fs) && p in fs && p != []
    ensures HasFolder(fs, Parent(p))
  {
  }

  lemma FolderOnView(fs: Tree, base: Path, p: Path, clock: Clock)
    requires Closed(fs) && HasFolder(fs, base) && p != []
    ensures Agree(fs, base, Step(fs, MkDir(base + p), clock), Step(View(fs, base), MkDir(p), Shifted(base, clock)))
  {
    hide Step, View, Closed;
    StepOnView(fs, base, MkDir(p), clock);
  }

  lemma ServerStepOnView(fs: Tree, base: Path, p: Path, e: Entry, stamp: string, clock: Clock)
    requires Closed(fs) && HasFolder(fs, base) && p != []
    requires e.File? && base + p in fs ==> HasFile(fs, base + p) && Backup(base + p, stamp) !in fs
    ensures Agree(fs, base, ServerStep(fs, base + p, e, stamp, clock),
                  ServerStep(View(fs, base), p, e, stamp, Shifted(base, clock)))
  {
    hide View, Closed, Agree, Fetch, Step, Backup, Renamed;
    AtView(fs, base, p);
    match e
    case Folder => FolderOnView(fs, base, p, clock);
    case File(content, mtime) =>
      if base + p in fs {
        ReplaceOnView(fs, base, p, stamp, content, mtime, clock);
      } else {
        FetchOnView(fs, base, p, content, clock);
      }
  }

  lemma ClientStepOnView(fs: Tree, base: Path, p: Path, e: Entry, clock: Clock)
    requires Closed(fs) && HasFolder(fs, base) && p != []
    ensures Agree(fs, base, ClientStep(fs, base + p, e, clock), ClientStep(View(fs, base), p, e, Shifted(base, clock)))
  {
    AtView(fs, base, p);
    hide View, Closed, Fetch, Step;
    match e
    case Folder => FolderOnView(fs, base, p, clock);
    case File(content, _) => if base + p !in fs { FetchOnView(fs, base, p, content, clock); }
  }

  // ---------------------------------------------------------------------------------------------
  // All entries of a manifest

  /** The server's pulls, performed on its disk. */
  function DiskServerPulls(fs: Tree, base: Path, c: Tree, ps: seq<Path>, stamps: Stamps, clock: Clock): Option<Tree>
    requires forall p :: p in ps ==> p in c
    decreases |ps|
  {
    if ps == [] then Some(fs)
    else
      assert ps[0] in ps;
      var r := ServerStep(fs, base + ps[0], c[ps[0]], stamps(ps[0]), clock);
      if r.None? then None else DiskServerPulls(r.value, base, c, ps[1..], stamps, clock)
  }

  /** The client's pulls, performed on its disk. */
  function DiskClientPulls(fs: Tree, base: Path, s: Tree, ps: seq<Path>, clock: Clock): Option<Tree>
    requires forall p :: p in ps ==> p in s
    decreases |ps|
  {
    if ps == [] then Some(fs)
    else
      assert ps[0] in ps;
      var r := ClientStep(fs, base + ps[0], s[ps[0]], clock);
      if r.None? then None else DiskClientPulls(r.value, base, s, ps[1..], clock)
  }

  lemma AgreeThen(fs: Tree, base: Path, fs1: Tree, r: Option<Tree>, v: Option<Tree>)
    requires SameOutside(fs, fs1, base) && Agree(fs1, base, r, v)
    ensures Agree(fs, base, r, v)
  {
    if r.Some? { SameOutsideTwice(fs, fs1, r.value, base); }
  }

  lemma AgreeNow(fs: Tree, base: Path)
    requires Closed(fs) && HasFolder(fs, base)
    ensures Agree(fs, base, Some(fs), Some(View(fs, base)))
  {
  }

  /** What the server needs to move a file aside: it is a file, and the backup name is free. */
  lemma CanMoveAside(fs: Tree, base: Path, s: Tree, c: Tree, done: set<Path>, stamps: Stamps, p: Path)
    requires KindsMatch(s, c) && FreshBackups(s, c, stamps) && Pulled(s, c, done, stamps, View(fs, base))
    requires p in c && p !in done && p != [] && c[p].File? && base + p in fs
    ensures HasFile(fs, base + p) && Backup(base + p, stamps(p)) !in fs
  {
    hide View, Pulled, FreshBackups;
    AtView(fs, base, p);
    StillThere(s, c, done, stamps, View(fs, base), p);
    BackupUnused(s, c, done, stamps, View(fs, base), p);
    BackupBelow(base, p, stamps(p));
    AtView(fs, base, Backup(p, stamps(p)));
  }

  /** On the disk the server's pulls do to its replica what they do to a tree, and nothing elsewhere. */
  lemma {:induction false} ServerPullsOnDisk(
      fs: Tree, base: Path, s: Tree, c: Tree, ps: seq<Path>, n: nat, stamps: Stamps, clock: Clock)
    requires n <= |ps| && Manifests(c, ps) && Closed(c) && Closed(fs) && HasFolder(fs, base)
    requires KindsMatch(s, c) && FreshBackups(s, c, stamps) && Pulled(s, c, Elems(ps[..n]), stamps, View(fs, base))
    requires forall p :: HasFile(c, p) ==> TransferOk(c[p].content)
    ensures forall p :: p in ps[n..] ==> p in c
    ensures Agree(fs, base, DiskServerPulls(fs, base, c, ps[n..], stamps, clock),
                  ServerPulls(View(fs, base), c, ps[n..], stamps, Shifted(base, clock)))
    decreases |ps| - n
  {
    hide Manifests, Elems, Pulled, Closed, KindsMatch, FreshBackups, TransferOk, ServerStep, View, SameOutside;
    ManifestElems(c, ps);
    if n == |ps| {
      AgreeNow(fs, base);
    } else {
      var p, clock' := ps[n], Shifted(base, clock);
      ManifestAt(c, ps, n);
      ViewClosed(fs, base);
      ParentPulled(s, c, ps, n, stamps, View(fs, base));
      if c[p].File? && base + p in fs { CanMoveAside(fs, base, s, c, Elems(ps[..n]), stamps, p); }
      ServerStepOnView(fs, base, p, c[p], stamps(p), clock);
      ServerStepPulls(s, c, Elems(ps[..n]), stamps, View(fs, base), p, clock');
      var r := ServerStep(fs, base + p, c[p], stamps(p), clock);
      ServerPullsOnDisk(r.value, base, s, c, ps, n + 1, stamps, clock);
      AgreeThen(fs, base, r.value, DiskServerPulls(r.value, base, c, ps[n + 1..], stamps, clock),
                ServerPulls(View(r.value, base), c, ps[n + 1..], stamps, clock'));
    }
  }

  /** So do the client's. */
  lemma {:induction false} ClientPullsOnDisk(fs: Tree, base: Path, s: Tree, ps: seq<Path>, clock: Clock)
    requires Closed(fs) && HasFolder(fs, base) && forall p :: p in ps ==> p in s && p != []
    ensures Agree(fs, base, DiskClientPulls(fs, base, s, ps, clock), ClientPulls(View(fs, base), s, ps, Shifted(base, clock)))
    decreases |ps|
  {
    hide Closed, ClientStep, View, SameOutside;
    if ps == [] {
      AgreeNow(fs, base);
    } else {
      var p := ps[0];
      assert p in ps && forall q :: q in ps[1..] ==> q in ps;
      ClientStepOnView(fs, base, p, s[p], clock);
      var r := ClientStep(fs, base + p, s[p], clock);
      if r.Some? {
        ClientPullsOnDisk(r.value, base, s, ps[1..], clock);
        AgreeThen(fs, base, r.value, DiskClientPulls(r.value, base, s, ps[1..], clock),
                  ClientPulls(View(r.value, base), s, ps[1..], Shifted(base, clock)));
      }
    }
  }

  // ---------------------------------------------------------------------------------------------
  // From manifest entries to paths

  lemma {:induction false} TrailingSlash(cur: Name, d: string)
    ensures Components(cur, d + "/") == Components(cur, d)
    decreases |d|
  {
    ComponentsAppend(cur, d, "/");
    assert ("/")[1..] == "" && Components("", "/") == [];
    assert Components(cur, d) + [] == Components(cur, d);
  }

  /** The text of an entry names the same path below the directory, with or without a slash at its end. */
  lemma EntryPath(dir: string, q: Path)
    requires GoodPath(q)
    ensures Resolve(ServerFilePath(dir, Render(q))) == Resolve(dir) + q
    ensures Resolve(dir + Render(q)) == Resolve(dir) + q
  {
    ResolveRendered(dir, q);
    if dir != "" && dir[|dir| - 1] == '/' {
      var d := dir[..|dir| - 1];
      assert dir == d + "/";
      ResolveRendered(d, q);
      TrailingSlash("", d);
    }
  }

  /** The entry `i` of a manifest is about the path `p` of the tree `t`, below the shared root folder. */
  ghost predicate About(rn: Name, t: Tree, i: Item, p: Path) {
    && p in t && GoodPath([rn] + p) && i.path == Render([rn] + p)
    && i.kind == (if t[p].File? then 0 else 1)
    && (t[p].File? ==> i.size == |t[p].content|)
  }

  /** The peer's disk holds the tree `t` below its directory's root folder. */
  ghost predicate Holds(peer: Tree, peerDir: string, rn: Name, t: Tree) {
    forall p :: p in t ==> Resolve(peerDir) + [rn] + p in peer && peer[Resolve(peerDir) + [rn] + p] == t[p]
  }

  lemma EntryPulls(dir: string, rn: Name, t: Tree, i: Item, p: Path, peer: Tree, peerDir: string)
    requires About(rn, t, i, p) && Holds(peer, peerDir, rn, t)
    ensures Resolve(ServerFilePath(dir, i.path)) == Resolve(dir) + [rn] + p
    ensures var e := Offered(peer, peerDir, i.path, i.kind); e == t[p]
  {
    EntryPath(dir, [rn] + p);
    EntryPath(peerDir, [rn] + p);
    hide Resolve, Render, GoodPath, ServerFilePath;
    Assoc(Resolve(dir), [rn], p);
    Assoc(Resolve(peerDir), [rn], p);
    assert Resolve(peerDir) + [rn] + p in peer;
  }

  /** Entry by entry the server's pulls are those of the paths. */
  lemma {:induction false} ItemsAreServerPulls(
      fs: Tree, dir: string, rn: Name, items: seq<Item>, ps: seq<Path>, stampOf: StampOf, stamps: Stamps,
      peer: Tree, peerDir: string, c: Tree, clock: Clock)
    requires |items| == |ps| && Holds(peer, peerDir, rn, c)
    requires forall k :: 0 <= k < |ps| ==> About(rn, c, items[k], ps[k]) && stamps(ps[k]) == stampOf(items[k].path)
    ensures forall p :: p in ps ==> p in c
    ensures PullItems(fs, dir, items, false, stampOf, peer, peerDir, clock) ==
            DiskServerPulls(fs, Resolve(dir) + [rn], c, ps, stamps, clock)
    decreases |ps|
  {
    hide Holds, Resolve, ServerStep, ServerFilePath, Offered;
    if ps != [] {
      EntryPulls(dir, rn, c, items[0], ps[0], peer, peerDir);
      var r := PullItem(fs, dir, items[0], false, stampOf(items[0].path), peer, peerDir, clock);
      if r.Some? { ItemsAreServerPulls(r.value, dir, rn, items[1..], ps[1..], stampOf, stamps, peer, peerDir, c, clock); }
      assert forall p :: p in ps ==> exists k :: 0 <= k < |ps| && ps[k] == p;
    }
  }

  lemma {:induction false} ItemsAreClientPulls(
      fs: Tree, dir: string, rn: Name, items: seq<Item>, ps: seq<Path>, stampOf: StampOf,
      peer: Tree, peerDir: string, s: Tree, clock: Clock)
    requires |items| == |ps| && Holds(peer, peerDir, rn, s)
    requires forall k :: 0 <= k < |ps| ==> About(rn, s, items[k], ps[k])
    ensures forall p :: p in ps ==> p in s
    ensures PullItems(fs, dir, items, true, stampOf, peer, peerDir, clock) ==
            DiskClientPulls(fs, Resolve(dir) + [rn], s, ps, clock)
    decreases |ps|
  {
    hide Holds, Resolve, ClientStep, ServerFilePath, Offered;
    if ps != [] {
      EntryPulls(dir, rn, s, items[0], ps[0], peer, peerDir);
      var r := PullItem(fs, dir, items[0], true, stampOf(items[0].path), peer, peerDir, clock);
      if r.Some? { ItemsAreClientPulls(r.value, dir, rn, items[1..], ps[1..], stampOf, peer, peerDir, s, clock); }
      assert forall p :: p in ps ==> exists k :: 0 <= k < |ps| && ps[k] == p;
    }
  }

  // ---------------------------------------------------------------------------------------------
  // The manifest of a directory

  lemma {:induction false} SelectShift(f: seq<Node>, base: Path, rel: Path, want: bool)
    ensures Select(f, base + rel, want) == Rebase(base, Select(f, rel, want))
    decreases f
  {
    if f != [] {
      var n := [f[0].name];
      Assoc(base, rel, n);
      SelectShift(f[0].children, base, rel + n, want);
      SelectShift(f[1..], base, rel, want);
      SelectCons(f, base + rel, want);
      SelectCons(f, rel, want);
      hide Select;
      var own := if f[0].flag == want then [rel + n] else [];
      RebaseConcat(base, own, Select(f[0].children, rel + n, want));
      RebaseConcat(base, own + Select(f[0].children, rel + n, want), Select(f[1..], rel, want));
      assert Rebase(base, [rel + n]) == [base + (rel + n)] && Rebase(base, []) == [];
    }
  }

  function Rebase(base: Path, ps: seq<Path>): (r: seq<Path>)
    ensures |r| == |ps|
    ensures forall i :: 0 <= i < |ps| ==> r[i] == base + ps[i]
  {
    seq(|ps|, i requires 0 <= i < |ps| => base + ps[i])
  }

  lemma RebaseConcat(base: Path, a: seq<Path>, b: seq<Path>)
    ensures Rebase(base, a + b) == Rebase(base, a) + Rebase(base, b)
  {
  }

  /** The kinds and sizes in a manifest are those on disk. */
  lemma {:induction false} ItemKinds(es: seq<Dirent>, f: seq<Node>, rel: Path, path: string)
    requires OnDisk(es, f, rel) && Down(f)
    ensures |Items(f, path)| == |Select(f, rel, false)|
    ensures forall k :: 0 <= k < |Items(f, path)| ==>
              var d := Look(es, Select(f, rel, false)[k]);
              && d.Some? && Items(f, path)[k].kind == (if d.value.DFolder? then 1 else 0)
              && Items(f, path)[k].size == if d.value.DFile? then |d.value.content| else d.value.size
    decreases f
  {
    hide Look;
    if f != [] {
      var n := f[0];
      ItemKinds(es, n.children, rel + [n.name], path + "/" + n.name);
      ItemKinds(es, f[1..], rel, path);
      assert Items(f, path) == [ItemOf(n, path + "/" + n.name)] + Items(n.children, path + "/" + n.name) + Items(f[1..], path);
      assert Select(f, rel, false) == [rel + [n.name]] + Select(n.children, rel + [n.name], false) + Select(f[1..], rel, false);
    }
  }

  lemma BuiltOnDisk(es: seq<Dirent>)
    requires UniqEntries(es)
    ensures OnDisk(es, Build(es), [])
  {
    BuildUniq(es);
    forall p | Get(Build(es), p).Some?
      ensures Look(es, [] + p).Some? && Shows(Look(es, [] + p).value, Get(Build(es), p).value)
    {
      BuildMirrors(es, p);
      assert [] + p == p;
    }
    OnDiskFrom(es, Build(es), []);
  }

  /** The entries of a directory's manifest are the root's and then, in the walk's order, one about each path below it. */
  lemma {:induction false} ManifestAbout(es: seq<Dirent>, root: Node)
    requires UniqEntries(es) && root.folder && !root.flag && root.children == Build(es) && GoodName(root.name)
    requires forall p :: p in TreeOf(es) ==> GoodPath(p)
    ensures var items, ps := Items([root], ""), Select(Build(es), [], false);
            && |items| == |ps| + 1
            && About(root.name, TreeOf(es), items[0], [])
            && forall k :: 0 <= k < |ps| ==> About(root.name, TreeOf(es), items[k + 1], ps[k])
  {
    var rn, f := root.name, Build(es);
    var ps, rest := Select(f, [], false), Items(f, "/" + rn);
    SingleNode(root, "");
    assert "" + "/" + rn == "/" + rn;
    assert [rn][1..] == [] && Render([rn]) == "/" + rn + "" && "/" + rn + "" == "/" + rn;
    BuildDown(es);
    ItemsFollowWalk(f, [rn]);
    SelectShift(f, [rn], [], false);
    assert [rn] + [] == [rn];
    BuiltOnDisk(es);
    ItemKinds(es, f, [], "/" + rn);
    InTree(es, []);
    hide Items, Select, Build, Look, Render, GoodName;
    forall k | 0 <= k < |ps| ensures About(rn, TreeOf(es), rest[k], ps[k]) {
      InTree(es, ps[k]);
      GoodBelow(rn, ps[k]);
    }
    GoodBelow(rn, []);
  }

  /**
   * What the other side reads off the manifest of a directory, whatever its scan variables held: the shared folder, then for
   * every path its name, its kind and, for a file, the length of its content; the rest of the stream is left.
   */
  lemma {:induction false} ManifestTells(es: seq<Dirent>, root: Node, size0: int, kind0: int, rest: string)
    requires UniqEntries(es) && root.folder && !root.flag && root.children == Build(es) && GoodName(root.name)
    requires forall p :: p in TreeOf(es) ==> GoodPath(p)
    ensures var l := ListRun("", size0, kind0, ItemsBytes(Items([root], "")) + (Marker("SYNC_DONE") + rest));
            var ps, t := Select(Build(es), [], false), TreeOf(es);
            && l.ended && l.rest == rest && |l.items| == |ps| + 1 && l.items[0].path == "/" + root.name && l.items[0].kind == 1
            && forall k :: 0 <= k < |ps| ==>
                 && ps[k] in t && l.items[k + 1].path == Render([root.name] + ps[k])
                 && (t[ps[k]].Folder? ==> l.items[k + 1].kind == 1)
                 && (t[ps[k]].File? ==> l.items[k + 1].kind == 0 && l.items[k + 1].size == |t[ps[k]].content|)
  {
    var items, ps := Items([root], ""), Select(Build(es), [], false);
    ManifestAbout(es, root);
    InTree(es, []);
    assert Render([root.name]) == "/" + root.name by { assert [root.name][1..] == []; Units("/" + root.name); }
    Units([root.name]);
    hide Items, Select, Build, TreeOf, Render, GoodName, ItemsBytes, ListRun, UniqEntries, Marker;
    forall i | i in items ensures i.path != "" && Plain(i.path) && ',' !in i.path {
      var k :| 0 <= k < |items| && items[k] == i;
      var p := if k == 0 then [] else ps[k - 1];
      assert About(root.name, TreeOf(es), i, p) by { assert k > 0 ==> items[(k - 1) + 1] == i; }
      RenderPlain([root.name] + p);
    }
    ItemsRoundTrip(items, size0, kind0, rest);
  }

  lemma GoodBelow(rn: Name, p: Path)
    requires GoodName(rn) && GoodPath(p)
    ensures GoodPath([rn] + p)
  {
  }
}
