/** The whole handshake, byte by byte, between two disks: it leaves the system synchronised. */
module HandshakeRun {
  import opened Text
  import opened FileSystem
  import opened Patch
  import opened Convergence
  import opened Runtime
  import opened UpdateReader
  import opened DeleteReader
  import opened CreateReader
  import opened Receiver
  import opened Replica
  import opened Transfer
  import opened Handshake
  import opened Diff
  import opened FileTree
  import opened Manifest
  import opened PullServer
  import opened Pulls
  import opened Rounds
  import opened RoundLoop

  // ---------------------------------------------------------------------------------------------
  // The two programs' steps

  /** createNode and buildTree for the shared folder. */
  method BuildRoot(es: seq<Dirent>, rn: Name) returns (root: FileNode)
    ensures root.Valid() && fresh(root.Repr) && root.Val == Node(rn, true, 0, 0, false, Build(Kept(es, true)))
  {
    hide Build, Kept;
    root := new FileNode(rn, 0, 0, true, false);
    BuildTree(es, root);
    Units(Build(Kept(es, true)));
  }

  predicate Readable(i: Item) {
    i.path != "" && Plain(i.path) && ',' !in i.path
  }

  lemma ManifestOnWire(items: seq<Item>)
    requires forall i :: i in items ==> Readable(i)
    ensures var b := Marker("SYNC") + ItemsBytes(items) + Marker("SYNC_DONE");
            && |b| >= 6 && b[..6] == Marker("SYNC")
            && ListRun("", 0, 0, b[6..]) == Listed(items, "", true)
  {
    ItemsRoundTrip(items, 0, 0, "");
    hide ItemsBytes, ListRun, PrintItem;
    assert |Marker("SYNC")| == 6;
    var rest := ItemsBytes(items) + Marker("SYNC_DONE");
    assert Marker("SYNC") + ItemsBytes(items) + Marker("SYNC_DONE") == Marker("SYNC") + rest;
    assert Marker("SYNC_DONE") + "" == Marker("SYNC_DONE");
  }

  /** One side's half: skip {SYNC}, receive the other's manifest, pull its entries, answer SYNC_WRITE_DONE. */
  method TakeManifest(inn: Channel, out: Channel, disk: Disk, dir: string, isClient: bool, stampOf: StampOf,
                      peer: Disk, peerDir: string, ghost items: seq<Item>) returns (ok: bool)
    requires inn != out && disk != peer && out.data == ""
    requires inn.data == Marker("SYNC") + ItemsBytes(items) + Marker("SYNC_DONE")
    requires forall i :: i in items ==> Readable(i) && Pullable(peer.fs, peerDir, i) && '/' !in stampOf(i.path)
    modifies inn, out, disk
    ensures var r := PullItems(old(disk.fs), dir, items, isClient, stampOf, peer.fs, peerDir, disk.clock);
            && ok == r.Some?
            && (ok ==> disk.fs == r.value && out.data == Marker("SYNC_WRITE_DONE") && inn.data == "")
  {
    hide Readable, Pullable, ListRun, ItemsBytes, Marker, PullItems;
    ManifestOnWire(items);
    ghost var b := inn.data;
    var tag := inn.ReadBlock(6);
    assert inn.data == b[6..];
    var list := ReceiveSyncFiles(inn);
    assert list.Some? && list.value.Contents() == items && inn.data == "";
    ok := SyncServerWithFd(disk, dir, list.value, isClient, stampOf, out, inn, peer, peerDir);
  }

  /** The other side's half once every request has been answered: it reads SYNC_WRITE_DONE and goes on. */
  method FinishServing(req: Channel, resp: Channel, disk: Disk, dir: string)
    requires req != resp && req.data == Marker("SYNC_WRITE_DONE")
    modifies req, resp
    ensures req.data == "" && resp.data == old(resp.data)
  {
    WriteDoneEnds(disk.fs, dir, "");
    assert Marker("SYNC_WRITE_DONE") + "" == Marker("SYNC_WRITE_DONE");
    var status := HandleSyncGetRequests(req, resp, disk, dir);
    assert old(resp.data) + "" == old(resp.data);
  }

  // ---------------------------------------------------------------------------------------------
  // What the pulls do to the replicas

  /** The entries of the manifest of a listed folder. */
  function ManifestItems(rn: Name, es: seq<Dirent>): seq<Item> {
    Items([Node(rn, true, 0, 0, false, Build(es))], "")
  }

  lemma RenderEnd(p: Path)
    requires p != [] && GoodPath(p)
    ensures Render(p) != "" && Render(p)[|Render(p)| - 1] != '/'
  {
    var n := p[|p| - 1];
    assert n in p;
    RenderSnoc(Parent(p), n);
    assert p == Parent(p) + [n];
    assert n[|n| - 1] in n;
  }

  /** An entry about a path the peer holds can be printed, parsed and pulled. */
  lemma EntryFits(rn: Name, t: Tree, i: Item, p: Path, peer: Tree, peerDir: string)
    requires About(rn, t, i, p) && Holds(peer, peerDir, rn, t)
    requires |peerDir + Render([rn] + p)| <= PATH_LIMIT && (t[p].File? ==> TransferOk(t[p].content))
    ensures Readable(i) && Pullable(peer, peerDir, i)
  {
    hide TransferOk, Resolve;
    var q := [rn] + p;
    RenderEnd(q);
    RenderPlain(q);
    EntryPath(peerDir, q);
    Assoc(Resolve(peerDir), [rn], p);
    assert Resolve(peerDir) + [rn] + p in peer;
  }

  /** The manifest of a listed tree the peer holds. */
  lemma ManifestFits(rn: Name, es: seq<Dirent>, peer: Tree, peerDir: string)
    requires UniqEntries(es) && GoodName(rn) && Holds(peer, peerDir, rn, TreeOf(es))
    requires forall p :: p in TreeOf(es) ==> GoodPath(p) && |peerDir + Render([rn] + p)| <= PATH_LIMIT
    requires forall p :: HasFile(TreeOf(es), p) ==> TransferOk(TreeOf(es)[p].content)
    ensures forall i :: i in ManifestItems(rn, es) ==> Readable(i) && Pullable(peer, peerDir, i)
  {
    hide Items, Select, Build, TreeOf, UniqEntries, Readable, Pullable, TransferOk, Holds, About, GoodName, GoodPath;
    hide Render;
    var t, items, ps := TreeOf(es), ManifestItems(rn, es), Select(Build(es), [], false);
    ManifestAbout(es, Node(rn, true, 0, 0, false, Build(es)));
    forall i | i in items ensures Readable(i) && Pullable(peer, peerDir, i) {
      var k :| 0 <= k < |items| && items[k] == i;
      var p := if k == 0 then [] else ps[k - 1];
      assert About(rn, t, i, p) by { assert k > 0 ==> items[(k - 1) + 1] == i; }
      AboutIn(rn, t, i, p);
      EntryFits(rn, t, i, p, peer, peerDir);
    }
  }

  lemma AboutIn(rn: Name, t: Tree, i: Item, p: Path)
    requires About(rn, t, i, p)
    ensures p in t
  {
  }

  /** The first entry names the shared folder itself, which is there. */
  lemma RootEntry(fs: Tree, dir: string, rn: Name, t: Tree, i: Item, isClient: bool, stamp: string, peer: Tree,
                  peerDir: string,
                  clock: Clock)
    requires HasFolder(fs, Resolve(dir) + [rn]) && About(rn, t, i, []) && HasFolder(t, []) && Holds(peer, peerDir, rn, t)
    ensures PullItem(fs, dir, i, isClient, stamp, peer, peerDir, clock) == Some(fs)
  {
    hide Resolve, ServerFilePath, Offered, Holds;
    EntryPulls(dir, rn, t, i, [], peer, peerDir);
    assert Resolve(dir) + [rn] + [] == Resolve(dir) + [rn];
  }

  /** The whole manifest on the server's disk. */
  lemma ServerTakes(sfs: Tree, dir: string, rn: Name, es: seq<Dirent>, stampOf: StampOf, stamps: Stamps,
                    peer: Tree, peerDir: string, clock: Clock)
    requires UniqEntries(es) && GoodName(rn) && Holds(peer, peerDir, rn, TreeOf(es)) && Closed(sfs)
    requires HasFolder(sfs, Resolve(dir) + [rn]) && Ready(View(sfs, Resolve(dir) + [rn]), TreeOf(es), stamps)
    requires forall p :: p in TreeOf(es) ==> GoodPath(p) && stamps(p) == stampOf(Render([rn] + p))
    ensures var ps := Select(Build(es), [], false);
            && Manifests(TreeOf(es), ps) && (forall p :: p in ps ==> p in TreeOf(es))
            && Agree(sfs, Resolve(dir) + [rn],
                     PullItems(sfs, dir, ManifestItems(rn, es), false, stampOf, peer, peerDir, clock),
                     ServerPulls(View(sfs, Resolve(dir) + [rn]), TreeOf(es), ps, stamps,
                                 Shifted(Resolve(dir) + [rn], clock)))
  {
    hide Items, Select, Build, TreeOf, UniqEntries, Holds, Resolve, View, Agree, GoodName, GoodPath, Render;
    hide FreshBackups, KindsMatch;
    hide TransferOk, Closed, Manifests;
    var base, c, items, ps := Resolve(dir) + [rn], TreeOf(es), ManifestItems(rn, es), Select(Build(es), [], false);
    var s := View(sfs, base);
    ManifestOfListing(es);
    ManifestElems(c, ps);
    ManifestAbout(es, Node(rn, true, 0, 0, false, Build(es)));
    RootIn(c);
    RootEntry(sfs, dir, rn, c, items[0], false, stampOf(items[0].path), peer, peerDir, clock);
    assert |items[1..]| == |ps| && forall k :: 0 <= k < |ps| ==> items[1..][k] == items[k + 1];
    ItemsAreServerPulls(sfs, dir, rn, items[1..], ps, stampOf, stamps, peer, peerDir, c, clock);
    PulledNothing(s, c, stamps);
    assert ps[..0] == [] && ps[0..] == ps;
    ServerPullsOnDisk(sfs, base, s, c, ps, 0, stamps, clock);
  }

  lemma RootIn(t: Tree)
    requires Closed(t)
    ensures HasFolder(t, [])
  {
  }

  /** The whole manifest on the client's disk. */
  lemma ClientTakes(cfs: Tree, dir: string, rn: Name, es: seq<Dirent>, stampOf: StampOf, peer: Tree, peerDir: string,
                    clock: Clock)
    requires UniqEntries(es) && GoodName(rn) && Holds(peer, peerDir, rn, TreeOf(es)) && Closed(cfs)
    requires HasFolder(cfs, Resolve(dir) + [rn]) && forall p :: p in TreeOf(es) ==> GoodPath(p)
    ensures var ps := Select(Build(es), [], false);
            && Manifests(TreeOf(es), ps) && (forall p :: p in ps ==> p in TreeOf(es))
            && Agree(cfs, Resolve(dir) + [rn],
                     PullItems(cfs, dir, ManifestItems(rn, es), true, stampOf, peer, peerDir, clock),
                     ClientPulls(View(cfs, Resolve(dir) + [rn]), TreeOf(es), ps, Shifted(Resolve(dir) + [rn], clock)))
  {
    hide Items, Select, Build, TreeOf, UniqEntries, Holds, Resolve, View, Agree, GoodName, GoodPath, Render, Closed;
    hide Manifests;
    var base, t, items, ps := Resolve(dir) + [rn], TreeOf(es), ManifestItems(rn, es), Select(Build(es), [], false);
    ManifestOfListing(es);
    ManifestElems(t, ps);
    ManifestBelow(t, ps);
    TreeOfClosed(es);
    ManifestAbout(es, Node(rn, true, 0, 0, false, Build(es)));
    RootIn(t);
    RootEntry(cfs, dir, rn, t, items[0], true, stampOf(items[0].path), peer, peerDir, clock);
    assert |items[1..]| == |ps| && forall k :: 0 <= k < |ps| ==> items[1..][k] == items[k + 1];
    ItemsAreClientPulls(cfs, dir, rn, items[1..], ps, stampOf, peer, peerDir, t, clock);
    ClientPullsOnDisk(cfs, base, t, ps, clock);
  }

  lemma ManifestBelow(t: Tree, ps: seq<Path>)
    requires Manifests(t, ps)
    ensures forall p :: p in ps ==> p != []
  {
    forall p | p in ps ensures p != [] { assert p in Elems(ps); }
  }

  // ---------------------------------------------------------------------------------------------
  // The whole handshake

  function StampsFor(rn: Name, stampOf: StampOf): Stamps {
    p => stampOf(Render([rn] + p))
  }

  /** The directory the server answers requests from: its own without the slash at the end. */
  function Trimmed(dir: string): string {
    if dir != "" && dir[|dir| - 1] == '/' then dir[..|dir| - 1] else dir
  }

  /** The two disks before the handshake: kinds agree, contents and paths fit, backup names are free. */
  ghost predicate HandshakeReady(g: Config, sfs: Tree, cfs: Tree, stampOf: StampOf) {
    var s, c, stamps := ServerFolder(g, sfs), Client(g, cfs), StampsFor(g.rn, stampOf);
    && Closed(sfs) && HasFolder(sfs, Base(g.sdn, g.rn)) && Closed(cfs) && HasFolder(cfs, Base(g.cdn, g.rn))
    && Ready(s, c, stamps) && AllPrintable(g, c)
    && (forall p :: p in s && Visible(p) ==> Printable(g, p))
    && (forall p :: p in s && Conflict(s, c, p) ==> Printable(g, Backup(p, stamps(p))))
    && (forall x :: '/' !in stampOf(x))
  }

  /** What the server holds once it has pulled everything can be sent back. */
  lemma MergedFits(g: Config, sfs: Tree, cfs: Tree, stampOf: StampOf, s1: Tree)
    requires HandshakeReady(g, sfs, cfs, stampOf)
    requires var s, c := ServerFolder(g, sfs), Client(g, cfs);
             && Pulled(s, c, c.Keys - {[]}, StampsFor(g.rn, stampOf), s1)
             && (forall p :: p in c ==> p in s1 && SameEntry(s1[p], c[p]))
             && (forall p :: HasFile(s1, p) && Visible(p) && p !in c ==> TransferOk(s1[p].content))
    ensures AllPrintable(g, Shown(s1)) && forall p :: HasFile(Shown(s1), p) ==> TransferOk(Shown(s1)[p].content)
  {
    hide ServerFolder, Client, Printable, TransferOk, FreshBackups, KindsMatch, Closed, StampsFor;
    var s, c, stamps := ServerFolder(g, sfs), Client(g, cfs), StampsFor(g.rn, stampOf);
    forall p | p in Shown(s1) ensures Printable(g, p) {
      assert PulledAt(s, c, c.Keys - {[]}, stamps, s1, p);
    }
    forall p | HasFile(Shown(s1), p) ensures TransferOk(Shown(s1)[p].content) {
      if p in c { assert SameEntry(s1[p], c[p]) && HasFile(c, p); }
    }
  }

  /** A replica on a disk, and the directory strings both sides use for it. */
  lemma ReplicaHeld(dir: string, rn: Name, fs: Tree, t: Tree)
    requires forall p :: p in t ==> p in View(fs, Base(dir, rn)) && View(fs, Base(dir, rn))[p] == t[p]
    ensures Holds(fs, dir, rn, t) && Holds(fs, Trimmed(dir), rn, t)
  {
    if dir != "" && dir[|dir| - 1] == '/' {
      assert dir == Trimmed(dir) + "/";
      TrailingSlash("", Trimmed(dir));
    }
    hide Resolve;
  }

  lemma PathLength(dir: string, rn: Name, p: Path)
    ensures |dir + Render([rn] + p)| == |UpdateDir(dir, rn) + Render(p)|
    ensures |Trimmed(dir)| <= |dir|
  {
    assert ([rn] + p)[1..] == p && ([rn] + p)[0] == rn;
  }

  /** What the server's replica is after its pulls, and that it can all be sent back. */
  lemma {:induction false} ServerResult(g: Config, sfs: Tree, cfs: Tree, ec: seq<Dirent>, stampOf: StampOf, sclk: Clock)
      returns (sfs1: Tree)
    requires GoodConfig(g) && HandshakeReady(g, sfs, cfs, stampOf) && ListsTree(ec, Client(g, cfs))
    ensures PullItems(sfs, g.sdn, ManifestItems(g.rn, ec), false, stampOf, cfs, g.cdn, sclk) == Some(sfs1)
    ensures var ps, stamps := Select(Build(ec), [], false), StampsFor(g.rn, stampOf);
            && (forall p :: p in ps ==> p in Client(g, cfs))
            && ServerPulls(ServerFolder(g, sfs), Client(g, cfs), ps, stamps, Shifted(Base(g.sdn, g.rn), sclk))
               == Some(ServerFolder(g, sfs1))
            && Closed(sfs1) && HasFolder(sfs1, Base(g.sdn, g.rn)) && SameOutside(sfs, sfs1, Base(g.sdn, g.rn))
            && AllPrintable(g, Shown(ServerFolder(g, sfs1)))
            && TransfersFit(Shown(ServerFolder(g, sfs1)))
  {
    var s, c, stamps := ServerFolder(g, sfs), Client(g, cfs), StampsFor(g.rn, stampOf);
    var ps, clk := Select(Build(ec), [], false), Shifted(Base(g.sdn, g.rn), sclk);
    ReplicaHeld(g.cdn, g.rn, cfs, c);
    forall p | p in c ensures GoodPath(p) { assert Printable(g, p); }
    hide View, Items, Select, Build, TreeOf, UniqEntries, Holds, Resolve, TransferOk, FreshBackups, KindsMatch;
    hide Manifests, Closed;
    hide Printable, Pulled, SameOutside, PullItems, ServerPulls, ManifestItems, GoodName, Render;
    ServerTakes(sfs, g.sdn, g.rn, ec, stampOf, stamps, cfs, g.cdn, sclk);
    Handshake.ServerHalf(s, c, ps, stamps, clk);
    MergedFits(g, sfs, cfs, stampOf, ServerPulls(s, c, ps, stamps, clk).value);
    sfs1 := PullItems(sfs, g.sdn, ManifestItems(g.rn, ec), false, stampOf, cfs, g.cdn, sclk).value;
  }

  /** Equal trees, nothing lost on the way and the log file left alone: the outcome of a handshake for the replicas. */
  ghost predicate Lossless(s: Tree, c: Tree, stamps: Stamps, s1: Tree, c1: Tree) {
    && SameData(Shown(s1), c1)
    && (forall p :: p in c ==> p in c1 && c1[p] == c[p])
    && (forall p :: p in s && p !in c ==> p in s1 && s1[p] == s[p])
    && (forall p :: p in s && Conflict(s, c, p) ==> Backup(p, stamps(p)) in s1 && s1[Backup(p, stamps(p))] == s[p])
    && (forall p :: p in c1 ==> "log.txt" !in p)
    && (forall p :: "log.txt" in p ==> (p in s1 <==> p in s) && (p in s ==> s1[p] == s[p]))
  }

  /** What the server's half leaves, and what its second listing shows. */
  ghost predicate ServerDone(g: Config, sfs: Tree, sfs1: Tree, cfs: Tree, ec: seq<Dirent>, es: seq<Dirent>,
                             stampOf: StampOf,
                             sclk: Clock)
  {
    var s, c := ServerFolder(g, sfs), Client(g, cfs);
    var pc := Select(Build(ec), [], false);
    && GoodConfig(g) && HandshakeReady(g, sfs, cfs, stampOf) && ListsTree(ec, c)
    && Manifests(c, pc) && (forall p :: p in pc ==> p in c)
    && ServerPulls(s, c, pc, StampsFor(g.rn, stampOf), Shifted(Base(g.sdn, g.rn), sclk)) == Some(ServerFolder(g, sfs1))
    && Closed(sfs1) && HasFolder(sfs1, Base(g.sdn, g.rn)) && SameOutside(sfs, sfs1, Base(g.sdn, g.rn))
    && AllPrintable(g, Shown(ServerFolder(g, sfs1))) && ListsTree(es, Shown(ServerFolder(g, sfs1)))
    && TransfersFit(Shown(ServerFolder(g, sfs1)))
  }

  ghost predicate TransfersFit(t: Tree) {
    forall p :: HasFile(t, p) ==> TransferOk(t[p].content)
  }

  lemma ServerIsDone(
      g: Config, sfs: Tree, sfs1: Tree, cfs: Tree, ec: seq<Dirent>, es: seq<Dirent>, stampOf: StampOf, sclk: Clock)
    requires GoodConfig(g) && HandshakeReady(g, sfs, cfs, stampOf) && ListsTree(ec, Client(g, cfs))
    requires PullItems(sfs, g.sdn, ManifestItems(g.rn, ec), false, stampOf, cfs, g.cdn, sclk) == Some(sfs1)
    requires ListsTree(es, Shown(ServerFolder(g, sfs1)))
    ensures ServerDone(g, sfs, sfs1, cfs, ec, es, stampOf, sclk)
  {
    hide Select, Build, TreeOf, UniqEntries, PullItems, ServerPulls, Manifests, Closed, SameOutside, HandshakeReady;
    hide Shown;
    hide ServerFolder, Client, AllPrintable, ManifestItems;
    ManifestOfListing(ec);
    var sfs2 := ServerResult(g, sfs, cfs, ec, stampOf, sclk);
  }

  /** The pure outcome for the two replicas. */
  lemma Outcome(g: Config, sfs: Tree, sfs1: Tree, cfs: Tree, ec: seq<Dirent>, es: seq<Dirent>, stampOf: StampOf,
                sclk: Clock,
                clk: Clock)
    requires ServerDone(g, sfs, sfs1, cfs, ec, es, stampOf, sclk)
    ensures var c, s1, ps := Client(g, cfs), ServerFolder(g, sfs1), Select(Build(es), [], false);
            && Manifests(Shown(s1), ps) && (forall p :: p in ps ==> p in Shown(s1))
            && ClientPulls(c, Shown(s1), ps, clk).Some?
            && Lossless(ServerFolder(g, sfs), c, StampsFor(g.rn, stampOf), s1, ClientPulls(c, Shown(s1), ps, clk).value)
  {
    hide ServerFolder, Client, Select, Build, TreeOf, UniqEntries, Manifests, Closed, SameOutside, Shown;
    hide ClientPulls;
    hide ServerPulls, AllPrintable, Printable, Ready, SameData;
    var ps := Select(Build(es), [], false);
    ManifestOfListing(es);
    ManifestElems(Shown(ServerFolder(g, sfs1)), ps);
    IsReady(g, sfs, cfs, stampOf);
    HandshakeConverges(ServerFolder(g, sfs), Client(g, cfs), Select(Build(ec), [], false), ps, StampsFor(g.rn, stampOf),
                       Shifted(Base(g.sdn, g.rn), sclk), clk);
  }

  lemma IsReady(g: Config, sfs: Tree, cfs: Tree, stampOf: StampOf)
    requires HandshakeReady(g, sfs, cfs, stampOf)
    ensures Ready(ServerFolder(g, sfs), Client(g, cfs), StampsFor(g.rn, stampOf))
    ensures Closed(cfs) && HasFolder(cfs, Base(g.cdn, g.rn))
  {
  }

  /** What the client's disk is after its pulls. */
  lemma {:induction false} ClientResult(
      g: Config, sfs: Tree, sfs1: Tree, cfs: Tree, ec: seq<Dirent>, es: seq<Dirent>, stampOf: StampOf, sclk: Clock, cclk: Clock)
      returns (cfs1: Tree)
    requires ServerDone(g, sfs, sfs1, cfs, ec, es, stampOf, sclk)
    ensures PullItems(cfs, g.cdn, ManifestItems(g.rn, es), true, stampOf, sfs1, Trimmed(g.sdn), cclk) == Some(cfs1)
    ensures Closed(cfs1) && HasFolder(cfs1, Base(g.cdn, g.rn)) && SameOutside(cfs, cfs1, Base(g.cdn, g.rn))
    ensures var m, ps := Shown(ServerFolder(g, sfs1)), Select(Build(es), [], false);
            && (forall p :: p in ps ==> p in m)
            && ClientPulls(Client(g, cfs), m, ps, Shifted(Base(g.cdn, g.rn), cclk)) == Some(Client(g, cfs1))
  {
    var m := Shown(ServerFolder(g, sfs1));
    ReplicaHeld(g.sdn, g.rn, sfs1, m);
    forall p | p in m ensures GoodPath(p) { assert Printable(g, p); }
    IsReady(g, sfs, cfs, stampOf);
    Outcome(g, sfs, sfs1, cfs, ec, es, stampOf, sclk, Shifted(Base(g.cdn, g.rn), cclk));
    hide Select, Build, TreeOf, UniqEntries, Holds, Resolve, Manifests, Closed, View, HandshakeReady, ServerPulls;
    hide StampsFor;
    hide SameOutside, PullItems, ClientPulls, ManifestItems, GoodName, Shown, Lossless, AllPrintable;
    ClientTakes(cfs, g.cdn, g.rn, es, stampOf, sfs1, Trimmed(g.sdn), cclk);
    cfs1 := PullItems(cfs, g.cdn, ManifestItems(g.rn, es), true, stampOf, sfs1, Trimmed(g.sdn), cclk).value;
  }

  lemma ShownWhenSame(s1: Tree, c1: Tree)
    requires SameData(Shown(s1), c1)
    ensures Shown(c1) == c1
  {
    forall p | p in c1 ensures Visible(p) { assert p in Shown(s1); }
  }

  /** The handshake ends in a state from which rounds can start. */
  lemma {:induction false} EndsSynced(
      g: Config, sfs: Tree, sfs1: Tree, cfs: Tree, cfs1: Tree, ec: seq<Dirent>, es: seq<Dirent>, ez: seq<Dirent>,
      stampOf: StampOf, sclk: Clock, cclk: Clock)
    requires ServerDone(g, sfs, sfs1, cfs, ec, es, stampOf, sclk) && ListsTree(ez, Shown(ServerFolder(g, sfs1)))
    requires Closed(cfs1) && HasFolder(cfs1, Base(g.cdn, g.rn))
    requires var m, ps := Shown(ServerFolder(g, sfs1)), Select(Build(es), [], false);
             && (forall p :: p in ps ==> p in m)
             && ClientPulls(Client(g, cfs), m, ps, Shifted(Base(g.cdn, g.rn), cclk)) == Some(Client(g, cfs1))
    ensures Lossless(ServerFolder(g, sfs), Client(g, cfs), StampsFor(g.rn, stampOf),
                   ServerFolder(g, sfs1), Client(g, cfs1))
    ensures Synced(g, State(sfs1, cfs1, Build(ez), Build(ec)))
  {
    hide View, Select, Build, TreeOf, UniqEntries, Manifests, Closed, SameOutside, Shown, ClientPulls, ServerPulls;
    hide SameData;
    hide AllPrintable, Ready, Synced, StampsFor, HandshakeReady, Shifted, Base;
    IsReady(g, sfs, cfs, stampOf);
    Outcome(g, sfs, sfs1, cfs, ec, es, stampOf, sclk, Shifted(Base(g.cdn, g.rn), cclk));
    ShownWhenSame(ServerFolder(g, sfs1), Client(g, cfs1));
    HandshakeSyncs(g, ServerFolder(g, sfs), Client(g, cfs), ec, Select(Build(es), [], false), ez, StampsFor(g.rn, stampOf),
                   Shifted(Base(g.sdn, g.rn), sclk), Shifted(Base(g.cdn, g.rn), cclk), State(sfs1, cfs1, Build(ez), Build(ec)));
  }

  /** Both manifests can be printed, parsed and pulled. */
  lemma ClientManifestFits(g: Config, sfs: Tree, cfs: Tree, ec: seq<Dirent>, stampOf: StampOf)
    requires GoodConfig(g) && HandshakeReady(g, sfs, cfs, stampOf) && ListsTree(ec, Client(g, cfs))
    ensures forall i :: i in ManifestItems(g.rn, ec) ==> Readable(i) && Pullable(cfs, g.cdn, i) && '/' !in stampOf(i.path)
  {
    var c := Client(g, cfs);
    hide Build, TreeOf, UniqEntries, Resolve, Closed, TransferOk, ManifestItems, Readable, Pullable;
    ReplicaHeld(g.cdn, g.rn, cfs, c);
    forall p | p in c ensures GoodPath(p) && |g.cdn + Render([g.rn] + p)| <= PATH_LIMIT {
      assert Printable(g, p);
      PathLength(g.cdn, g.rn, p);
    }
    ManifestFits(g.rn, ec, cfs, g.cdn);
  }

  lemma ServerManifestFits(g: Config, sfs1: Tree, es: seq<Dirent>)
    requires var m := Shown(ServerFolder(g, sfs1));
             && GoodConfig(g) && AllPrintable(g, m) && ListsTree(es, m)
             && TransfersFit(m)
    ensures forall i :: i in ManifestItems(g.rn, es) ==> Readable(i) && Pullable(sfs1, Trimmed(g.sdn), i)
  {
    var m := Shown(ServerFolder(g, sfs1));
    hide Build, TreeOf, UniqEntries, Resolve, Closed, TransferOk, ManifestItems, Readable, Pullable;
    ReplicaHeld(g.sdn, g.rn, sfs1, m);
    forall p | p in m ensures GoodPath(p) && |Trimmed(g.sdn) + Render([g.rn] + p)| <= PATH_LIMIT {
      assert Printable(g, p);
      PathLength(g.sdn, g.rn, p);
    }
    ManifestFits(g.rn, es, sfs1, Trimmed(g.sdn));
  }

  /** One side builds its tree and sends the manifest, the other pulls, and the first answers until SYNC_WRITE_DONE. */
  method Exchange(owner: Disk, ownerDir: string, taker: Disk, takerDir: string, rn: Name, es: seq<Dirent>,
                  isClient: bool,
                  stampOf: StampOf, fwd: Channel, back: Channel) returns (root: FileNode, ok: bool)
    requires owner != taker && fwd != back && fwd.data == "" && back.data == ""
    requires Fits(ManifestItems(rn, Kept(es, true)), owner.fs, ownerDir, stampOf)
    modifies taker, fwd, back
    ensures root.Valid() && fresh(root.Repr) && root.Val == Node(rn, true, 0, 0, false, Build(Kept(es, true)))
    ensures var items := ManifestItems(rn, Kept(es, true));
            var r := PullItems(old(taker.fs), takerDir, items, isClient, stampOf, owner.fs, ownerDir, taker.clock);
            && ok == r.Some?
            && (ok ==> taker.fs == r.value && fwd.data == "" && back.data == "")
  {
    hide Build, Readable, Pullable, PullItems, ItemsBytes, Marker, Kept;
    root := BuildRoot(es, rn);
    SendSyncFileWrapper(fwd, root);
    assert "" + Marker("SYNC") == Marker("SYNC");
    ok := TakeManifest(fwd, back, taker, takerDir, isClient, stampOf, owner, ownerDir, ManifestItems(rn, Kept(es, true)));
    if ok {
      FinishServing(back, fwd, owner, ownerDir);
    }
  }

  /** Every entry of a manifest can be printed, parsed and pulled. */
  ghost predicate Fits(items: seq<Item>, peer: Tree, peerDir: string, stampOf: StampOf) {
    forall i :: i in items ==> Readable(i) && Pullable(peer, peerDir, i) && '/' !in stampOf(i.path)
  }

  lemma FitsFirst(g: Config, sfs: Tree, cfs: Tree, ec: seq<Dirent>, stampOf: StampOf)
    requires GoodConfig(g) && HandshakeReady(g, sfs, cfs, stampOf) && ListsTree(ec, Client(g, cfs))
    ensures Fits(ManifestItems(g.rn, ec), cfs, g.cdn, stampOf)
  {
    StampsPlain(g, sfs, cfs, stampOf);
    ClientManifestFits(g, sfs, cfs, ec, stampOf);
  }

  lemma FitsSecond(
      g: Config, sfs: Tree, sfs1: Tree, cfs: Tree, ec: seq<Dirent>, es: seq<Dirent>, stampOf: StampOf, sclk: Clock)
    requires ServerDone(g, sfs, sfs1, cfs, ec, es, stampOf, sclk)
    ensures Fits(ManifestItems(g.rn, es), sfs1, Trimmed(g.sdn), stampOf)
  {
    StampsPlain(g, sfs, cfs, stampOf);
    hide Build, TreeOf, UniqEntries, View, HandshakeReady, Readable, Pullable, Select, ManifestItems, ServerPulls;
    hide SameOutside;
    hide AllPrintable, TransfersFit, Shown, HasFolder, ServerFolder, Client, Base, StampsFor, Shifted;
    hide Manifests, ListsTree;
    ServerManifestFits(g, sfs1, es);
  }

  /** The raw listings each side will see: the client's at first, the server's twice once it has pulled, in any two orders. */
  ghost predicate ListingsTrue(g: Config, sfs: Tree, cfs: Tree, ec: seq<Dirent>, es: seq<Dirent>, ez: seq<Dirent>,
                               stampOf: StampOf, sclk: Clock) {
    var r := PullItems(sfs, g.sdn, ManifestItems(g.rn, Kept(ec, true)), false, stampOf, cfs, g.cdn, sclk);
    ListsTree(ec, Client(g, cfs)) &&
    (r.Some? ==> ListsTree(es, ServerFolder(g, r.value)) && ListsTree(ez, ServerFolder(g, r.value)))
  }

  /** The same of what is left of the listings without the log file. */
  ghost predicate KeptTrue(g: Config, sfs: Tree, cfs: Tree, kc: seq<Dirent>, ks: seq<Dirent>, kz: seq<Dirent>,
                           stampOf: StampOf, sclk: Clock) {
    var r := PullItems(sfs, g.sdn, ManifestItems(g.rn, kc), false, stampOf, cfs, g.cdn, sclk);
    ListsTree(kc, Client(g, cfs)) &&
    (r.Some? ==> ListsTree(ks, Shown(ServerFolder(g, r.value))) && ListsTree(kz, Shown(ServerFolder(g, r.value))))
  }

  lemma ListingsKept(g: Config, sfs: Tree, cfs: Tree, ec: seq<Dirent>, es: seq<Dirent>, ez: seq<Dirent>,
                     stampOf: StampOf, sclk: Clock)
    requires HandshakeReady(g, sfs, cfs, stampOf) && ListingsTrue(g, sfs, cfs, ec, es, ez, stampOf, sclk)
    ensures KeptTrue(g, sfs, cfs, Kept(ec, true), Kept(es, true), Kept(ez, true), stampOf, sclk)
  {
    IsReady(g, sfs, cfs, stampOf);
    ShownWhole(Client(g, cfs));
    KeptLists(ec, Client(g, cfs));
    hide HandshakeReady, ListsTree, Kept, PullItems, ManifestItems, ServerFolder, Client, Shown;
    var r := PullItems(sfs, g.sdn, ManifestItems(g.rn, Kept(ec, true)), false, stampOf, cfs, g.cdn, sclk);
    if r.Some? {
      KeptLists(es, ServerFolder(g, r.value));
      KeptLists(ez, ServerFolder(g, r.value));
    }
  }

  lemma DoneOutside(g: Config, sfs: Tree, sfs1: Tree, cfs: Tree, ec: seq<Dirent>, es: seq<Dirent>, stampOf: StampOf,
                    sclk: Clock)
    requires ServerDone(g, sfs, sfs1, cfs, ec, es, stampOf, sclk)
    ensures SameOutside(sfs, sfs1, Base(g.sdn, g.rn))
  {
  }

  /** What each exchange will do, and what holds at the end. */
  lemma {:induction false} Plan(
      g: Config, sfs: Tree, cfs: Tree, ec: seq<Dirent>, es: seq<Dirent>, ez: seq<Dirent>, stampOf: StampOf,
      sclk: Clock, cclk: Clock)
      returns (sfs1: Tree, cfs1: Tree)
    requires GoodConfig(g) && HandshakeReady(g, sfs, cfs, stampOf) && KeptTrue(g, sfs, cfs, ec, es, ez, stampOf, sclk)
    ensures Fits(ManifestItems(g.rn, ec), cfs, g.cdn, stampOf)
    ensures PullItems(sfs, g.sdn, ManifestItems(g.rn, ec), false, stampOf, cfs, g.cdn, sclk) == Some(sfs1)
    ensures Fits(ManifestItems(g.rn, es), sfs1, Trimmed(g.sdn), stampOf)
    ensures PullItems(cfs, g.cdn, ManifestItems(g.rn, es), true, stampOf, sfs1, Trimmed(g.sdn), cclk) == Some(cfs1)
    ensures Synced(g, State(sfs1, cfs1, Build(ez), Build(ec))) && UniqEntries(ec) && UniqEntries(ez)
    ensures Lossless(ServerFolder(g, sfs), Client(g, cfs), StampsFor(g.rn, stampOf),
                     ServerFolder(g, sfs1), Client(g, cfs1))
    ensures SameOutside(sfs, sfs1, Base(g.sdn, g.rn)) && SameOutside(cfs, cfs1, Base(g.cdn, g.rn))
  {
    hide Build, TreeOf, UniqEntries, View, HandshakeReady, PullItems, Select, ManifestItems, ServerDone, SameOutside;
    hide Shown;
    hide ClientPulls, Lossless, Synced, HasFolder, ServerFolder, Client, Base, GoodConfig, Fits, StampsFor;
    hide Shifted, Closed, ServerPulls, AllPrintable, TransfersFit;
    FitsFirst(g, sfs, cfs, ec, stampOf);
    sfs1 := ServerResult(g, sfs, cfs, ec, stampOf, sclk);
    ServerIsDone(g, sfs, sfs1, cfs, ec, es, stampOf, sclk);
    FitsSecond(g, sfs, sfs1, cfs, ec, es, stampOf, sclk);
    DoneOutside(g, sfs, sfs1, cfs, ec, es, stampOf, sclk);
    cfs1 := ClientResult(g, sfs, sfs1, cfs, ec, es, stampOf, sclk, cclk);
    EndsSynced(g, sfs, sfs1, cfs, cfs1, ec, es, ez, stampOf, sclk, cclk);
  }

  /**
   * The whole handshake, both programs taking their turns. Nobody exits or is left waiting, both channels end empty, the
   * replicas are equal with nothing lost, the rest of both disks is as it was, and the state is one from which rounds converge.
   */
  method PlayHandshake(g: Config, sdisk: Disk, cdisk: Disk, up: Channel, down: Channel, stampOf: StampOf,
                       ec: seq<Dirent>, es: seq<Dirent>, ez: seq<Dirent>) returns (sroot: FileNode, croot: FileNode)
    requires GoodConfig(g) && sdisk != cdisk && up != down && up.data == "" && down.data == ""
    requires HandshakeReady(g, sdisk.fs, cdisk.fs, stampOf)
    requires ListingsTrue(g, sdisk.fs, cdisk.fs, ec, es, ez, stampOf, sdisk.clock)
    modifies sdisk, cdisk, up, down
    ensures up.data == "" && down.data == ""
    ensures sroot.Valid() && croot.Valid() && GoodRoot(sroot.Val) && GoodRoot(croot.Val)
    ensures Lossless(ServerFolder(g, old(sdisk.fs)), Client(g, old(cdisk.fs)), StampsFor(g.rn, stampOf),
                     ServerFolder(g, sdisk.fs), Client(g, cdisk.fs))
    ensures SameOutside(old(sdisk.fs), sdisk.fs, Base(g.sdn, g.rn)) && SameOutside(old(cdisk.fs), cdisk.fs, Base(g.cdn, g.rn))
    ensures Synced(g, State(sdisk.fs, cdisk.fs, sroot.Val.children, croot.Val.children))
  {
    hide Build, HandshakeReady, PullItems, ManifestItems, SameOutside, Shown, Lossless, Synced, ServerFolder;
    hide Client, Base;
    hide GoodConfig, Fits, StampsFor, View, Trimmed, ListingsTrue, KeptTrue, GoodRoot, UniqEntries, Kept;
    ListingsKept(g, sdisk.fs, cdisk.fs, ec, es, ez, stampOf, sdisk.clock);
    ghost var kc, ks, kz := Kept(ec, true), Kept(es, true), Kept(ez, true);
    ghost var sfs1, cfs1 := Plan(g, sdisk.fs, cdisk.fs, kc, ks, kz, stampOf, sdisk.clock, cdisk.clock);
    var ok;
    croot, ok := Exchange(cdisk, g.cdn, sdisk, g.sdn, g.rn, ec, false, stampOf, up, down);
    sroot, ok := Exchange(sdisk, Trimmed(g.sdn), cdisk, g.cdn, g.rn, es, true, stampOf, down, up);
    sroot := BuildRoot(ez, g.rn);
    BuiltGood(kc, croot.Val);
    BuiltGood(kz, sroot.Val);
  }

  /** Two disks that hold nothing but the empty shared folder are ready for a handshake. */
  lemma FreshDisks(g: Config, stampOf: StampOf)
    requires GoodConfig(g) && Printable(g, []) && forall x :: '/' !in stampOf(x)
    ensures HandshakeReady(g, FoldersTo(Base(g.sdn, g.rn)), FoldersTo(Base(g.cdn, g.rn)), stampOf)
  {
    hide Base, StampsFor, TransferOk, Printable;
    var sb, cb := Base(g.sdn, g.rn), Base(g.cdn, g.rn);
    EmptyReplica(sb);
    EmptyReplica(cb);
    hide FoldersTo, View;
  }

  lemma StampsPlain(g: Config, sfs: Tree, cfs: Tree, stampOf: StampOf)
    requires HandshakeReady(g, sfs, cfs, stampOf)
    ensures forall x :: '/' !in stampOf(x)
  {
  }
}
