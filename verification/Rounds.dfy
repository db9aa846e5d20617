/** Whole rounds and whole runs, from directory listings through bytes to disks. */
module Rounds {
  import opened Text
  import opened FileSystem
  import opened Patch
  import opened Convergence
  import opened UpdateReader
  import opened CreateReader
  import opened DeleteReader
  import opened Receiver
  import opened Replica
  import opened Diff
  import opened Handshake
  import opened Listings

  /** What the create walk sends for a path: whatever is on disk there. */
  function CreateAt(es: seq<Dirent>, p: Path): Msg {
    var e := EntryAt(es, p);
    if e.Folder? then MkDir(p) else Create(p, e.content)
  }

  function CreatesOf(es: seq<Dirent>, ps: seq<Path>): (ms: seq<Msg>)
    ensures |ms| == |ps|
    ensures forall i :: 0 <= i < |ps| ==> ms[i] == CreateAt(es, ps[i])
  {
    seq(|ps|, i requires 0 <= i < |ps| => CreateAt(es, ps[i]))
  }

  /** syncCheck: the bytes of one check of a directory against a remembered tree. */
  function CheckBytes(es: seq<Dirent>, olds: seq<Node>): string {
    var s := Scan(es, [], olds);
    DiffBytes(s.msgs, DeleteMsgs(Select(s.olds, [], false)), CreatesOf(es, Select(s.news, [], true)))
  }

  /** The messages of that check. */
  function CheckMsgs(es: seq<Dirent>, olds: seq<Node>): seq<Msg> {
    var s := Scan(es, [], olds);
    s.msgs + DeleteMsgs(Select(s.olds, [], false)) + CreatesOf(es, Select(s.news, [], true))
  }

  /** The tree remembered after the check. */
  function Remembered(es: seq<Dirent>, olds: seq<Node>): seq<Node> {
    Cleared(Scan(es, [], olds).news)
  }

  /** What a disk holds after a received stream; None when the process exits. */
  function Deliver(fs: Tree, dn: string, rn: string, bytes: string, clock: Clock): Option<Tree> {
    Replay(fs, TopRun(dn, rn, "", bytes).msgs, clock)
  }

  function Base(dn: string, rn: string): Path {
    Resolve(dn) + [rn]
  }

  /** Where the two replicas live. */
  datatype Config = Config(sdn: string, cdn: string, rn: string)

  predicate GoodConfig(g: Config) {
    g.sdn != "" && g.cdn != "" && GoodName(g.rn)
  }

  /** Every path of the tree can be printed and read back on both sides. */
  predicate Printable(g: Config, p: Path) {
    GoodPath(p) && Visible(p) &&
    |UpdateDir(g.sdn, g.rn) + Render(p)| <= PATH_LIMIT && |UpdateDir(g.cdn, g.rn) + Render(p)| <= PATH_LIMIT
  }

  predicate AllPrintable(g: Config, t: Tree) {
    forall p :: p in t ==> Printable(g, p)
  }

  /** Contents the differences of `m` against `b` carry are of the kind that arrives unchanged. */
  predicate ContentsFit(b: Snapshot, m: Tree) {
    (forall p :: p in Ups(b, m) ==> UpdateOk(m[p].content)) &&
    (forall p :: p in News(b, m) && m[p].File? ==> CreateOk(m[p].content))
  }

  /** One check delivered to the other side: exactly the diff happens there, nothing outside the replica changes. */
  lemma {:induction false} CheckDelivers(
      es: seq<Dirent>, olds: seq<Node>, fs: Tree, dn: string, rn: string, clock: Clock, t: string)
    requires UniqEntries(es) && Uniq(olds) && Down(olds)
    requires dn != "" && GoodName(rn) && Closed(fs) && HasFolder(fs, Base(dn, rn))
    requires Receives(Shown(View(fs, Base(dn, rn))), SnapshotOf(olds), TreeOf(es))
    requires ContentsFit(SnapshotOf(olds), TreeOf(es))
    requires PathsFit(dn, rn, SnapshotOf(olds), TreeOf(es))
    ensures TopRun(dn, rn, "", CheckBytes(es, olds) + (Marker("DONE_CONTROL") + t)).rest == t
    ensures var r := Deliver(fs, dn, rn, CheckBytes(es, olds) + (Marker("DONE_CONTROL") + t), clock);
            && r.Some? && Closed(r.value) && HasFolder(r.value, Base(dn, rn))
            && SameOutside(fs, r.value, Base(dn, rn))
            && Shown(View(r.value, Base(dn, rn))) ==
               AfterDiff(Shown(View(fs, Base(dn, rn))), SnapshotOf(olds), TreeOf(es), Shifted(Base(dn, rn), clock))
    ensures var r := Deliver(fs, dn, rn, CheckBytes(es, olds) + (Marker("DONE_CONTROL") + t), clock).value;
            LogKept(View(fs, Base(dn, rn)), View(r, Base(dn, rn)), Dels(SnapshotOf(olds), TreeOf(es)))
  {
    var base, b, m := Base(dn, rn), SnapshotOf(olds), TreeOf(es);
    var ups, dels, news := CheckLists(es, olds);
    var u, d, n := UpdateMsgs(m, ups), DeleteMsgs(dels), CreateMsgs(m, news);
    assert [] !in b by { InSnapshot(olds, []); }
    UpdatesSendable(dn, rn, b, m, ups);
    DeletesSendable(dn, rn, b, m, dels);
    CreatesSendable(dn, rn, b, m, news);
    StreamRefinement(dn, rn, u, d, n, t);
    DiffEffect(Shown(View(fs, base)), b, m, ups, dels, news, Shifted(base, clock));
    AllThree(u, d, n);
    ReplayOnView(fs, base, u + d + n, clock);
    ReplayShown(View(fs, base), u + d + n, Shifted(base, clock));
    ViewClosed(fs, base);
    DiffKeepsLog(View(fs, base), b, m, ups, dels, news, Shifted(base, clock));
  }

  /** Entries with the log file's name in their path are as they were, but for those below a deleted path. */
  ghost predicate LogKept(v: Tree, v': Tree, dels: set<Path>) {
    forall p :: "log.txt" in p ==> (p in v' <==> p in v && !Under(dels, p)) && (p in v' ==> v'[p] == v[p])
  }

  lemma DiffKeepsLog(v: Tree, b: Snapshot, m: Tree, ups: seq<Path>, dels: seq<Path>, news: seq<Path>, clock: Clock)
    requires Closed(v) && Elems(dels) == Dels(b, m)
    requires (forall p :: p in ups ==> HasFile(m, p)) && (forall p :: p in news ==> p in m)
    requires forall x :: x in DiffMsgs(m, ups, dels, news) ==> x.path != [] && Visible(x.path)
    requires Replay(v, DiffMsgs(m, ups, dels, news), clock).Some?
    ensures LogKept(v, Replay(v, DiffMsgs(m, ups, dels, news), clock).value, Dels(b, m))
  {
    var ms, d := DiffMsgs(m, ups, dels, news), DeleteMsgs(dels);
    forall p | "log.txt" in p
      ensures Under(Dels(b, m), p) <==> exists x :: x in ms && x.Delete? && x.path <= p
    {
      if Under(Dels(b, m), p) {
        var q :| q in Dels(b, m) && q <= p;
        assert q in Elems(dels);
        var i :| 0 <= i < |dels| && dels[i] == q;
        assert d[i] in d && d[i] in ms;
      }
      if x :| x in ms && x.Delete? && x.path <= p {
        assert x in d;
        var i :| 0 <= i < |d| && d[i] == x;
        assert dels[i] in Elems(dels);
      }
    }
    hide DiffMsgs, Dels, Closed, Replay;
    forall p | "log.txt" in p
      ensures var r := Replay(v, ms, clock).value; (p in r <==> p in v && !Under(Dels(b, m), p)) && (p in r ==> r[p] == v[p])
    {
      ReplayKeepsLog(v, ms, clock, p);
    }
  }

  /** A tree without the log file's name is shown whole. */
  lemma ShownWhole(v: Tree)
    requires forall p :: p in v ==> "log.txt" !in p
    ensures Shown(v) == v
  {
  }

  /** Without such entries before there are none after. */
  lemma NoLogAfter(v: Tree, v': Tree, dels: set<Path>)
    requires LogKept(v, v', dels) && forall p :: p in v ==> "log.txt" !in p
    ensures forall p :: p in v' ==> "log.txt" !in p
  {
  }

  /**
   * The log file is never sent: on any raw listing of the server's folder, against a remembered tree without it, no message
   * of the server's check and no node of the tree it remembers has the log file's name in its path.
   */
  lemma {:induction false} LogNotSent(es: seq<Dirent>, olds: seq<Node>)
    requires UniqEntries(es) && Uniq(olds) && Down(olds) && forall p :: p in SnapshotOf(olds) ==> "log.txt" !in p
    ensures forall m :: m in CheckMsgs(Kept(es, true), olds) ==> "log.txt" !in m.path
    ensures forall p :: Get(Remembered(Kept(es, true), olds), p).Some? ==> "log.txt" !in p
  {
    hide Kept, TreeOf, SnapshotOf, CheckMsgs, CheckBytes, DiffBytes, Uniq, Down, UniqEntries, Get, Build, Remembered;
    var ks := Kept(es, true);
    KeptUniq(es, true);
    RememberedIsBuild(ks, olds);
    forall p | Get(Build(ks), p).Some? ensures "log.txt" !in p { LogNotBuilt(es, p); }
    forall p | p in TreeOf(ks) ensures "log.txt" !in p { KeptTree(es, p); }
    var ups, dels, news := CheckLists(ks, olds);
    MessagesWithoutLog(SnapshotOf(olds), TreeOf(ks), ups, dels, news);
  }

  lemma MessagesWithoutLog(b: Snapshot, m: Tree, ups: seq<Path>, dels: seq<Path>, news: seq<Path>)
    requires (forall p :: p in b ==> "log.txt" !in p) && (forall p :: p in m ==> "log.txt" !in p)
    requires (forall p :: p in ups ==> HasFile(m, p)) && (forall p :: p in news ==> p in m) && Elems(dels) == Dels(b, m)
    ensures forall x :: x in UpdateMsgs(m, ups) + DeleteMsgs(dels) + CreateMsgs(m, news) ==> "log.txt" !in x.path
  {
    var u, d, n := UpdateMsgs(m, ups), DeleteMsgs(dels), CreateMsgs(m, news);
    forall i | 0 <= i < |dels| ensures "log.txt" !in d[i].path { assert dels[i] in Elems(dels); }
    forall i | 0 <= i < |ups| ensures "log.txt" !in u[i].path { assert ups[i] in ups; }
    forall i | 0 <= i < |news| ensures "log.txt" !in n[i].path { assert news[i] in news; }
  }

  /** A raw listing of the server's folder shows, once the log file is passed over, the server's replica. */
  lemma KeptLists(es: seq<Dirent>, t: Tree)
    requires ListsTree(es, t)
    ensures ListsTree(Kept(es, true), Shown(t))
  {
    KeptUniq(es, true);
    forall p ensures (p in TreeOf(Kept(es, true)) <==> p in Shown(t)) && (p in Shown(t) ==> TreeOf(Kept(es, true))[p] == t[p]) {
      KeptTree(es, p);
    }
    assert TreeOf(Kept(es, true)) == Shown(t);
  }

  predicate Below(m: Msg) {
    m.path != [] && Visible(m.path)
  }

  lemma AllThree(u: seq<Msg>, d: seq<Msg>, n: seq<Msg>)
    requires forall m :: m in u || m in d || m in n ==> Below(m)
    ensures forall m :: m in u + d + n ==> m.path != [] && Visible(m.path)
  {
  }

  /** The three lists of a check, and that its bytes are the bytes of the corresponding messages. */
  lemma CheckLists(es: seq<Dirent>, olds: seq<Node>) returns (ups: seq<Path>, dels: seq<Path>, news: seq<Path>)
    requires UniqEntries(es) && Uniq(olds) && Down(olds)
    ensures Lists(SnapshotOf(olds), TreeOf(es), ups, dels, news)
    ensures forall p :: p in ups ==> HasFile(TreeOf(es), p)
    ensures forall p :: p in news ==> p in TreeOf(es)
    ensures CheckBytes(es, olds) == DiffBytes(UpdateMsgs(TreeOf(es), ups), DeleteMsgs(dels), CreateMsgs(TreeOf(es), news))
    ensures CheckMsgs(es, olds) == UpdateMsgs(TreeOf(es), ups) + DeleteMsgs(dels) + CreateMsgs(TreeOf(es), news)
  {
    var s := Scan(es, [], olds);
    ups, dels, news := MsgPaths(s.msgs), Select(s.olds, [], false), Select(s.news, [], true);
    ScanExact(es, olds);
    UpdatesCarryContent(es, olds);
    forall p | p in news ensures p in TreeOf(es) {
      assert p in Elems(news);
    }
    assert CreatesOf(es, news) == CreateMsgs(TreeOf(es), news);
  }

  ghost predicate PathsFit(dn: string, rn: string, b: Snapshot, m: Tree) {
    forall p :: p in b || p in m ==> GoodPath(p) && Visible(p) && |UpdateDir(dn, rn) + Render(p)| <= PATH_LIMIT
  }

  lemma UpdatesSendable(dn: string, rn: string, b: Snapshot, m: Tree, ups: seq<Path>)
    requires Elems(ups) == Ups(b, m) && [] !in b && ContentsFit(b, m) && PathsFit(dn, rn, b, m)
    ensures forall p :: p in ups ==> HasFile(m, p)
    ensures forall x :: x in UpdateMsgs(m, ups) ==> SendableUpdate(UpdateDir(dn, rn), x) && Below(x)
  {
    forall p | p in ups ensures p in Ups(b, m) { assert p in Elems(ups); }
    var u := UpdateMsgs(m, ups);
    forall x | x in u ensures SendableUpdate(UpdateDir(dn, rn), x) && Below(x) {
      var i :| 0 <= i < |u| && u[i] == x;
      assert ups[i] in ups;
    }
  }

  lemma DeletesSendable(dn: string, rn: string, b: Snapshot, m: Tree, dels: seq<Path>)
    requires Elems(dels) == Dels(b, m) && [] !in b && PathsFit(dn, rn, b, m)
    ensures forall x :: x in DeleteMsgs(dels) ==> SendableDelete(UpdateDir(dn, rn), x) && Below(x)
  {
    var d := DeleteMsgs(dels);
    forall x | x in d ensures SendableDelete(UpdateDir(dn, rn), x) && Below(x) {
      var i :| 0 <= i < |d| && d[i] == x;
      assert dels[i] in Elems(dels);
    }
  }

  lemma CreatesSendable(dn: string, rn: string, b: Snapshot, m: Tree, news: seq<Path>)
    requires Elems(news) == News(b, m) && ContentsFit(b, m) && PathsFit(dn, rn, b, m)
    ensures forall p :: p in news ==> p in m
    ensures forall x :: x in CreateMsgs(m, news) ==> SendableCreate(x) && Below(x)
  {
    forall p | p in news ensures p in News(b, m) { assert p in Elems(news); }
    var n := CreateMsgs(m, news);
    forall x | x in n ensures SendableCreate(x) && Below(x) {
      var i :| 0 <= i < |n| && n[i] == x;
      assert news[i] in news;
    }
  }

  lemma ContentsSent(b: Snapshot, m: Tree, ups: seq<Path>, news: seq<Path>)
    requires Elems(ups) == Ups(b, m) && Elems(news) == News(b, m)
    requires (forall p :: p in ups ==> HasFile(m, p)) && (forall p :: p in news ==> p in m)
    ensures ContentsFit(b, m) <==>
            ((forall x :: x in UpdateMsgs(m, ups) ==> UpdateOk(x.content)) &&
             (forall x :: x in CreateMsgs(m, news) && x.Create? ==> CreateOk(x.content)))
  {
    hide UpdateOk, CreateOk;
    var u, n := UpdateMsgs(m, ups), CreateMsgs(m, news);
    forall i | 0 <= i < |ups| ensures HasFile(m, ups[i]) && u[i] in u && u[i].content == m[ups[i]].content {
      assert ups[i] in ups;
    }
    forall i | 0 <= i < |news| ensures news[i] in m && n[i] in n && (m[news[i]].File? ==> n[i].content == m[news[i]].content) {
      assert news[i] in news;
    }
    forall p | p in Ups(b, m) ensures exists i :: 0 <= i < |ups| && ups[i] == p { assert p in Elems(ups); }
    forall p | p in News(b, m) ensures exists i :: 0 <= i < |news| && news[i] == p { assert p in Elems(news); }
    forall i | 0 <= i < |ups| ensures ups[i] in Ups(b, m) { assert ups[i] in Elems(ups); }
    forall i | 0 <= i < |news| ensures news[i] in News(b, m) { assert news[i] in Elems(news); }
  }

  /** A check is performed exactly, and leaves exactly what follows it, if and only if every content suits its command. */
  lemma {:induction false} CheckExact(es: seq<Dirent>, olds: seq<Node>, dn: string, rn: string, t: string)
    requires UniqEntries(es) && Uniq(olds) && Down(olds) && dn != "" && GoodName(rn)
    requires PathsFit(dn, rn, SnapshotOf(olds), TreeOf(es))
    ensures (TopRun(dn, rn, "", CheckBytes(es, olds) + (Marker("DONE_CONTROL") + t)) ==
             Parsed(AllRebased(Base(dn, rn), CheckMsgs(es, olds)), t)) <==>
            ContentsFit(SnapshotOf(olds), TreeOf(es))
  {
    var b, m := SnapshotOf(olds), TreeOf(es);
    var ups, dels, news := CheckLists(es, olds);
    assert [] !in b by { InSnapshot(olds, []); }
    hide CheckBytes, CheckMsgs, SnapshotOf, TreeOf, TopRun, AllRebased, UpdateOk, CreateOk, Marker, DiffBytes, UniqEntries, Uniq;
    hide Down, ContentsFit;
    AllSendable(dn, rn, b, m, ups, dels, news);
    ContentsSent(b, m, ups, news);
    StreamExact(dn, rn, UpdateMsgs(m, ups), DeleteMsgs(dels), CreateMsgs(m, news), t);
  }

  lemma AllSendable(dn: string, rn: string, b: Snapshot, m: Tree, ups: seq<Path>, dels: seq<Path>, news: seq<Path>)
    requires Lists(b, m, ups, dels, news) && [] !in b && PathsFit(dn, rn, b, m)
    requires (forall p :: p in ups ==> HasFile(m, p)) && (forall p :: p in news ==> p in m)
    ensures forall x :: x in UpdateMsgs(m, ups) ==> x.Update? && Sendable(UpdateDir(dn, rn), x.path)
    ensures forall x :: x in DeleteMsgs(dels) ==> SendableDelete(UpdateDir(dn, rn), x)
    ensures forall x :: x in CreateMsgs(m, news) ==> (x.MkDir? || x.Create?) && x.path != [] && GoodPath(x.path)
  {
    hide Render, UpdateDir, GoodName;
    DeletesSendable(dn, rn, b, m, dels);
    forall i | 0 <= i < |ups| ensures ups[i] in Ups(b, m) { assert ups[i] in Elems(ups); }
    forall i | 0 <= i < |news| ensures news[i] in News(b, m) { assert news[i] in Elems(news); }
  }

  // ---------------------------------------------------------------------------------------------
  // The two-party system

  /** Both disks and both remembered trees, between two rounds. */
  datatype State = State(s: Tree, c: Tree, ss: seq<Node>, cs: seq<Node>)

  /**
   * What the environment contributes to a round: both disks after the users' edits, the order in which each directory
   * is listed, and the clocks that stamp the writes.
   */
  datatype Env = Env(s1: Tree, c1: Tree, es: seq<Dirent>, ec: seq<Dirent>, ez: seq<Dirent>, sclk: Clock, cclk: Clock)

  /** The server's folder as it is on disk. */
  function ServerFolder(g: Config, fs: Tree): Tree {
    View(fs, Base(g.sdn, g.rn))
  }

  /** The server's replica: its folder without the log file. */
  function Server(g: Config, fs: Tree): Tree {
    Shown(ServerFolder(g, fs))
  }

  /** The client's replica is its whole folder. */
  function Client(g: Config, fs: Tree): Tree {
    View(fs, Base(g.cdn, g.rn))
  }

  /** What the client reads in a round: the server's check, which passes over its log file. */
  function DownBytes(st: State, e: Env): string {
    CheckBytes(Kept(e.es, true), st.ss) + (Marker("DONE_CONTROL") + "")
  }

  /** What the server reads in a round; the second marker is for the next round. */
  function UpBytes(st: State, e: Env): string {
    CheckBytes(e.ec, st.cs) + (Marker("DONE_CONTROL") + Marker("DONE_CONTROL"))
  }

  /** The client's disk once it has received the server's check. */
  function ClientHalf(g: Config, st: State, e: Env): Option<Tree> {
    Deliver(e.c1, g.cdn, g.rn, DownBytes(st, e), e.cclk)
  }

  /** The server's disk once it has received the client's check. */
  function ServerHalf(g: Config, st: State, e: Env): Option<Tree> {
    Deliver(e.s1, g.sdn, g.rn, UpBytes(st, e), e.sclk)
  }

  /** One round; None when a process exits. The server rebuilds its tree, the client keeps the one its check made. */
  function Round(g: Config, st: State, e: Env): Option<State> {
    var c2, s2 := ClientHalf(g, st, e), ServerHalf(g, st, e);
    if c2.None? || s2.None? then None
    else Some(State(s2.value, c2.value, Build(Kept(e.ez, true)), Remembered(e.ec, st.cs)))
  }

  predicate GoodSnapshot(f: seq<Node>) {
    Uniq(f) && Down(f)
  }

  /** Between rounds: equal replicas, and snapshots that agree with the disks they were taken from. */
  ghost predicate Synced(g: Config, st: State) {
    && Closed(st.s) && HasFolder(st.s, Base(g.sdn, g.rn)) && Closed(st.c) && HasFolder(st.c, Base(g.cdn, g.rn))
    && SameData(Server(g, st.s), Client(g, st.c))
    && GoodSnapshot(st.ss) && GoodSnapshot(st.cs)
    && Exact(SnapshotOf(st.ss), Server(g, st.s)) && Tracks(SnapshotOf(st.cs), Client(g, st.c))
  }

  /**
   * Every touched file holds a content that survives the commands that carry it. An edit of a file both snapshots know is
   * sent as an update and echoed as one; a file neither knows is created and echoed as a create; a file pulled in the
   * handshake, which the client's snapshot does not know yet, is updated by the server and echoed as a create.
   */
  ghost predicate EditsFit(s0: Tree, s1: Tree, c0: Tree, c1: Tree, bc: Snapshot) {
    && (forall p :: HasFile(s1, p) && Touched(s0, s1, p) ==>
          (p in s0 ==> UpdateOk(s1[p].content)) && (p !in bc ==> CreateOk(s1[p].content)))
    && (forall p :: HasFile(c1, p) && Touched(c0, c1, p) ==>
          (p in bc ==> UpdateOk(c1[p].content)) && (p !in bc ==> CreateOk(c1[p].content)))
  }

  /** Every file that nobody touched but the client's snapshot does not know yet survives being echoed as a create. */
  ghost predicate EchoesFit(s0: Tree, s1: Tree, c0: Tree, c1: Tree, bc: Snapshot) {
    forall p :: HasFile(c0, p) && p !in bc && !Touched(s0, s1, p) && !Touched(c0, c1, p) ==> CreateOk(c0[p].content)
  }

  /** A listing shows a directory as it is. */
  predicate ListsTree(es: seq<Dirent>, t: Tree) {
    UniqEntries(es) && TreeOf(es) == t
  }

  /**
   * The users' edits, which turn the two disks into `fs` and `fc`, are independent, printable and of contents that fit;
   * no client entry is named like the log file.
   */
  ghost predicate LegalMoves(g: Config, st: State, fs: Tree, fc: Tree) {
    var s0, s1, c0, c1 := Server(g, st.s), Server(g, fs), Client(g, st.c), Client(g, fc);
    && Closed(fs) && HasFolder(fs, Base(g.sdn, g.rn)) && Closed(fc) && HasFolder(fc, Base(g.cdn, g.rn))
    && (forall p :: p in c1 ==> "log.txt" !in p)
    && Edited(s0, s1) && Edited(c0, c1) && Independent(s0, s1, c0, c1)
    && EditsFit(s0, s1, c0, c1, SnapshotOf(st.cs))
    && AllPrintable(g, s0) && AllPrintable(g, s1) && AllPrintable(g, c1)
  }

  /** Such edits, when also what the handshake left unknown to the client's snapshot can be echoed and was not deleted. */
  ghost predicate LegalEdits(g: Config, st: State, fs: Tree, fc: Tree) {
    && LegalMoves(g, st, fs, fc)
    && DeletesSeen(Client(g, st.c), Client(g, fc), SnapshotOf(st.cs))
    && EchoesFit(Server(g, st.s), Server(g, fs), Client(g, st.c), Client(g, fc), SnapshotOf(st.cs))
  }

  /** The edits are legal and listings tell the truth. */
  ghost predicate Legal(g: Config, st: State, e: Env) {
    && LegalEdits(g, st, e.s1, e.c1)
    && ListsTree(e.es, ServerFolder(g, e.s1))
    && (ClientHalf(g, st, e).Some? ==> ListsTree(e.ec, Client(g, ClientHalf(g, st, e).value)))
    && (ServerHalf(g, st, e).Some? ==> ListsTree(e.ez, ServerFolder(g, ServerHalf(g, st, e).value)))
  }

  /** In a legal round the server's diff carries only contents and paths that arrive. */
  lemma FirstLegFits(g: Config, s0: Tree, s1: Tree, c0: Tree, c1: Tree, bs: Snapshot, bc: Snapshot)
    requires Exact(bs, s0) && EditsFit(s0, s1, c0, c1, bc) && AllPrintable(g, s0) && AllPrintable(g, s1)
    requires SameData(s0, c0) && Tracks(bc, c0)
    ensures ContentsFit(bs, s1) && PathsFit(g.cdn, g.rn, bs, s1)
  {
    forall p | p in Ups(bs, s1) || p in News(bs, s1) ensures Touched(s0, s1, p) { }
    forall p | p in bs || p in s1 ensures Printable(g, p) { }
  }

  /** What the client holds when it sends its diff. */
  ghost predicate Holding(s0: Tree, s1: Tree, c0: Tree, c1: Tree, c2: Tree) {
    && SameData(c2, Merged(s0, s1, c1)) && SameData(s0, c0) && HasFolder(c0, [])
    && forall p :: p in c2 && !Touched(s0, s1, p) ==> c2[p] == c1[p]
  }

  /** What nobody touched and the client's snapshot does not know is exactly what the client echoes as it was. */
  lemma Echoed(s0: Tree, s1: Tree, c0: Tree, c1: Tree, b: Snapshot, c2: Tree, p: Path)
    requires Holding(s0, s1, c0, c1, c2) && !Touched(s0, s1, p) && !Touched(c0, c1, p)
    ensures p in c2 <==> p in c0
    ensures p in c2 ==> c2[p] == c0[p]
    ensures HasFile(c0, p) && p !in b <==> p in News(b, c2) && c2[p].File?
  {
    assert p in c2 <==> p in Merged(s0, s1, c1);
  }

  /** What the client sends of what somebody touched fits the command that carries it. */
  lemma SentByClient(s0: Tree, s1: Tree, c0: Tree, c1: Tree, b: Snapshot, c2: Tree, p: Path)
    requires Holding(s0, s1, c0, c1, c2) && EditsFit(s0, s1, c0, c1, b) && Tracks(b, c0) && HasFile(c2, p)
    ensures p in Ups(b, c2) ==> UpdateOk(c2[p].content)
    ensures p in News(b, c2) && (Touched(s0, s1, p) || Touched(c0, c1, p)) ==> CreateOk(c2[p].content)
  {
    assert p in Merged(s0, s1, c1);
    if !Touched(s0, s1, p) && !Touched(c0, c1, p) {
      assert c2[p] == c0[p];
    }
  }

  /** The client's diff, echoes included, carries only paths that arrive, and contents that do if and only if the echoes fit. */
  lemma SecondLegFits(g: Config, s0: Tree, s1: Tree, c0: Tree, c1: Tree, b: Snapshot, c2: Tree)
    requires Holding(s0, s1, c0, c1, c2) && EditsFit(s0, s1, c0, c1, b) && Tracks(b, c0)
    requires AllPrintable(g, s0) && AllPrintable(g, s1) && AllPrintable(g, c1)
    ensures ContentsFit(b, c2) <==> EchoesFit(s0, s1, c0, c1, b)
    ensures PathsFit(g.sdn, g.rn, b, c2)
  {
    hide EditsFit, EchoesFit, ContentsFit, Holding, PathsFit, AllPrintable, Tracks;
    if EchoesFit(s0, s1, c0, c1, b) { EchoesFitEnough(s0, s1, c0, c1, b, c2); }
    if ContentsFit(b, c2) { EchoesFitNeeded(s0, s1, c0, c1, b, c2); }
    SecondLegPaths(g, s0, s1, c0, c1, b, c2);
  }

  lemma EchoesFitEnough(s0: Tree, s1: Tree, c0: Tree, c1: Tree, b: Snapshot, c2: Tree)
    requires Holding(s0, s1, c0, c1, c2) && EditsFit(s0, s1, c0, c1, b) && Tracks(b, c0)
    requires EchoesFit(s0, s1, c0, c1, b)
    ensures ContentsFit(b, c2)
  {
    hide EditsFit, Holding, Tracks, Touched;
    forall p | HasFile(c2, p)
      ensures p in Ups(b, c2) ==> UpdateOk(c2[p].content)
      ensures p in News(b, c2) ==> CreateOk(c2[p].content)
    {
      SentByClient(s0, s1, c0, c1, b, c2, p);
      if !Touched(s0, s1, p) && !Touched(c0, c1, p) { Echoed(s0, s1, c0, c1, b, c2, p); }
    }
  }

  lemma EchoesFitNeeded(s0: Tree, s1: Tree, c0: Tree, c1: Tree, b: Snapshot, c2: Tree)
    requires Holding(s0, s1, c0, c1, c2) && ContentsFit(b, c2)
    ensures EchoesFit(s0, s1, c0, c1, b)
  {
    hide Holding, Touched;
    forall p | HasFile(c0, p) && p !in b && !Touched(s0, s1, p) && !Touched(c0, c1, p) ensures CreateOk(c0[p].content) {
      Echoed(s0, s1, c0, c1, b, c2, p);
    }
  }

  lemma SecondLegPaths(g: Config, s0: Tree, s1: Tree, c0: Tree, c1: Tree, b: Snapshot, c2: Tree)
    requires Holding(s0, s1, c0, c1, c2) && Tracks(b, c0)
    requires AllPrintable(g, s0) && AllPrintable(g, s1) && AllPrintable(g, c1)
    ensures PathsFit(g.sdn, g.rn, b, c2)
  {
    hide Printable;
    forall p | p in b || p in c2 ensures Printable(g, p) {
      if p in c2 { assert p in Merged(s0, s1, c1); } else { assert p in c0 && p in s0; }
    }
    PrintableFits(g, b, c2);
  }

  lemma PrintableFits(g: Config, b: Snapshot, m: Tree)
    requires forall p :: p in b || p in m ==> Printable(g, p)
    ensures PathsFit(g.sdn, g.rn, b, m) && PathsFit(g.cdn, g.rn, b, m)
  {
  }

  function ClientClock(g: Config, e: Env): Clock {
    Shifted(Base(g.cdn, g.rn), e.cclk)
  }

  function ServerClock(g: Config, e: Env): Clock {
    Shifted(Base(g.sdn, g.rn), e.sclk)
  }

  lemma StartsRound(g: Config, st: State, fs: Tree, fc: Tree)
    requires Synced(g, st) && LegalMoves(g, st, fs, fc)
    ensures RoundStart(Server(g, st.s), Server(g, fs), Client(g, st.c), Client(g, fc), SnapshotOf(st.ss), SnapshotOf(st.cs))
  {
    hide Server, Client, Closed, SameData, Edited, Independent, Exact, Tracks, SnapshotOf, EditsFit, AllPrintable;
    hide GoodSnapshot;
  }

  /** The first half of a round: the server's check arrives, and the client holds the merge. */
  lemma {:induction false} FirstHalf(g: Config, st: State, e: Env)
    requires GoodConfig(g) && Synced(g, st) && LegalMoves(g, st, e.s1, e.c1) && ListsTree(e.es, ServerFolder(g, e.s1))
    ensures TopRun(g.cdn, g.rn, "", DownBytes(st, e)).rest == ""
    ensures var r := ClientHalf(g, st, e);
            && r.Some? && Closed(r.value) && HasFolder(r.value, Base(g.cdn, g.rn))
            && SameOutside(e.c1, r.value, Base(g.cdn, g.rn))
            && Client(g, r.value) == AfterDiff(Client(g, e.c1), SnapshotOf(st.ss), Server(g, e.s1), ClientClock(g, e))
            && forall p :: p in Client(g, r.value) ==> "log.txt" !in p
  {
    hide Kept, LogKept;
    hide View, Shown, Deliver, CheckBytes, Uniq, Down, UniqEntries, SnapshotOf, TreeOf, Closed, SameData, AfterDiff;
    hide SameOutside, ContentsFit, PathsFit, Receives, Merged, Edited, Independent, Marker, Exact;
    var s0, s1, c0, c1 := Server(g, st.s), Server(g, e.s1), Client(g, st.c), Client(g, e.c1);
    var bs, bc := SnapshotOf(st.ss), SnapshotOf(st.cs);
    StartsRound(g, st, e.s1, e.c1);
    ClientReceives(s0, s1, c0, c1, bs, bc);
    FirstLegFits(g, s0, s1, c0, c1, bs, bc);
    KeptLists(e.es, ServerFolder(g, e.s1));
    ShownWhole(c1);
    CheckDelivers(Kept(e.es, true), st.ss, e.c1, g.cdn, g.rn, e.cclk, "");
    var c2 := Client(g, ClientHalf(g, st, e).value);
    NoLogAfter(c1, c2, Dels(bs, s1));
    ShownWhole(c2);
  }

  lemma ClientHolds(s0: Tree, s1: Tree, c0: Tree, c1: Tree, bs: Snapshot, bc: Snapshot, clock: Clock)
    requires RoundStart(s0, s1, c0, c1, bs, bc)
    ensures Holding(s0, s1, c0, c1, AfterDiff(c1, bs, s1, clock)) && Tracks(bc, c0)
  {
    hide AfterDiff, Merged, Touched, SameData, Independent, Exact;
    FirstLeg(s0, s1, c0, c1, bs, bc, clock);
  }

  /** The second half: the client's check arrives, echoes included. */
  lemma {:induction false} SecondHalf(g: Config, st: State, e: Env)
    requires GoodConfig(g) && Synced(g, st) && LegalMoves(g, st, e.s1, e.c1) && ListsTree(e.es, ServerFolder(g, e.s1))
    requires EchoesFit(Server(g, st.s), Server(g, e.s1), Client(g, st.c), Client(g, e.c1), SnapshotOf(st.cs))
    requires ClientHalf(g, st, e).Some? ==> ListsTree(e.ec, Client(g, ClientHalf(g, st, e).value))
    ensures TopRun(g.sdn, g.rn, "", UpBytes(st, e)).rest == Marker("DONE_CONTROL")
    ensures ClientHalf(g, st, e).Some?
    ensures var c2, r := Client(g, ClientHalf(g, st, e).value), ServerHalf(g, st, e);
            && r.Some? && Closed(r.value) && HasFolder(r.value, Base(g.sdn, g.rn))
            && SameOutside(e.s1, r.value, Base(g.sdn, g.rn))
            && Server(g, r.value) == AfterDiff(Server(g, e.s1), SnapshotOf(st.cs), c2, ServerClock(g, e))
            && LogKept(ServerFolder(g, e.s1), ServerFolder(g, r.value), Dels(SnapshotOf(st.cs), c2))
  {
    hide Kept, LogKept;
    hide View, Shown, Deliver, CheckBytes, Uniq, Down, UniqEntries, SnapshotOf, TreeOf, Closed, SameData, AfterDiff;
    hide SameOutside, ContentsFit, PathsFit, Receives, Merged, Edited, Independent, Marker, Exact;
    var s0, s1, c0, c1 := Server(g, st.s), Server(g, e.s1), Client(g, st.c), Client(g, e.c1);
    var bs, bc := SnapshotOf(st.ss), SnapshotOf(st.cs);
    FirstHalf(g, st, e);
    StartsRound(g, st, e.s1, e.c1);
    RoundMerges(s0, s1, c0, c1, bs, bc, ClientClock(g, e), ServerClock(g, e));
    ClientHolds(s0, s1, c0, c1, bs, bc, ClientClock(g, e));
    SecondLegFits(g, s0, s1, c0, c1, bc, Client(g, ClientHalf(g, st, e).value));
    CheckDelivers(e.ec, st.cs, e.s1, g.sdn, g.rn, e.sclk, Marker("DONE_CONTROL"));
  }

  /**
   * What the handshake pulled, and nobody touched before the first round, goes back to the server as a create. The server
   * performs exactly the client's diff, and leaves exactly the marker of the next round, if and only if those files hold
   * contents a create transfers.
   */
  lemma {:induction false} EchoesExact(g: Config, st: State, e: Env)
    requires GoodConfig(g) && Synced(g, st) && LegalMoves(g, st, e.s1, e.c1) && ListsTree(e.es, ServerFolder(g, e.s1))
    requires ClientHalf(g, st, e).Some? ==> ListsTree(e.ec, Client(g, ClientHalf(g, st, e).value))
    ensures (TopRun(g.sdn, g.rn, "", UpBytes(st, e)) ==
             Parsed(AllRebased(Base(g.sdn, g.rn), CheckMsgs(e.ec, st.cs)), Marker("DONE_CONTROL"))) <==>
            EchoesFit(Server(g, st.s), Server(g, e.s1), Client(g, st.c), Client(g, e.c1), SnapshotOf(st.cs))
  {
    hide View, Shown, Deliver, CheckBytes, Uniq, Down, UniqEntries, SnapshotOf, TreeOf, Closed, SameData, AfterDiff;
    hide SameOutside, ContentsFit, PathsFit, Receives, Merged, Edited, Independent, Marker, Exact, CheckMsgs, EchoesFit, TopRun;
    var s0, s1, c0, c1 := Server(g, st.s), Server(g, e.s1), Client(g, st.c), Client(g, e.c1);
    var bs, bc := SnapshotOf(st.ss), SnapshotOf(st.cs);
    FirstHalf(g, st, e);
    StartsRound(g, st, e.s1, e.c1);
    ClientHolds(s0, s1, c0, c1, bs, bc, ClientClock(g, e));
    SecondLegFits(g, s0, s1, c0, c1, bc, Client(g, ClientHalf(g, st, e).value));
    CheckExact(e.ec, st.cs, g.sdn, g.rn, Marker("DONE_CONTROL"));
  }

  /**
   * A legal round from a synchronised state never makes a process exit, leaves both replicas equal to the three-way
   * merge, touches nothing outside them, and ends synchronised with both snapshots exact; of what was sent only the marker
   * that starts the next round is left unread.
   */
  lemma {:induction false} RoundTheorem(g: Config, st: State, e: Env)
    requires GoodConfig(g) && Synced(g, st) && Legal(g, st, e)
    ensures var r := Round(g, st, e);
            && r.Some?
            && SameData(Client(g, r.value.c), Merged(Server(g, st.s), Server(g, e.s1), Client(g, e.c1)))
            && SameData(Server(g, r.value.s), Merged(Server(g, st.s), Server(g, e.s1), Client(g, e.c1)))
            && SameOutside(e.c1, r.value.c, Base(g.cdn, g.rn)) && SameOutside(e.s1, r.value.s, Base(g.sdn, g.rn))
            && Synced(g, r.value) && Exact(SnapshotOf(r.value.cs), Client(g, r.value.c))
    ensures TopRun(g.cdn, g.rn, "", DownBytes(st, e)).rest == ""
    ensures TopRun(g.sdn, g.rn, "", UpBytes(st, e)).rest == Marker("DONE_CONTROL")
  {
    hide LegalMoves, EchoesFit, Server, Client, ServerFolder, Kept, LogKept, Deliver, Uniq, Down, UniqEntries, SnapshotOf;
    hide TreeOf, Closed, SameData, AfterDiff, SameOutside;
    hide Merged, Marker, Build, Remembered, ClientHalf, ServerHalf, TopRun, RoundStart, Receives;
    var s0, s1, c0, c1 := Server(g, st.s), Server(g, e.s1), Client(g, st.c), Client(g, e.c1);
    FirstHalf(g, st, e);
    SecondHalf(g, st, e);
    StartsRound(g, st, e.s1, e.c1);
    RoundMerges(s0, s1, c0, c1, SnapshotOf(st.ss), SnapshotOf(st.cs), ClientClock(g, e), ServerClock(g, e));
    RememberedIsBuild(e.ec, st.cs);
    ServerKeeps(g, e.ez, ServerHalf(g, st, e).value);
    SnapshotGood(Kept(e.ez, true));
    SnapshotGood(e.ec);
  }

  /**
   * In a legal round the log file stays where it is: no message the server sends has its name in its path, nor has any path
   * of the client's folder afterwards, and below the server's folder such entries are exactly as they were, but for those
   * in folders the client deleted.
   */
  lemma {:induction false} LogStays(g: Config, st: State, e: Env)
    requires GoodConfig(g) && Synced(g, st) && Legal(g, st, e)
    ensures forall m :: m in CheckMsgs(Kept(e.es, true), st.ss) ==> "log.txt" !in m.path
    ensures Round(g, st, e).Some?
    ensures forall p :: p in View(Round(g, st, e).value.c, Base(g.cdn, g.rn)) ==> "log.txt" !in p
    ensures var v, r := View(e.s1, Base(g.sdn, g.rn)), Round(g, st, e).value;
            var v', c := View(r.s, Base(g.sdn, g.rn)), View(r.c, Base(g.cdn, g.rn));
            forall p :: "log.txt" in p ==>
              && (p in v' <==> p in v && forall d :: d in SnapshotOf(st.cs) && d <= p ==> d in c)
              && (p in v' ==> v'[p] == v[p])
  {
    hide View, Shown, Deliver, CheckBytes, Uniq, Down, UniqEntries, TreeOf, Closed, SameData, AfterDiff, TopRun;
    hide SameOutside, Merged, Edited, Independent, Marker, CheckMsgs, Build, Remembered, DownBytes, UpBytes, Kept;
    hide LegalMoves, EchoesFit, DeletesSeen, LogKept, Dels, SnapshotOf, Exact, Tracks, AfterDiff, Shifted, Base;
    FirstHalf(g, st, e);
    SecondHalf(g, st, e);
    SnapshotWithoutLog(st.ss, ServerFolder(g, st.s));
    LogNotSent(e.es, st.ss);
    var r := Round(g, st, e).value;
    LogKeptMeans(ServerFolder(g, e.s1), ServerFolder(g, r.s), SnapshotOf(st.cs), Client(g, r.c));
  }

  lemma LogKeptMeans(v: Tree, v': Tree, b: Snapshot, c: Tree)
    requires LogKept(v, v', Dels(b, c))
    ensures forall p :: "log.txt" in p ==>
              (p in v' <==> p in v && forall d :: d in b && d <= p ==> d in c) && (p in v' ==> v'[p] == v[p])
  {
    forall p | "log.txt" in p
      ensures Under(Dels(b, c), p) <==> exists d :: d in b && d <= p && d !in c
    {
      if d :| d in b && d <= p && d !in c { assert d in Dels(b, c); }
    }
  }

  lemma SnapshotWithoutLog(f: seq<Node>, t: Tree)
    requires Exact(SnapshotOf(f), Shown(t))
    ensures forall p :: p in SnapshotOf(f) ==> "log.txt" !in p
  {
    hide SnapshotOf;
    forall p | p in SnapshotOf(f) ensures "log.txt" !in p { assert p in Shown(t); }
  }

  /** The round leaves both replicas equal to the three-way merge of what the two users did. */
  ghost predicate Merges(g: Config, st: State, e: Env, r: State) {
    var m := Merged(Server(g, st.s), Server(g, e.s1), Client(g, e.c1));
    SameData(Server(g, r.s), m) && SameData(Client(g, r.c), m)
  }

  /**
   * A file pulled in the handshake and deleted by the client before the first round is unknown to the client's snapshot: no
   * delete is sent, and the server keeps it. A round merges if and only if the client's snapshot notices every deletion.
   */
  lemma {:induction false} DeletesExact(g: Config, st: State, e: Env)
    requires GoodConfig(g) && Synced(g, st) && LegalMoves(g, st, e.s1, e.c1) && ListsTree(e.es, ServerFolder(g, e.s1))
    requires EchoesFit(Server(g, st.s), Server(g, e.s1), Client(g, st.c), Client(g, e.c1), SnapshotOf(st.cs))
    requires ClientHalf(g, st, e).Some? ==> ListsTree(e.ec, Client(g, ClientHalf(g, st, e).value))
    ensures Round(g, st, e).Some?
    ensures Merges(g, st, e, Round(g, st, e).value) <==> DeletesSeen(Client(g, st.c), Client(g, e.c1), SnapshotOf(st.cs))
  {
    hide LegalMoves, EchoesFit, Server, Client, Uniq, Down, UniqEntries, SnapshotOf, TreeOf, Closed, SameData, AfterDiff;
    hide SameOutside, DeletesSeen;
    hide Merged, Marker, Build, Remembered, ClientHalf, ServerHalf, TopRun, RoundStart, Receives;
    FirstHalf(g, st, e);
    SecondHalf(g, st, e);
    StartsRound(g, st, e.s1, e.c1);
    RoundMerges(Server(g, st.s), Server(g, e.s1), Client(g, st.c), Client(g, e.c1), SnapshotOf(st.ss), SnapshotOf(st.cs),
                ClientClock(g, e), ServerClock(g, e));
  }

  lemma RememberedIsBuild(es: seq<Dirent>, olds: seq<Node>)
    ensures Remembered(es, olds) == Build(es)
  {
    ScanCoherent(es, [], olds);
  }

  /** What a check with nothing to report sends: the five phase markers. */
  function Silence(): string {
    Marker("SYNC_UPDATE_DONE") + Marker("SYNC_DELETE") + Marker("SYNC_DELETE_DONE")
    + Marker("SYNC_CREATE") + Marker("SYNC_CREATE_DONE")
  }

  lemma NoMessages()
    ensures DiffBytes([], [], []) == Silence()
  {
    NoMarkers(Marker("SYNC_UPDATE_DONE"), Marker("SYNC_DELETE"), Marker("SYNC_DELETE_DONE"), Marker("SYNC_CREATE"),
              Marker("SYNC_CREATE_DONE"));
  }

  lemma NoMarkers(a: string, b: string, c: string, d: string, e: string)
    ensures "" + a + b + "" + c + d + "" + e == a + b + c + d + e
  {
  }

  /** A check of a directory, read in any order, against any snapshot that agrees with it sends nothing but phase markers. */
  lemma {:induction false} QuietCheck(es: seq<Dirent>, olds: seq<Node>)
    requires UniqEntries(es) && GoodSnapshot(olds) && Exact(SnapshotOf(olds), TreeOf(es))
    ensures CheckBytes(es, olds) == Silence() && Remembered(es, olds) == Build(es)
  {
    Quiescent(es, olds);
    NoMessages();
    hide Scan, Select, Build, DiffBytes;
    assert DeleteMsgs([]) == [] && CreatesOf(es, []) == [];
  }

  /** So does a second check of an unchanged directory, whatever was remembered at the first and in whatever order it is read. */
  lemma {:induction false} QuietRecheck(es: seq<Dirent>, es': seq<Dirent>, olds: seq<Node>)
    requires UniqEntries(es) && UniqEntries(es') && TreeOf(es') == TreeOf(es)
    ensures CheckBytes(es', Remembered(es, olds)) == Silence()
  {
    hide CheckBytes, Remembered, Build, TreeOf, SnapshotOf, Exact, Silence, GoodSnapshot;
    RememberedIsBuild(es, olds);
    SnapshotGood(es);
    QuietCheck(es', Build(es));
  }

  /** Silence performs nothing. */
  lemma SilenceArrives(dn: string, rn: string, t: string)
    requires dn != "" && GoodName(rn)
    ensures TopRun(dn, rn, "", Silence() + (Marker("DONE_CONTROL") + t)) == Parsed([], t)
  {
    hide TopRun, Silence, DiffBytes, Resolve;
    NoMessages();
    StreamRefinement(dn, rn, [], [], [], t);
  }

  /**
   * A round in which both directories are unchanged, from a settled state: only markers go both ways, neither disk changes,
   * and the state stays settled.
   */
  lemma {:induction false} QuietRound(g: Config, st: State, e: Env)
    requires GoodConfig(g) && Settled(g, st)
    requires Server(g, e.s1) == Server(g, st.s) && Client(g, e.c1) == Client(g, st.c)
    requires Closed(e.s1) && HasFolder(e.s1, Base(g.sdn, g.rn)) && Closed(e.c1) && HasFolder(e.c1, Base(g.cdn, g.rn))
    requires ListsTree(e.es, ServerFolder(g, e.s1)) && ListsTree(e.ez, ServerFolder(g, e.s1))
    requires ListsTree(e.ec, Client(g, e.c1))
    ensures DownBytes(st, e) == Silence() + (Marker("DONE_CONTROL") + "")
    ensures UpBytes(st, e) == Silence() + (Marker("DONE_CONTROL") + Marker("DONE_CONTROL"))
    ensures Round(g, st, e) == Some(State(e.s1, e.c1, Build(Kept(e.ez, true)), Build(e.ec)))
    ensures Settled(g, State(e.s1, e.c1, Build(Kept(e.ez, true)), Build(e.ec)))
  {
    hide CheckBytes, Remembered, Build, TreeOf, SnapshotOf, Exact, Tracks, Silence, GoodSnapshot, TopRun, Marker, Closed, SameData;
    hide Server, Client, UniqEntries, ServerFolder, Kept;
    ServerKeeps(g, e.es, e.s1);
    ServerKeeps(g, e.ez, e.s1);
    QuietCheck(Kept(e.es, true), st.ss);
    QuietCheck(e.ec, st.cs);
    SilenceArrives(g.cdn, g.rn, "");
    SilenceArrives(g.sdn, g.rn, Marker("DONE_CONTROL"));
    SnapshotGood(Kept(e.ez, true));
    SnapshotGood(e.ec);
    ExactTracks(SnapshotOf(Build(e.ec)), Client(g, e.c1));
  }

  lemma ServerKeeps(g: Config, es: seq<Dirent>, fs: Tree)
    requires ListsTree(es, ServerFolder(g, fs))
    ensures ListsTree(Kept(es, true), Server(g, fs))
  {
    KeptLists(es, ServerFolder(g, fs));
  }

  lemma ExactTracks(b: Snapshot, t: Tree)
    requires Exact(b, t)
    ensures Tracks(b, t)
  {
  }

  lemma SnapshotGood(es: seq<Dirent>)
    requires UniqEntries(es)
    ensures GoodSnapshot(Build(es)) && Exact(SnapshotOf(Build(es)), TreeOf(es))
  {
    BuildUniq(es);
    BuildDown(es);
    BuildIsExact(es);
  }

  // ---------------------------------------------------------------------------------------------
  // Runs

  /** The state after a sequence of rounds; None when a process exited on the way. */
  function Run(g: Config, st: State, envs: seq<Env>): Option<State>
    decreases |envs|
  {
    if envs == [] then Some(st)
    else
      var r := Round(g, st, envs[0]);
      if r.None? then None else Run(g, r.value, envs[1..])
  }

  /** Every round of the run is legal in the state it starts from. */
  ghost predicate LegalRun(g: Config, st: State, envs: seq<Env>)
    decreases |envs|
  {
    envs == [] ||
    (Legal(g, st, envs[0]) &&
     (Round(g, st, envs[0]).Some? ==> LegalRun(g, Round(g, st, envs[0]).value, envs[1..])))
  }

  /** Synchronised, and the client's snapshot has caught up with the handshake. */
  ghost predicate Settled(g: Config, st: State) {
    Synced(g, st) && Exact(SnapshotOf(st.cs), Client(g, st.c))
  }

  /** Every round of the run completes and merges. */
  ghost predicate MergesAll(g: Config, st: State, envs: seq<Env>)
    decreases |envs|
  {
    envs == [] ||
    (var r := Round(g, st, envs[0]);
     r.Some? && Merges(g, st, envs[0], r.value) && MergesAll(g, r.value, envs[1..]))
  }

  lemma RoundSettles(g: Config, st: State, e: Env)
    requires GoodConfig(g) && Synced(g, st) && Legal(g, st, e)
    ensures var r := Round(g, st, e); r.Some? && Settled(g, r.value) && Merges(g, st, e, r.value)
  {
    hide Synced, Legal, Round, Exact, Merged, SameData, SameOutside;
    RoundTheorem(g, st, e);
  }

  /**
   * Whole-run convergence: after any number of rounds no process has exited, every round has left both replicas equal to
   * the merge of its edits, and the snapshots are right.
   */
  lemma {:induction false} RunConverges(g: Config, st: State, envs: seq<Env>)
    requires GoodConfig(g) && Synced(g, st) && LegalRun(g, st, envs)
    ensures MergesAll(g, st, envs)
    ensures Run(g, st, envs).Some? && Synced(g, Run(g, st, envs).value)
    ensures envs != [] ==> Settled(g, Run(g, st, envs).value)
    decreases |envs|
  {
    hide Synced, Legal, Round, Exact, Merges;
    if envs != [] {
      RoundSettles(g, st, envs[0]);
      RunConverges(g, Round(g, st, envs[0]).value, envs[1..]);
    }
  }

  /** Any legal edits can be played: the listings a legal round needs always exist. */
  lemma {:induction false} LegalPossible(g: Config, st: State, fs: Tree, fc: Tree, sclk: Clock,
      cclk: Clock) returns (e: Env)
    requires GoodConfig(g) && Synced(g, st) && LegalEdits(g, st, fs, fc)
    ensures Legal(g, st, e) && e.s1 == fs && e.c1 == fc && e.sclk == sclk && e.cclk == cclk
  {
    hide LegalMoves, EchoesFit, Synced, UniqEntries, TreeOf, Closed, View, Shown, CheckBytes, Deliver, SnapshotOf, AfterDiff;
    hide SameOutside;
    hide TopRun, UpBytes, DownBytes, ServerHalf, ClientHalf;
    FolderClosed(g, st, fs, fc);
    var es := ListingExists(ServerFolder(g, fs));
    e := Env(fs, fc, es, [], [], sclk, cclk);
    FirstHalf(g, st, e);
    ViewClosed(ClientHalf(g, st, e).value, Base(g.cdn, g.rn));
    var ec := ListingExists(Client(g, ClientHalf(g, st, e).value));
    SameClientHalf(g, st, e, e.(ec := ec));
    e := e.(ec := ec);
    SecondHalf(g, st, e);
    ViewClosed(ServerHalf(g, st, e).value, Base(g.sdn, g.rn));
    var ez := ListingExists(ServerFolder(g, ServerHalf(g, st, e).value));
    SameClientHalf(g, st, e, e.(ez := ez));
    SameServerHalf(g, st, e, e.(ez := ez));
    e := e.(ez := ez);
  }

  /** The folders on the way to `b`, and nothing else. */
  function FoldersTo(b: Path): Tree {
    map p | p in Prefixes(b) :: Folder
  }

  function Prefixes(b: Path): set<Path> {
    set i | 0 <= i <= |b| :: b[..i]
  }

  lemma EmptyReplica(b: Path)
    ensures Closed(FoldersTo(b)) && HasFolder(FoldersTo(b), b)
    ensures View(FoldersTo(b), b) == map[[] := Folder] && Shown(View(FoldersTo(b), b)) == map[[] := Folder]
  {
    var t := FoldersTo(b);
    assert b[..0] == [] && b[..|b|] == b;
    forall p | p in t && p != [] ensures HasFolder(t, Parent(p)) {
      var i :| 0 <= i <= |b| && p == b[..i];
      assert Parent(p) == b[..i - 1];
    }
    forall x ensures x in View(t, b) <==> x == [] {
      assert b + [] == b;
    }
  }

  /** Two empty replicas are synchronised: runs have a state to start from. */
  lemma FreshStart(g: Config) returns (st: State)
    ensures Settled(g, st)
    ensures ServerFolder(g, st.s) == map[[] := Folder] && Client(g, st.c) == map[[] := Folder]
  {
    var sb, cb := Base(g.sdn, g.rn), Base(g.cdn, g.rn);
    EmptyReplica(sb);
    EmptyReplica(cb);
    st := State(FoldersTo(sb), FoldersTo(cb), [], []);
    hide Base, FoldersTo, View, Shown;
    assert SnapshotOf([]) == map[];
  }

  /** The users may put any files, new or changed, into the two folders, as long as their commands can carry the contents. */
  lemma {:induction false} PutsLegal(g: Config, st: State, p: Path, e: Entry, q: Path, f: Entry)
    requires Settled(g, st) && AllPrintable(g, Server(g, st.s)) && Printable(g, p) && Printable(g, q)
    requires CanPut(ServerFolder(g, st.s), p, e) && CanPut(Client(g, st.c), q, f) && !(p <= q) && !(q <= p)
    ensures var fs, fc := st.s[Base(g.sdn, g.rn) + p := e], st.c[Base(g.cdn, g.rn) + q := f];
            && LegalEdits(g, st, fs, fc)
            && Server(g, fs) == Server(g, st.s)[p := e] && Client(g, fc) == Client(g, st.c)[q := f]
  {
    hide View, Printable, CreateOk, SnapshotOf, Uniq, Down, Edited, Independent, DeletesSeen, EditsFit, EchoesFit, Base;
    hide Closed, SameOutside, Exact, Tracks, CanPut, ServerFolder, Server, Client, AllPrintable, SameData, HasFolder;
    var s0, c0 := Server(g, st.s), Client(g, st.c);
    PutOnServer(g, st.s, p, e);
    PutOnClient(g, st.c, q, f);
    PutsFit(s0, c0, SnapshotOf(st.cs), p, e, q, f);
    SamePrintable(g, s0, c0, p, e, q, f);
  }

  lemma PutOnServer(g: Config, fs: Tree, p: Path, e: Entry)
    requires Closed(fs) && HasFolder(fs, Base(g.sdn, g.rn)) && Printable(g, p) && CanPut(ServerFolder(g, fs), p, e)
    ensures Closed(Server(g, fs)) && CanPut(Server(g, fs), p, e)
    ensures var fs1 := fs[Base(g.sdn, g.rn) + p := e];
            Closed(fs1) && HasFolder(fs1, Base(g.sdn, g.rn)) && Server(g, fs1) == Server(g, fs)[p := e]
  {
    hide View, Printable, CreateOk, Base, SameOutside, Closed;
    var base := Base(g.sdn, g.rn);
    InFolder(fs, base, p);
    WriteOnView(fs, base, p, e);
    PrintableIsVisible(g, p);
    ViewClosed(fs, base);
    ShownClosed(ServerFolder(g, fs));
    assert Visible(Parent(p));
  }

  lemma PutOnClient(g: Config, fs: Tree, p: Path, e: Entry)
    requires Closed(fs) && HasFolder(fs, Base(g.cdn, g.rn)) && CanPut(Client(g, fs), p, e)
    ensures Closed(Client(g, fs))
    ensures var fs1 := fs[Base(g.cdn, g.rn) + p := e];
            Closed(fs1) && HasFolder(fs1, Base(g.cdn, g.rn)) && Client(g, fs1) == Client(g, fs)[p := e]
  {
    hide View, CreateOk, Base, SameOutside, Closed;
    InFolder(fs, Base(g.cdn, g.rn), p);
    WriteOnView(fs, Base(g.cdn, g.rn), p, e);
    ViewClosed(fs, Base(g.cdn, g.rn));
  }

  /** A new file in a folder that is there, with a content a create carries, or a changed one with one an update carries. */
  ghost predicate CanPut(t: Tree, p: Path, e: Entry) {
    && p != [] && HasFolder(t, Parent(p)) && e.File?
    && (if p in t then HasFile(t, p) && t[p].mtime != e.mtime && UpdateOk(e.content) else CreateOk(e.content))
  }

  lemma PutsFit(s0: Tree, c0: Tree, bc: Snapshot, p: Path, e: Entry, q: Path, f: Entry)
    requires Closed(s0) && Closed(c0) && SameData(s0, c0) && Exact(bc, c0)
    requires CanPut(s0, p, e) && CanPut(c0, q, f) && !(p <= q) && !(q <= p)
    ensures var s1, c1 := s0[p := e], c0[q := f];
            && Edited(s0, s1) && Edited(c0, c1) && Independent(s0, s1, c0, c1) && DeletesSeen(c0, c1, bc)
            && EditsFit(s0, s1, c0, c1, bc) && EchoesFit(s0, s1, c0, c1, bc)
  {
    var s1, c1 := s0[p := e], c0[q := f];
    assert HasFolder(c0, []);
    hide Edited, Closed, CreateOk, UpdateOk, HasFolder, Touched, Independent, DeletesSeen, EditsFit, EchoesFit, SameData, Exact;
    OneMore(s0, p, e);
    OneMore(c0, q, f);
    ApartFits(s0, s1, c0, c1, bc, p, q);
  }

  lemma ApartFits(s0: Tree, s1: Tree, c0: Tree, c1: Tree, bc: Snapshot, p: Path, q: Path)
    requires (forall x :: Touched(s0, s1, x) <==> x == p) && (forall x :: Touched(c0, c1, x) <==> x == q)
    requires !(p <= q) && !(q <= p) && HasFile(s1, p) && HasFile(c1, q) && p != [] && q != []
    requires if p in s0 then UpdateOk(s1[p].content) else CreateOk(s1[p].content)
    requires if q in c0 then UpdateOk(c1[q].content) else CreateOk(c1[q].content)
    requires Exact(bc, c0) && SameData(s0, c0) && c0.Keys <= c1.Keys && HasFolder(c0, [])
    ensures Independent(s0, s1, c0, c1) && DeletesSeen(c0, c1, bc)
    ensures EditsFit(s0, s1, c0, c1, bc) && EchoesFit(s0, s1, c0, c1, bc)
  {
    hide Touched, CreateOk, UpdateOk;
    assert (p in bc <==> p in s0) && (q in bc <==> q in c0);
  }

  lemma OneMore(t: Tree, p: Path, e: Entry)
    requires Closed(t) && CanPut(t, p, e)
    ensures var t1 := t[p := e]; Edited(t, t1) && forall x :: Touched(t, t1, x) <==> x == p
  {
    hide CreateOk, UpdateOk;
    var t1 := t[p := e];
    forall x | x in t1 && x != [] ensures HasFolder(t1, Parent(x)) { assert x in t ==> HasFolder(t, Parent(x)); }
  }

  lemma SamePrintable(g: Config, s0: Tree, c0: Tree, p: Path, e: Entry, q: Path, f: Entry)
    requires AllPrintable(g, s0) && Printable(g, p) && Printable(g, q) && SameData(s0, c0)
    ensures AllPrintable(g, s0[p := e]) && AllPrintable(g, c0[q := f])
    ensures forall x :: x in c0[q := f] ==> "log.txt" !in x
  {
    assert forall x :: x in c0[q := f] ==> Printable(g, x);
  }

  lemma InFolder(fs: Tree, base: Path, p: Path)
    requires p != [] && HasFolder(View(fs, base), Parent(p)) && (p in View(fs, base) ==> HasFile(View(fs, base), p))
    ensures HasFolder(fs, Parent(base + p)) && (base + p in fs ==> HasFile(fs, base + p))
  {
    assert Parent(base + p) == base + Parent(p);
  }

  lemma PrintableIsVisible(g: Config, p: Path)
    requires Printable(g, p)
    ensures Visible(p)
  {
  }

  /** And one round later both sides have both, whatever the listings and the clocks. */
  lemma {:induction false} PutsArrive(g: Config, st: State, p: Path, e: Entry, q: Path, f: Entry, sclk: Clock, cclk: Clock)
      returns (env: Env)
    requires GoodConfig(g) && Settled(g, st) && AllPrintable(g, Server(g, st.s)) && Printable(g, p) && Printable(g, q)
    requires CanPut(ServerFolder(g, st.s), p, e) && CanPut(Client(g, st.c), q, f) && !(p <= q) && !(q <= p)
    ensures env.s1 == st.s[Base(g.sdn, g.rn) + p := e] && env.c1 == st.c[Base(g.cdn, g.rn) + q := f]
    ensures Round(g, st, env).Some?
    ensures var m := Client(g, st.c)[p := e][q := f];
            SameData(Client(g, Round(g, st, env).value.c), m) && SameData(Server(g, Round(g, st, env).value.s), m)
  {
    var fs, fc := st.s[Base(g.sdn, g.rn) + p := e], st.c[Base(g.cdn, g.rn) + q := f];
    PutsLegal(g, st, p, e, q, f);
    PutOnServer(g, st.s, p, e);
    hide LegalEdits, Legal, Base, ServerFolder, Server, Client, Printable, Round, Merged, SameData, CreateOk, Exact;
    env := LegalPossible(g, st, fs, fc, sclk, cclk);
    RoundSettles(g, st, env);
    var s0, c0, r := Server(g, st.s), Client(g, st.c), Round(g, st, env).value;
    OneMore(s0, p, e);
    BothAdded(s0, c0, p, e, q, f);
    SameDataThrough(Client(g, r.c), Merged(s0, s0[p := e], c0[q := f]), c0[p := e][q := f]);
    SameDataThrough(Server(g, r.s), Merged(s0, s0[p := e], c0[q := f]), c0[p := e][q := f]);
  }

  lemma SameDataThrough(a: Tree, b: Tree, c: Tree)
    requires SameData(a, b) && SameData(b, c)
    ensures SameData(a, c)
  {
  }

  lemma BothAdded(s0: Tree, c0: Tree, p: Path, e: Entry, q: Path, f: Entry)
    requires SameData(s0, c0) && p != q
    requires var s1 := s0[p := e]; forall x :: Touched(s0, s1, x) <==> x == p
    ensures SameData(Merged(s0, s0[p := e], c0[q := f]), c0[p := e][q := f])
  {
    var s1, c1, m := s0[p := e], c0[q := f], c0[p := e][q := f];
    hide Touched;
    var n := Merged(s0, s1, c1);
    assert forall x :: x in n <==> x in m;
    assert n.Keys == m.Keys;
  }

  /**
   * From two empty replicas, in plain terms: two first files of any printable names, one on each side, with any contents free of
   * braces and NULs that are not the text EMPTY_FILE, are on both sides after one round.
   */
  lemma {:induction false} FirstFilesArrive(
      g: Config, n: Name, a: string, k: Name, b: string, mtime: int, sclk: Clock, cclk: Clock) returns (st: State, env: Env)
    requires g.sdn != "" && g.cdn != "" && g.rn != "" && n != "" && k != "" && n != k && n != "log.txt" && k != "log.txt"
    requires forall x :: x in g.rn + n + k ==> x !in ['{', '}', '/', ',', '\0']
    requires |g.sdn| + |g.rn| + |n| + 2 <= 254 && |g.cdn| + |g.rn| + |n| + 2 <= 254
    requires |g.sdn| + |g.rn| + |k| + 2 <= 254 && |g.cdn| + |g.rn| + |k| + 2 <= 254
    requires (forall x :: x in a + b ==> x !in ['{', '}', '\0']) && a != "EMPTY_FILE" && b != "EMPTY_FILE"
    ensures ServerFolder(g, st.s) == map[[] := Folder] && Client(g, st.c) == map[[] := Folder]
    ensures env.s1 == st.s[Base(g.sdn, g.rn) + [n] := File(a, mtime)]
    ensures env.c1 == st.c[Base(g.cdn, g.rn) + [k] := File(b, mtime)]
    ensures Round(g, st, env).Some?
    ensures var m := map[[] := Folder, [n] := File(a, mtime), [k] := File(b, mtime)];
            SameData(Client(g, Round(g, st, env).value.c), m) && SameData(Server(g, Round(g, st, env).value.s), m)
  {
    var e, f := File(a, mtime), File(b, mtime);
    NamesApart(g.rn, n, k, a, b);
    FirstNameFits(g, n, a);
    FirstNameFits(g, k, b);
    hide Printable, Base, View, Settled, Round, SameData, GoodConfig, CreateOk, Client, ServerFolder;
    st := FreshStart(g);
    OnlyRoot(g, st, n, e);
    OnlyRoot(g, st, k, f);
    hide CanPut, Server, AllPrintable;
    env := PutsArrive(g, st, [n], e, [k], f, sclk, cclk);
    assert Client(g, st.c)[[n] := e][[k] := f] == map[[] := Folder, [n] := e, [k] := f];
  }

  lemma OnlyRoot(g: Config, st: State, n: Name, e: Entry)
    requires ServerFolder(g, st.s) == map[[] := Folder] && Client(g, st.c) == map[[] := Folder]
    requires Printable(g, []) && e.File? && CreateOk(e.content)
    ensures AllPrintable(g, Server(g, st.s)) && CanPut(ServerFolder(g, st.s), [n], e) && CanPut(Client(g, st.c), [n], e)
  {
    hide ServerFolder, Client, Printable, CreateOk;
    assert Parent([n]) == [];
  }

  lemma NamesApart(rn: Name, n: Name, k: Name, a: string, b: string)
    ensures (forall x :: x in rn || x in n || x in k <==> x in rn + n + k) && (forall x :: x in a || x in b <==> x in a + b)
    ensures n != k ==> !([n] <= [k]) && !([k] <= [n])
  {
    assert n != k ==> [n][0] != [k][0];
  }

  lemma FirstNameFits(g: Config, n: Name, content: string)
    requires g.sdn != "" && g.cdn != "" && g.rn != "" && n != "" && n != "log.txt"
    requires forall x :: x in g.rn || x in n ==> x !in ['{', '}', '/', ',', '\0']
    requires |g.sdn| + |g.rn| + |n| + 2 <= 254 && |g.cdn| + |g.rn| + |n| + 2 <= 254
    requires (forall x :: x in content ==> x !in ['{', '}', '\0']) && content != "EMPTY_FILE"
    ensures GoodConfig(g) && CreateOk(content) && Printable(g, [n]) && Printable(g, [])
  {
    assert Render([n]) == "/" + n + "" && "/" + n + "" == "/" + n by { assert [n][1..] == []; }
  }

  lemma FolderClosed(g: Config, st: State, fs: Tree, fc: Tree)
    requires LegalMoves(g, st, fs, fc)
    ensures Closed(ServerFolder(g, fs))
  {
    ViewClosed(fs, Base(g.sdn, g.rn));
  }

  lemma SameClientHalf(g: Config, st: State, e: Env, e': Env)
    requires e'.c1 == e.c1 && e'.es == e.es && e'.cclk == e.cclk
    ensures ClientHalf(g, st, e') == ClientHalf(g, st, e)
  {
  }

  lemma SameServerHalf(g: Config, st: State, e: Env, e': Env)
    requires e'.s1 == e.s1 && e'.ec == e.ec && e'.sclk == e.sclk
    ensures ServerHalf(g, st, e') == ServerHalf(g, st, e)
  {
  }

  // ---------------------------------------------------------------------------------------------
  // The first round

  /**
   * The handshake leaves the system synchronised although the client keeps the tree it built before pulling: any two
   * disks whose replicas are the handshake's results, the server's tree rebuilt from listing `ez`, the client's from
   * `ec`, a listing of its replica before the handshake.
   */
  lemma {:induction false} HandshakeSyncs(
      g: Config, s: Tree, c: Tree, ec: seq<Dirent>, ps: seq<Path>, ez: seq<Dirent>, stamps: Stamps,
      sclk: Clock, cclk: Clock, st: State)
    requires Ready(s, c, stamps) && ListsTree(ec, c)
    requires var pc := Select(Build(ec), [], false);
             && (forall p :: p in pc ==> p in c)
             && var r := ServerPulls(s, c, pc, stamps, sclk);
                r.Some? ==>
                  var m := Shown(r.value);
                  && Manifests(m, ps) && (forall p :: p in ps ==> p in m)
                  && Server(g, st.s) == m && ListsTree(ez, m)
                  && (ClientPulls(c, m, ps, cclk).Some? ==> Client(g, st.c) == ClientPulls(c, m, ps, cclk).value)
    requires Closed(st.s) && HasFolder(st.s, Base(g.sdn, g.rn)) && Closed(st.c) && HasFolder(st.c, Base(g.cdn, g.rn))
    requires st.ss == Build(ez) && st.cs == Build(ec)
    ensures Synced(g, st)
  {
    hide View, Shown, Uniq, Down, UniqEntries, SnapshotOf, TreeOf, Select, ServerPulls, ClientPulls, Ready;
    hide Manifests, Closed;
    ManifestOfListing(ec);
    var pc := Select(Build(ec), [], false);
    HandshakeConverges(s, c, pc, ps, stamps, sclk, cclk);
    SnapshotGood(ez);
    SnapshotGood(ec);
  }
}
