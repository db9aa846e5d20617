/**
 * The initial handshake: the server pulls every client file, renaming its own aside, and then the client pulls what
 * it lacks. Trees are the replicas below the shared root folder.
 */
module Handshake {
  import opened Text
  import opened FileSystem
  import opened Patch
  import opened Convergence
  import opened UpdateReader
  import opened Transfer
  import opened Diff

  /** The file transferred on request; None when the requester is left waiting. */
  function Pull(content: string): Option<string> {
    var r := Receive(FileBytes(content), "");
    if r.waiting then None else Some(r.out)
  }

  /** renameFileWithUnique: the file's name, an underscore, a timestamp. */
  function Backup(p: Path, stamp: string): Path
    requires p != []
  {
    Parent(p) + [p[|p| - 1] + "_" + stamp]
  }

  /** open(O_CREAT | O_EXCL), then the transferred content; None when the process exits or waits for ever. */
  function Fetch(fs: Tree, p: Path, content: string, clock: Clock): Option<Tree> {
    if p in fs || p == [] || !HasFolder(fs, Parent(p)) || Pull(content).None? then None
    else Some(fs[p := File(Pull(content).value, clock(p))])
  }

  /** syncFile on the server: entry `p` of the client's manifest, `e` being what the client has there. */
  function ServerStep(fs: Tree, p: Path, e: Entry, stamp: string, clock: Clock): Option<Tree> {
    match e
    case Folder => Step(fs, MkDir(p), clock)
    case File(content, _) =>
      Fetch(if p in fs && p != [] then Renamed(fs, p, Backup(p, stamp)) else fs, p, content, clock)
  }

  /** syncFile on the client: what exists is left alone. */
  function ClientStep(fs: Tree, p: Path, e: Entry, clock: Clock): Option<Tree> {
    match e
    case Folder => Step(fs, MkDir(p), clock)
    case File(content, _) => if p in fs then Some(fs) else Fetch(fs, p, content, clock)
  }

  /** The timestamp each renaming happens to get. */
  type Stamps = Path -> string

  /** syncServerWithfd on the server: the entries of the client's manifest in order. */
  function ServerPulls(s: Tree, c: Tree, ps: seq<Path>, stamps: Stamps, clock: Clock): Option<Tree>
    requires forall p :: p in ps ==> p in c
    decreases |ps|
  {
    if ps == [] then Some(s)
    else
      assert ps[0] in ps;
      var r := ServerStep(s, ps[0], c[ps[0]], stamps(ps[0]), clock);
      if r.None? then None else ServerPulls(r.value, c, ps[1..], stamps, clock)
  }

  /** syncServerWithfd on the client: the entries of the server's manifest in order. */
  function ClientPulls(c: Tree, s: Tree, ps: seq<Path>, clock: Clock): Option<Tree>
    requires forall p :: p in ps ==> p in s
    decreases |ps|
  {
    if ps == [] then Some(c)
    else
      assert ps[0] in ps;
      var r := ClientStep(c, ps[0], s[ps[0]], clock);
      if r.None? then None else ClientPulls(r.value, s, ps[1..], clock)
  }

  // ---------------------------------------------------------------------------------------------

  predicate KindsMatch(s: Tree, c: Tree) {
    forall p :: p in s && p in c ==> s[p].Folder? == c[p].Folder?
  }

  /** Both sides have a file there. */
  predicate Conflict(s: Tree, c: Tree, p: Path) {
    p != [] && HasFile(s, p) && HasFile(c, p)
  }

  const STAMP_WIDTH := 14

  /** Timestamps have a fixed width, and no backup name is taken on either side. */
  predicate FreshBackups(s: Tree, c: Tree, stamps: Stamps) {
    forall p :: p in s && Conflict(s, c, p) ==>
      |stamps(p)| == STAMP_WIDTH && Backup(p, stamps(p)) !in s && Backup(p, stamps(p)) !in c
  }

  /** Fixed-width timestamps make the renaming injective. */
  lemma BackupInjective(p: Path, q: Path, a: string, b: string)
    requires p != [] && q != [] && |a| == |b| == STAMP_WIDTH && Backup(p, a) == Backup(q, b)
    ensures p == q && a == b
  {
    var m, n := p[|p| - 1], q[|q| - 1];
    assert |Parent(p)| == |Backup(p, a)| - 1 && |Parent(q)| == |Backup(q, b)| - 1;
    assert Parent(p) == Backup(p, a)[..|p| - 1] && Parent(q) == Backup(q, b)[..|q| - 1];
    assert m + "_" + a == n + "_" + b by {
      assert Backup(p, a)[|p| - 1] == m + "_" + a && Backup(q, b)[|q| - 1] == n + "_" + b;
    }
    assert m == (m + "_" + a)[..|m|] && n == (n + "_" + b)[..|n|];
    assert a == (m + "_" + a)[|m| + 1..] && b == (n + "_" + b)[|n| + 1..];
    assert p == Parent(p) + [m] && q == Parent(q) + [n];
  }

  /**
   * The server's tree `s'` after pulling the paths `done`: the client's version there, its own conflicting files at
   * their backup names, the rest as it was.
   */
  ghost predicate Pulled(s: Tree, c: Tree, done: set<Path>, stamps: Stamps, s': Tree) {
    forall x :: PulledAt(s, c, done, stamps, s', x)
  }

  ghost predicate PulledAt(s: Tree, c: Tree, done: set<Path>, stamps: Stamps, s': Tree, x: Path) {
    && (x in done ==> x in c && x in s' && SameEntry(s'[x], c[x]))
    && (x in done && Conflict(s, c, x) ==>
          Backup(x, stamps(x)) in s' && s'[Backup(x, stamps(x))] == s[x])
    && (x in s && x !in done ==> x in s' && s'[x] == s[x])
    && (x in s' ==> x in done || x in s || IsBackup(s, c, done, stamps, x))
  }

  ghost predicate IsBackup(s: Tree, c: Tree, done: set<Path>, stamps: Stamps, x: Path) {
    exists p :: p in done && Conflict(s, c, p) && x == Backup(p, stamps(p))
  }

  lemma BackupsGrow(s: Tree, c: Tree, done: set<Path>, stamps: Stamps, p: Path, x: Path)
    requires IsBackup(s, c, done, stamps, x)
    ensures IsBackup(s, c, done + {p}, stamps, x)
  {
    var q :| q in done && Conflict(s, c, q) && x == Backup(q, stamps(q));
    assert q in done + {p};
  }

  /** A backup name is not a path of the client's, nor one of the server's own. */
  lemma BackupElsewhere(s: Tree, c: Tree, done: set<Path>, stamps: Stamps, x: Path)
    requires FreshBackups(s, c, stamps) && IsBackup(s, c, done, stamps, x)
    ensures x !in s && x !in c
  {
  }

  /** The tree after pulling a file that was not there. */
  function WithNew(s': Tree, c: Tree, p: Path, clock: Clock): Tree
    requires HasFile(c, p)
  {
    s'[p := File(c[p].content, clock(p))]
  }

  /** The tree after pulling a file that was there. */
  function WithAside(s': Tree, c: Tree, p: Path, q: Path, clock: Clock): Tree
    requires HasFile(c, p) && p in s'
  {
    (s' - {p})[q := s'[p]][p := File(c[p].content, clock(p))]
  }

  function WithFolder(s': Tree, p: Path): Tree {
    s'[p := Folder]
  }

  lemma NewAt(s: Tree, c: Tree, done: set<Path>, stamps: Stamps, s': Tree, p: Path, clock: Clock, x: Path)
    requires PulledAt(s, c, done, stamps, s', x) && FreshBackups(s, c, stamps)
    requires HasFile(c, p) && p !in s' && p !in s && p !in done
    ensures PulledAt(s, c, done + {p}, stamps, WithNew(s', c, p, clock), x)
  {
    if IsBackup(s, c, done, stamps, x) { BackupsGrow(s, c, done, stamps, p, x); }
  }

  lemma AsideAt(s: Tree, c: Tree, done: set<Path>, stamps: Stamps, s': Tree, p: Path, clock: Clock, x: Path)
    requires PulledAt(s, c, done, stamps, s', x) && FreshBackups(s, c, stamps)
    requires Conflict(s, c, p) && p in s' && s'[p] == s[p] && p !in done && Backup(p, stamps(p)) !in s'
    ensures PulledAt(s, c, done + {p}, stamps, WithAside(s', c, p, Backup(p, stamps(p)), clock), x)
  {
    var q := Backup(p, stamps(p));
    if IsBackup(s, c, done, stamps, x) { BackupsGrow(s, c, done, stamps, p, x); }
    if x == q {
      assert p in done + {p};
      assert IsBackup(s, c, done + {p}, stamps, x);
    }
    if x in done && Conflict(s, c, x) {
      assert IsBackup(s, c, done, stamps, Backup(x, stamps(x)));
      BackupElsewhere(s, c, done, stamps, Backup(x, stamps(x)));
    }
  }

  lemma FolderAt(s: Tree, c: Tree, done: set<Path>, stamps: Stamps, s': Tree, p: Path, x: Path)
    requires PulledAt(s, c, done, stamps, s', x)
    requires HasFolder(c, p) && p !in done && (p in s' ==> HasFolder(s', p)) && (p in s ==> s'.Keys >= {p})
    ensures PulledAt(s, c, done + {p}, stamps, WithFolder(s', p), x)
  {
    if IsBackup(s, c, done, stamps, x) { BackupsGrow(s, c, done, stamps, p, x); }
    assert p in s' ==> WithFolder(s', p) == s';
  }

  lemma BackupUnused(s: Tree, c: Tree, done: set<Path>, stamps: Stamps, s': Tree, p: Path)
    requires Pulled(s, c, done, stamps, s') && FreshBackups(s, c, stamps)
    requires Conflict(s, c, p) && p !in done
    ensures Backup(p, stamps(p)) !in s'
  {
    var x := Backup(p, stamps(p));
    if x in s' {
      assert PulledAt(s, c, done, stamps, s', x);
      assert x in done ==> x in c;
      var q :| q in done && Conflict(s, c, q) && x == Backup(q, stamps(q));
      BackupInjective(p, q, stamps(p), stamps(q));
    }
  }

  lemma StillThere(s: Tree, c: Tree, done: set<Path>, stamps: Stamps, s': Tree, p: Path)
    requires Pulled(s, c, done, stamps, s') && FreshBackups(s, c, stamps) && p in c && p !in done
    ensures p in s' <==> p in s
    ensures p in s ==> s'[p] == s[p]
  {
    assert PulledAt(s, c, done, stamps, s', p);
    if IsBackup(s, c, done, stamps, p) { BackupElsewhere(s, c, done, stamps, p); }
  }

  /** One entry pulled. */
  lemma ServerStepPulls(
      s: Tree, c: Tree, done: set<Path>, stamps: Stamps, s': Tree, p: Path, clock: Clock)
    requires Closed(s') && KindsMatch(s, c) && FreshBackups(s, c, stamps) && Pulled(s, c, done, stamps, s')
    requires p in c && p !in done && p != [] && HasFolder(s', Parent(p))
    requires c[p].File? ==> TransferOk(c[p].content)
    ensures var r := ServerStep(s', p, c[p], stamps(p), clock);
            r.Some? && Pulled(s, c, done + {p}, stamps, r.value) && Closed(r.value)
  {
    hide FreshBackups, PulledAt, TransferOk, Renamed;
    StillThere(s, c, done, stamps, s', p);
    if c[p].Folder? {
      StepClosed(s', MkDir(p), clock);
      assert p in s' ==> WithFolder(s', p) == s';
      assert Step(s', MkDir(p), clock) == Some(WithFolder(s', p));
      forall x ensures PulledAt(s, c, done + {p}, stamps, WithFolder(s', p), x) {
        FolderAt(s, c, done, stamps, s', p, x);
      }
    } else {
      Arrives(c[p].content);
      if p in s {
        BackupUnused(s, c, done, stamps, s', p);
        RenamedFile(s', p, Backup(p, stamps(p)));
        WithAsideClosed(s', c, p, stamps(p), clock);
        forall x ensures PulledAt(s, c, done + {p}, stamps, WithAside(s', c, p, Backup(p, stamps(p)), clock), x) {
          AsideAt(s, c, done, stamps, s', p, clock, x);
        }
      } else {
        WithNewClosed(s', c, p, clock);
        forall x ensures PulledAt(s, c, done + {p}, stamps, WithNew(s', c, p, clock), x) {
          NewAt(s, c, done, stamps, s', p, clock, x);
        }
      }
    }
  }

  lemma WithNewClosed(s': Tree, c: Tree, p: Path, clock: Clock)
    requires Closed(s') && HasFile(c, p) && p !in s' && p != [] && HasFolder(s', Parent(p))
    ensures Closed(WithNew(s', c, p, clock))
  {
    var r := WithNew(s', c, p, clock);
    forall x | x in r && x != [] ensures HasFolder(r, Parent(x)) {
      assert x in s' ==> HasFolder(s', Parent(x));
    }
  }

  lemma WithAsideClosed(s': Tree, c: Tree, p: Path, stamp: string, clock: Clock)
    requires Closed(s') && HasFile(c, p) && HasFile(s', p) && p != [] && Backup(p, stamp) !in s'
    ensures Closed(WithAside(s', c, p, Backup(p, stamp), clock))
    ensures HasFolder(s', Parent(p))
  {
    var q := Backup(p, stamp);
    var r := WithAside(s', c, p, q, clock);
    assert Parent(q) == Parent(p);
    forall x | x in r && x != [] ensures HasFolder(r, Parent(x)) {
      assert x in s' ==> HasFolder(s', Parent(x));
    }
  }

  /** The manifest's list: every path of the tree but its root, a folder before its contents. */
  ghost predicate Manifests(t: Tree, ps: seq<Path>) {
    Elems(ps) == t.Keys - {[]} && NoDup(ps) && ParentsBefore(ps)
  }

  /** The `n`-th entry of a manifest, and what has been done once it is taken. */
  lemma ManifestAt(t: Tree, ps: seq<Path>, n: nat)
    requires Manifests(t, ps) && n < |ps|
    ensures ps[n] in t && ps[n] != [] && ps[n] !in Elems(ps[..n])
    ensures Elems(ps[..n + 1]) == Elems(ps[..n]) + {ps[n]}
    ensures ps[n..] != [] && ps[n..][0] == ps[n] && ps[n..][1..] == ps[n + 1..]
  {
    assert ps[n] in Elems(ps);
    assert ps[..n + 1] == ps[..n] + [ps[n]];
  }

  lemma ManifestElems(t: Tree, ps: seq<Path>)
    requires Manifests(t, ps)
    ensures Elems(ps) == t.Keys - {[]}
    ensures forall p :: p in ps ==> p in t
  {
    forall p | p in ps ensures p in t { assert p in Elems(ps); }
  }

  lemma {:induction false} ServerPullsAll(
      s: Tree, c: Tree, ps: seq<Path>, n: nat, stamps: Stamps, s': Tree, clock: Clock)
    requires n <= |ps| && Manifests(c, ps) && Closed(c)
    requires Closed(s') && KindsMatch(s, c) && FreshBackups(s, c, stamps)
    requires Pulled(s, c, Elems(ps[..n]), stamps, s')
    requires forall p :: HasFile(c, p) ==> TransferOk(c[p].content)
    ensures forall p :: p in ps[n..] ==> p in c
    ensures var r := ServerPulls(s', c, ps[n..], stamps, clock);
            r.Some? && Pulled(s, c, Elems(ps), stamps, r.value) && Closed(r.value)
    decreases |ps| - n
  {
    hide Manifests, Elems, Pulled, Closed, KindsMatch, FreshBackups, TransferOk, ServerStep;
    ManifestElems(c, ps);
    if n == |ps| {
      assert ps[..n] == ps;
    } else {
      ManifestAt(c, ps, n);
      ParentPulled(s, c, ps, n, stamps, s');
      ServerStepPulls(s, c, Elems(ps[..n]), stamps, s', ps[n], clock);
      var r := ServerStep(s', ps[n], c[ps[n]], stamps(ps[n]), clock);
      ServerPullsAll(s, c, ps, n + 1, stamps, r.value, clock);
    }
  }

  lemma ParentPulled(s: Tree, c: Tree, ps: seq<Path>, n: nat, stamps: Stamps, s': Tree)
    requires n < |ps| && Manifests(c, ps) && Closed(c) && Closed(s')
    requires Pulled(s, c, Elems(ps[..n]), stamps, s')
    ensures ps[n] in c && ps[n] != [] && HasFolder(s', Parent(ps[n]))
  {
    var p := ps[n];
    assert p in Elems(ps);
    var q := Parent(p);
    if q != [] {
      assert q in Elems(ps);
      assert Parent'(p) in ps;
      assert q in Elems(ps[..n]);
      assert PulledAt(s, c, Elems(ps[..n]), stamps, s', q);
    }
  }

  // ---------------------------------------------------------------------------------------------
  // The client's half

  /** The client's tree `c'` after taking in the paths `done` of the server's tree. */
  ghost predicate Taken(c: Tree, s: Tree, done: set<Path>, c': Tree) {
    && (forall p :: p in c ==> p in c' && c'[p] == c[p])
    && (forall p :: p in done && p !in c ==> p in s && p in c' && SameEntry(c'[p], s[p]))
    && (forall p :: p in c' ==> p in c || p in done)
  }

  lemma ClientStepTakes(c: Tree, s: Tree, done: set<Path>, c': Tree, p: Path, clock: Clock)
    requires Closed(c') && Taken(c, s, done, c') && p in s && p !in done && p != [] && HasFolder(c', Parent(p))
    requires p in c ==> c[p].Folder? == s[p].Folder?
    requires HasFile(s, p) && p !in c ==> TransferOk(s[p].content)
    ensures var r := ClientStep(c', p, s[p], clock);
            r.Some? && Taken(c, s, done + {p}, r.value) && Closed(r.value)
  {
    hide TransferOk;
    if s[p].Folder? {
      StepClosed(c', MkDir(p), clock);
      assert p in c' ==> c'[p := Folder] == c';
      TakenWith(c, s, done, c', p, Folder);
    } else if p !in c {
      Arrives(s[p].content);
      WithNewClosed(c', s, p, clock);
      TakenWith(c, s, done, c', p, File(s[p].content, clock(p)));
    }
  }

  lemma TakenWith(c: Tree, s: Tree, done: set<Path>, c': Tree, p: Path, e: Entry)
    requires Taken(c, s, done, c') && p in s && SameEntry(e, s[p]) && (p in c ==> c'[p] == e)
    ensures Taken(c, s, done + {p}, c'[p := e])
  {
  }

  lemma {:induction false} ClientPullsAll(c: Tree, s: Tree, ps: seq<Path>, n: nat, c': Tree, clock: Clock)
    requires n <= |ps| && Manifests(s, ps) && Closed(s) && KindsMatch(c, s)
    requires Closed(c') && Taken(c, s, Elems(ps[..n]), c')
    requires forall p :: HasFile(s, p) && p !in c ==> TransferOk(s[p].content)
    ensures forall p :: p in ps[n..] ==> p in s
    ensures var r := ClientPulls(c', s, ps[n..], clock);
            r.Some? && Taken(c, s, Elems(ps), r.value) && Closed(r.value)
    decreases |ps| - n
  {
    hide Manifests, Elems, Taken, Closed, TransferOk, ClientStep;
    ManifestElems(s, ps);
    if n == |ps| {
      assert ps[..n] == ps;
    } else {
      ManifestAt(s, ps, n);
      ParentTaken(c, s, ps, n, c');
      ClientStepTakes(c, s, Elems(ps[..n]), c', ps[n], clock);
      var r := ClientStep(c', ps[n], s[ps[n]], clock);
      ClientPullsAll(c, s, ps, n + 1, r.value, clock);
    }
  }

  lemma ParentTaken(c: Tree, s: Tree, ps: seq<Path>, n: nat, c': Tree)
    requires n < |ps| && Manifests(s, ps) && Closed(s) && Closed(c') && KindsMatch(c, s)
    requires Taken(c, s, Elems(ps[..n]), c')
    ensures ps[n] in s && ps[n] != [] && HasFolder(c', Parent(ps[n]))
  {
    var p := ps[n];
    assert p in Elems(ps);
    var q := Parent(p);
    if q != [] {
      assert q in Elems(ps);
      assert Parent'(p) in ps;
      assert q in Elems(ps[..n]);
    }
  }

  // ---------------------------------------------------------------------------------------------
  // The whole handshake

  /** What both sides agree on before the handshake, and what the contents must be like. */
  ghost predicate Ready(s: Tree, c: Tree, stamps: Stamps) {
    && Closed(s) && Closed(c) && KindsMatch(s, c) && FreshBackups(s, c, stamps)
    && (forall p :: p in c ==> Visible(p))
    && (forall p :: HasFile(c, p) ==> TransferOk(c[p].content))
    && (forall p :: HasFile(s, p) && Visible(p) ==> TransferOk(s[p].content))
  }

  /**
   * Convergence without loss. Whatever order the manifests list their trees in, nobody exits or waits for ever and both
   * sides end with the same tree but for the server's log file; every client entry is untouched, every server-only entry
   * is untouched, and every conflicting server file survives at its backup name. The client gets nothing with the log file's
   * name in its path, and the server's entries of that name are the ones it had.
   */
  lemma {:induction false} HandshakeConverges(
      s: Tree, c: Tree, pc: seq<Path>, ps: seq<Path>, stamps: Stamps, sclk: Clock, cclk: Clock)
    requires Ready(s, c, stamps) && Manifests(c, pc)
    requires forall p :: p in pc ==> p in c
    requires var r := ServerPulls(s, c, pc, stamps, sclk); r.Some? ==> Manifests(Shown(r.value), ps)
    ensures var r := ServerPulls(s, c, pc, stamps, sclk);
            && r.Some? && Closed(r.value)
            && (forall p :: p in ps ==> p in Shown(r.value))
            && var r' := ClientPulls(c, Shown(r.value), ps, cclk);
               && r'.Some? && Closed(r'.value)
               && SameData(Shown(r.value), r'.value)
               && (forall p :: p in c ==> p in r'.value && r'.value[p] == c[p])
               && (forall p :: p in s && p !in c ==> p in r.value && r.value[p] == s[p])
               && (forall p :: Conflict(s, c, p) ==>
                     Backup(p, stamps(p)) in r.value && r.value[Backup(p, stamps(p))] == s[p])
               && (forall p :: p in r'.value ==> "log.txt" !in p)
               && (forall p :: "log.txt" in p ==> (p in r.value <==> p in s) && (p in s ==> r.value[p] == s[p]))
  {
    hide TransferOk, Pulled, PulledAt, Manifests, ServerPulls, ClientPulls, FreshBackups;
    ServerHalf(s, c, pc, stamps, sclk);
    var s1 := ServerPulls(s, c, pc, stamps, sclk).value;
    var m := Shown(s1);
    ShownClosed(s1);
    ManifestElems(m, ps);
    ShownHas(c, s1);
    assert ps[..0] == [] && ps[0..] == ps;
    ClientPullsAll(c, m, ps, 0, c, cclk);
    ClientHas(c, m, ps, ClientPulls(c, m, ps, cclk).value);
    LogNotPulled(s, c, s1, ClientPulls(c, m, ps, cclk).value);
  }

  lemma LogNotPulled(s: Tree, c: Tree, s1: Tree, c1: Tree)
    requires SameData(Shown(s1), c1) && (forall p :: p in c ==> Visible(p))
    requires forall p :: p in s && p !in c ==> p in s1 && s1[p] == s[p]
    requires forall p :: p in s1 && "log.txt" in p ==> p in s
    ensures forall p :: p in c1 ==> "log.txt" !in p
    ensures forall p :: "log.txt" in p ==> (p in s1 <==> p in s) && (p in s ==> s1[p] == s[p])
  {
    forall p | p in c1 ensures "log.txt" !in p { assert p in Shown(s1); }
    assert forall p :: "log.txt" in p ==> p !in c;
  }

  lemma ShownHas(c: Tree, s1: Tree)
    requires KindsMatch(c, s1) && forall p :: p in c ==> Visible(p) && p in s1 && SameEntry(s1[p], c[p])
    ensures KindsMatch(c, Shown(s1)) && forall p :: p in c ==> p in Shown(s1) && SameEntry(Shown(s1)[p], c[p])
  {
  }

  lemma ServerHalf(s: Tree, c: Tree, pc: seq<Path>, stamps: Stamps, sclk: Clock)
    requires Ready(s, c, stamps) && Manifests(c, pc)
    requires forall p :: p in pc ==> p in c
    ensures var r := ServerPulls(s, c, pc, stamps, sclk);
            r.Some? && Pulled(s, c, c.Keys - {[]}, stamps, r.value) && Closed(r.value)
    ensures var s1 := ServerPulls(s, c, pc, stamps, sclk).value;
            && KindsMatch(c, s1)
            && (forall p :: p in c ==> p in s1 && SameEntry(s1[p], c[p]))
            && (forall p :: p in s && p !in c ==> p in s1 && s1[p] == s[p])
            && (forall p :: Conflict(s, c, p) ==> Backup(p, stamps(p)) in s1 && s1[Backup(p, stamps(p))] == s[p])
            && (forall p :: HasFile(s1, p) && Visible(p) && p !in c ==> TransferOk(s1[p].content))
            && (forall p :: p in s1 && "log.txt" in p ==> p in s)
  {
    hide TransferOk, PulledAt, Manifests, ServerPulls, FreshBackups;
    assert pc[..0] == [] && pc[0..] == pc;
    PulledNothing(s, c, stamps);
    ServerPullsAll(s, c, pc, 0, stamps, s, sclk);
    ManifestElems(c, pc);
    PulledSummary(s, c, stamps, ServerPulls(s, c, pc, stamps, sclk).value);
  }

  lemma ClientHas(c: Tree, s1: Tree, ps: seq<Path>, c1: Tree)
    requires Taken(c, s1, Elems(ps), c1) && Elems(ps) == s1.Keys - {[]} && [] in c
    requires forall p :: p in c ==> p in s1 && SameEntry(s1[p], c[p])
    ensures SameData(s1, c1)
    ensures forall p :: p in c ==> p in c1 && c1[p] == c[p]
  {
  }

  /** A backup name is longer than the log file's, and its folder is the client's. */
  lemma BackupIsNoLog(s: Tree, c: Tree, done: set<Path>, stamps: Stamps, x: Path)
    requires FreshBackups(s, c, stamps) && (forall p :: p in c ==> Visible(p)) && IsBackup(s, c, done, stamps, x)
    ensures "log.txt" !in x
  {
    var p :| p in done && Conflict(s, c, p) && x == Backup(p, stamps(p));
    var n := p[|p| - 1] + "_" + stamps(p);
    assert |n| > |"log.txt"|;
    assert x == Parent(p) + [n] && forall m :: m in Parent(p) ==> m in p;
  }

  lemma PulledNothing(s: Tree, c: Tree, stamps: Stamps)
    ensures Pulled(s, c, Elems([]), stamps, s)
  {
    forall x ensures PulledAt(s, c, Elems([]), stamps, s, x) { }
  }

  lemma PulledSummary(s: Tree, c: Tree, stamps: Stamps, s1: Tree)
    requires Ready(s, c, stamps) && Pulled(s, c, c.Keys - {[]}, stamps, s1) && Closed(s1)
    ensures KindsMatch(c, s1)
    ensures forall p :: p in c ==> p in s1 && SameEntry(s1[p], c[p])
    ensures forall p :: p in s && p !in c ==> p in s1 && s1[p] == s[p]
    ensures forall p :: Conflict(s, c, p) ==> Backup(p, stamps(p)) in s1 && s1[Backup(p, stamps(p))] == s[p]
    ensures forall p :: HasFile(s1, p) && Visible(p) && p !in c ==> TransferOk(s1[p].content)
    ensures forall p :: p in s1 && "log.txt" in p ==> p in s
  {
    var done := c.Keys - {[]};
    forall p | p in s1 && "log.txt" in p ensures p in s {
      assert PulledAt(s, c, done, stamps, s1, p);
      if IsBackup(s, c, done, stamps, p) { BackupIsNoLog(s, c, done, stamps, p); }
    }
    hide TransferOk, FreshBackups;
    forall p | p in c ensures p in s1 && SameEntry(s1[p], c[p]) {
      assert PulledAt(s, c, done, stamps, s1, p);
    }
    forall p | p in s && p !in c ensures p in s1 && s1[p] == s[p] {
      assert PulledAt(s, c, done, stamps, s1, p);
    }
    forall p | Conflict(s, c, p) ensures Backup(p, stamps(p)) in s1 && s1[Backup(p, stamps(p))] == s[p] {
      assert PulledAt(s, c, done, stamps, s1, p);
    }
    forall p | HasFile(s1, p) && Visible(p) && p !in c ensures TransferOk(s1[p].content) {
      assert PulledAt(s, c, done, stamps, s1, p);
      if p !in s {
        var q :| q in done && Conflict(s, c, q) && p == Backup(q, stamps(q));
        assert HasFile(s, q) && q in c;
      } else {
        assert HasFile(s, p);
      }
    }
  }

  /** The paths a manifest lists below the root are exactly such a list, whatever the directory order. */
  lemma ManifestOfListing(es: seq<Dirent>)
    requires UniqEntries(es)
    ensures Manifests(TreeOf(es), Select(Build(es), [], false))
  {
    var ps := Select(Build(es), [], false);
    BuildUniq(es);
    SelectOnce(Build(es), [], false);
    SelectParentFirst(Build(es), [], false);
    forall p ensures p in Elems(ps) <==> p in TreeOf(es).Keys - {[]} {
      InTree(es, p);
      BuildMirrors(es, p);
      SelectExact(Build(es), [], false, p);
      assert p[0..] == p;
      assert p != [] ==> [] < p;
    }
  }
}
