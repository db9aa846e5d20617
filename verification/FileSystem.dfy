/** A directory tree as a finite map, and what each synchronisation message does to it. */
module FileSystem {
  import opened Text

  datatype Entry = Folder | File(content: string, mtime: int)
  type Tree = map<Path, Entry>

  /** The modification time the kernel records when a path is written. */
  type Clock = Path -> int

  datatype Msg =
    | Update(path: Path, content: string)
    | Delete(path: Path)
    | MkDir(path: Path)
    | Create(path: Path, content: string)

  function Parent(p: Path): Path
    requires p != []
  {
    p[..|p| - 1]
  }

  predicate HasFolder(fs: Tree, p: Path) { p in fs && fs[p].Folder? }

  predicate HasFile(fs: Tree, p: Path) { p in fs && fs[p].File? }

  /** Every entry but the root sits in a folder. */
  predicate Closed(fs: Tree) {
    HasFolder(fs, []) &&
    forall p :: p in fs && p != [] ==> HasFolder(fs, Parent(p))
  }

  lemma {:induction false} ClosedUp(fs: Tree, p: Path, q: Path)
    requires Closed(fs) && p <= q && q in fs
    ensures p in fs
    ensures p != q ==> fs[p].Folder?
    decreases |q|
  {
    if p != q {
      ClosedUp(fs, p, Parent(q));
    }
  }

  function RemoveTree(fs: Tree, p: Path): Tree {
    map q | q in fs && !(p <= q) :: fs[q]
  }

  /** The effect of one message; None when the receiving process exits. */
  function Step(fs: Tree, m: Msg, clock: Clock): (r: Option<Tree>) {
    match m
    case Update(p, c) =>
      if HasFile(fs, p) then Some(fs[p := File(c, clock(p))]) else None
    case Delete(p) =>
      Some(if HasFolder(fs, p) then RemoveTree(fs, p) else fs - {p})
    case MkDir(p) =>
      Some(if p !in fs && p != [] && HasFolder(fs, Parent(p)) then fs[p := Folder] else fs)
    case Create(p, c) =>
      Some(if HasFile(fs, p) || (p !in fs && p != [] && HasFolder(fs, Parent(p)))
           then fs[p := File(c, clock(p))] else fs)
  }

  function Replay(fs: Tree, ms: seq<Msg>, clock: Clock): Option<Tree>
    decreases |ms|
  {
    if ms == [] then Some(fs)
    else
      var r := Step(fs, ms[0], clock);
      if r.None? then None else Replay(r.value, ms[1..], clock)
  }

  lemma {:induction false} ReplayConcat(fs: Tree, a: seq<Msg>, b: seq<Msg>, clock: Clock)
    ensures Replay(fs, a + b, clock) ==
            var r := Replay(fs, a, clock); if r.None? then None else Replay(r.value, b, clock)
    decreases |a|
  {
    if a == [] {
      assert a + b == b;
    } else {
      assert (a + b)[1..] == a[1..] + b;
      var r := Step(fs, a[0], clock);
      if r.Some? { ReplayConcat(r.value, a[1..], b, clock); }
    }
  }

  lemma ReplayOne(fs: Tree, m: Msg, clock: Clock)
    ensures Replay(fs, [m], clock) == Step(fs, m, clock)
  {
    var r := Step(fs, m, clock);
    if r.Some? { assert Replay(r.value, [m][1..], clock) == r; }
  }

  /** Messages never break the shape of the tree. */
  lemma StepClosed(fs: Tree, m: Msg, clock: Clock)
    requires Closed(fs) && m.path != [] && Step(fs, m, clock).Some?
    ensures Closed(Step(fs, m, clock).value)
  {
    var r := Step(fs, m, clock).value;
    forall p | p in r && p != [] ensures HasFolder(r, Parent(p)) {
      assert p in fs ==> HasFolder(fs, Parent(p));
      if m.Delete? {
        assert HasFolder(fs, Parent(p));
        if m.path <= Parent(p) { assert m.path <= p; }
      }
    }
  }

  lemma {:induction false} ReplayShape(fs: Tree, ms: seq<Msg>, clock: Clock)
    requires Closed(fs) && forall m :: m in ms ==> m.path != []
    ensures Replay(fs, ms, clock).Some? ==> Closed(Replay(fs, ms, clock).value)
    decreases |ms|
  {
    if ms != [] {
      assert ms[0] in ms;
      var r := Step(fs, ms[0], clock);
      if r.Some? {
        StepClosed(fs, ms[0], clock);
        ReplayShape(r.value, ms[1..], clock);
      }
    }
  }

  // ---------------------------------------------------------------------------------------------
  // The server's log file, which no scan of the server shows

  const LOG_NAME := "log.txt"

  predicate Visible(p: Path) {
    LOG_NAME !in p
  }

  /** A tree as the scans show it. */
  function Shown(fs: Tree): Tree {
    map p | p in fs && Visible(p) :: fs[p]
  }

  lemma ShownClosed(fs: Tree)
    requires Closed(fs)
    ensures Closed(Shown(fs))
  {
    var v := Shown(fs);
    forall p | p in v && p != [] ensures HasFolder(v, Parent(p)) {
      assert HasFolder(fs, Parent(p));
    }
  }

  /** Messages about visible paths do not depend on the log file. */
  lemma StepShown(fs: Tree, m: Msg, clock: Clock)
    requires Visible(m.path)
    ensures var r, v := Step(fs, m, clock), Step(Shown(fs), m, clock);
            r.Some? == v.Some? && (r.Some? ==> Shown(r.value) == v.value)
  {
    var r, v := Step(fs, m, clock), Step(Shown(fs), m, clock);
    assert m.path != [] ==> Visible(Parent(m.path));
    if r.Some? { assert Shown(r.value) == v.value; }
  }

  /** A message whose path does not have the log file's name in it keeps every entry that has, unless it deletes a folder above. */
  lemma StepKeepsLog(fs: Tree, m: Msg, clock: Clock, p: Path)
    requires Closed(fs) && "log.txt" !in m.path && "log.txt" in p && Step(fs, m, clock).Some?
    ensures var r := Step(fs, m, clock).value;
            && (p in r <==> p in fs && !(m.Delete? && m.path <= p))
            && (p in r ==> r[p] == fs[p])
  {
    if m.Delete? && m.path <= p && p in fs { ClosedUp(fs, m.path, p); }
  }

  /** So does any list of such messages. */
  lemma {:induction false} ReplayKeepsLog(fs: Tree, ms: seq<Msg>, clock: Clock, p: Path)
    requires Closed(fs) && "log.txt" in p && Replay(fs, ms, clock).Some?
    requires forall m :: m in ms ==> m.path != [] && "log.txt" !in m.path
    ensures var r := Replay(fs, ms, clock).value;
            && (p in r <==> p in fs && forall m :: m in ms && m.Delete? ==> !(m.path <= p))
            && (p in r ==> r[p] == fs[p])
    decreases |ms|
  {
    hide Step, Closed;
    if ms != [] {
      assert ms[0] in ms && forall m :: m in ms <==> m == ms[0] || m in ms[1..];
      var r := Step(fs, ms[0], clock).value;
      StepClosed(fs, ms[0], clock);
      StepKeepsLog(fs, ms[0], clock, p);
      ReplayKeepsLog(r, ms[1..], clock, p);
    }
  }

  lemma {:induction false} ReplayShown(fs: Tree, ms: seq<Msg>, clock: Clock)
    requires forall m :: m in ms ==> Visible(m.path)
    ensures var r, v := Replay(fs, ms, clock), Replay(Shown(fs), ms, clock);
            r.Some? == v.Some? && (r.Some? ==> Shown(r.value) == v.value)
    decreases |ms|
  {
    hide Step;
    if ms != [] {
      assert ms[0] in ms;
      StepShown(fs, ms[0], clock);
      var r := Step(fs, ms[0], clock);
      if r.Some? { ReplayShown(r.value, ms[1..], clock); }
    }
  }

  // ---------------------------------------------------------------------------------------------

  /** Where the subtree at `p` ends up when it is moved to `q`. */
  function MovedKeys(fs: Tree, p: Path, q: Path): set<Path> {
    set x | x in fs && p <= x :: q + x[|p|..]
  }

  /** rename(2): replaces a file by a file and an empty folder by a folder; fails otherwise when the target exists. */
  function Renamed(fs: Tree, p: Path, q: Path): Tree
    requires p in fs
  {
    if q in fs && (fs[q].Folder? != fs[p].Folder? || (fs[q].Folder? && exists x :: x in fs && q < x)) then fs
    else
      map x | x in RemoveTree(fs, p).Keys + MovedKeys(fs, p, q) ::
        if q <= x && p + x[|q|..] in fs then fs[p + x[|q|..]] else if x in fs then fs[x] else Folder
  }

  lemma RenamedFile(fs: Tree, p: Path, q: Path)
    requires Closed(fs) && HasFile(fs, p) && (q in fs ==> HasFile(fs, q) && q != p)
    ensures Renamed(fs, p, q) == (fs - {p})[q := fs[p]]
  {
    NothingBelow(fs, p);
    NothingBelow(fs, q);
    MovedAlone(fs, p, q);
    hide Closed, MovedKeys, RemoveTree;
    assert p + q[|q|..] == p;
    var r := Renamed(fs, p, q);
    assert r.Keys == (fs - {p}).Keys + {q};
    forall x | x in r ensures r[x] == (fs - {p})[q := fs[p]][x] {
      assert x == q || !(q <= x);
    }
  }

  lemma MovedAlone(fs: Tree, p: Path, q: Path)
    requires p in fs && forall x :: x in fs && p <= x ==> x == p
    ensures MovedKeys(fs, p, q) == {q} && RemoveTree(fs, p) == fs - {p}
  {
    assert q + p[|p|..] == q;
    assert forall x :: x in fs && p <= x ==> q + x[|p|..] == q;
  }

  /** A path that is no folder has nothing below it. */
  lemma NothingBelow(fs: Tree, p: Path)
    requires Closed(fs) && !HasFolder(fs, p)
    ensures forall x :: x in fs && p <= x ==> x == p
  {
    forall x | x in fs && p <= x ensures x == p { ClosedUp(fs, p, x); }
  }

  datatype Option<+T> = None | Some(value: T)
}
