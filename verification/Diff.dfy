/**
 * The snapshot tree, and the diff that marks it: one scan of the directory against the remembered tree, then a walk
 * over what was not found and a walk over what is new. Everything here is on values; `MarkedDiff` refines it to
 * nodes updated in place.
 */
module Diff {
  import opened Text
  import opened FileSystem
  import opened Patch
  import opened Convergence

  /** A remembered node. */
  datatype Node = Node(name: Name, folder: bool, size: nat, mtime: int, flag: bool, children: seq<Node>)

  /** A directory entry as opendir, readdir and stat present it; entries come in any order. */
  datatype Dirent =
    | DFile(name: Name, content: string, mtime: int)
    | DFolder(name: Name, size: nat, mtime: int, entries: seq<Dirent>)

  function StatSize(e: Dirent): nat {
    if e.DFile? then |e.content| else e.size
  }

  /** createNode on what stat returned. */
  function NodeOf(e: Dirent, flag: bool, children: seq<Node>): Node {
    Node(e.name, e.DFolder?, StatSize(e), e.mtime, flag, children)
  }

  /**
   * Of the raw entries of a directory those a loop over it looks at, at every level: all but the log file when `skipLog`,
   * as in buildTree and in the server's scan, and all of them in the client's scan.
   */
  function Kept(es: seq<Dirent>, skipLog: bool): seq<Dirent> {
    if es == [] then []
    else if skipLog && es[0].name == "log.txt" then Kept(es[1..], skipLog)
    else [KeptEntry(es[0], skipLog)] + Kept(es[1..], skipLog)
  }

  function KeptEntry(e: Dirent, skipLog: bool): Dirent {
    if e.DFolder? then e.(entries := Kept(e.entries, skipLog)) else e
  }

  function Names(f: seq<Node>): set<Name> {
    set i | 0 <= i < |f| :: f[i].name
  }

  function EntryNames(es: seq<Dirent>): set<Name> {
    set i | 0 <= i < |es| :: es[i].name
  }

  /** Siblings have different names, at every level. */
  predicate Uniq(f: seq<Node>) {
    f == [] || (f[0].name !in Names(f[1..]) && Uniq(f[0].children) && Uniq(f[1..]))
  }

  predicate UniqEntries(es: seq<Dirent>) {
    es == [] ||
    (es[0].name !in EntryNames(es[1..]) && (es[0].DFolder? ==> UniqEntries(es[0].entries)) && UniqEntries(es[1..]))
  }

  /** The child with a given name. */
  function Find(f: seq<Node>, n: Name): (k: int)
    ensures -1 <= k < |f|
    ensures k >= 0 ==> f[k].name == n
    ensures k < 0 ==> n !in Names(f)
  {
    if f == [] then -1
    else if f[0].name == n then 0
    else
      var k := Find(f[1..], n);
      assert k < 0 ==> forall i :: 0 < i < |f| ==> f[i] == f[1..][i - 1];
      if k < 0 then -1 else k + 1
  }

  /** buildTree: the tree of a directory, all flags down. */
  function Build(es: seq<Dirent>): (f: seq<Node>) {
    if es == [] then []
    else [NodeOf(es[0], false, if es[0].DFolder? then Build(es[0].entries) else [])] + Build(es[1..])
  }

  datatype ScanResult = ScanResult(news: seq<Node>, olds: seq<Node>, msgs: seq<Msg>)

  /** The children of the remembered node an entry was matched with. */
  function ChildrenAt(olds: seq<Node>, k: int): seq<Node>
    requires -1 <= k < |olds|
  {
    if k < 0 then [] else olds[k].children
  }

  function MarkedAt(olds: seq<Node>, k: int, children: seq<Node>): seq<Node>
    requires -1 <= k < |olds|
  {
    if k < 0 then olds else olds[k := olds[k].(flag := true, children := children)]
  }

  function UpdateDue(olds: seq<Node>, k: int, e: Dirent, rel: Path): seq<Msg>
    requires -1 <= k < |olds|
  {
    if k >= 0 && olds[k].mtime != e.mtime && e.DFile? then [Update(rel + [e.name], e.content)] else []
  }

  /** buildTreeForCheckAndSendUpdates: the new nodes, the marked remembered nodes and the updates sent. */
  function Scan(es: seq<Dirent>, rel: Path, olds: seq<Node>): ScanResult {
    if es == [] then ScanResult([], olds, [])
    else
      var e := es[0];
      var k := Find(olds, e.name);
      var sub := if e.DFolder? then Scan(e.entries, rel + [e.name], ChildrenAt(olds, k))
                 else ScanResult([], ChildrenAt(olds, k), []);
      var rest := Scan(es[1..], rel, MarkedAt(olds, k, sub.olds));
      ScanResult([NodeOf(e, k < 0, sub.news)] + rest.news, rest.olds, UpdateDue(olds, k, e, rel) + sub.msgs + rest.msgs)
  }

  /** The paths of the nodes whose flag is `want`, a node before its children. */
  function Select(f: seq<Node>, rel: Path, want: bool): seq<Path> {
    if f == [] then []
    else
      var p := rel + [f[0].name];
      (if f[0].flag == want then [p] else []) + Select(f[0].children, p, want) + Select(f[1..], rel, want)
  }

  /** The create walk lowers the flags as it goes. */
  function Cleared(f: seq<Node>): seq<Node> {
    if f == [] then [] else [f[0].(flag := false, children := Cleared(f[0].children))] + Cleared(f[1..])
  }

  // ---------------------------------------------------------------------------------------------
  // Looking up paths

  function Get(f: seq<Node>, p: Path): Option<Node>
    decreases |p|, |f|
  {
    if f == [] || p == [] then None
    else if f[0].name == p[0] then if |p| == 1 then Some(f[0]) else Get(f[0].children, p[1..])
    else Get(f[1..], p)
  }

  function Look(es: seq<Dirent>, p: Path): Option<Dirent>
    decreases |p|, |es|
  {
    if es == [] || p == [] then None
    else if es[0].name == p[0] then
      if |p| == 1 then Some(es[0]) else if es[0].DFolder? then Look(es[0].entries, p[1..]) else None
    else Look(es[1..], p)
  }

  lemma GetInFound(f: seq<Node>, p: Path)
    requires p != []
    ensures var k := Find(f, p[0]);
            Get(f, p) == if k < 0 then None else if |p| == 1 then Some(f[k]) else Get(f[k].children, p[1..])
  {
  }

  lemma GetCons(n: Node, f: seq<Node>, p: Path)
    requires p != []
    ensures Get([n] + f, p) ==
            if p[0] != n.name then Get(f, p) else if |p| == 1 then Some(n) else Get(n.children, p[1..])
  {
    assert ([n] + f)[1..] == f;
  }

  lemma GetEmpty(p: Path)
    ensures Get([], p) == None
  {
  }

  lemma LookCons(es: seq<Dirent>, p: Path)
    requires es != [] && p != []
    ensures Look(es, p) ==
            if p[0] != es[0].name then Look(es[1..], p)
            else if |p| == 1 then Some(es[0]) else if es[0].DFolder? then Look(es[0].entries, p[1..]) else None
  {
  }

  lemma {:induction false} GetAfterMark(f: seq<Node>, k: nat, x: Node, p: Path)
    requires k < |f| && x.name == f[k].name && Find(f, x.name) == k && p != []
    ensures Find(f[k := x], p[0]) == Find(f, p[0])
    ensures Get(f[k := x], p) ==
            if p[0] != x.name then Get(f, p) else if |p| == 1 then Some(x) else Get(x.children, p[1..])
    decreases k
  {
    if k > 0 {
      assert f[k := x][1..] == f[1..][k - 1 := x];
      GetAfterMark(f[1..], k - 1, x, p);
    } else {
      assert f[k := x][1..] == f[1..];
      GetInFound(f, p);
    }
  }

  /** Marking keeps names, kinds and times; only flags may rise. */
  predicate SameMeta(a: Option<Node>, b: Option<Node>) {
    a.Some? == b.Some? &&
    (a.Some? ==> a.value.name == b.value.name && a.value.folder == b.value.folder && a.value.mtime == b.value.mtime)
  }

  predicate Marks(es: seq<Dirent>, olds: seq<Node>, olds': seq<Node>, p: Path) {
    SameMeta(Get(olds, p), Get(olds', p)) &&
    (Get(olds, p).Some? ==> Get(olds', p).value.flag == (Get(olds, p).value.flag || Look(es, p).Some?))
  }

  /** A new node mirrors its entry, and its flag says that the remembered tree does not have the path. */
  predicate Mirrors(es: seq<Dirent>, olds: seq<Node>, news: seq<Node>, p: Path) {
    var d, n := Look(es, p), Get(news, p);
    d.Some? == n.Some? &&
    (d.Some? ==>
       n.value.name == d.value.name && n.value.folder == d.value.DFolder? && n.value.mtime == d.value.mtime &&
       n.value.size == (if d.value.DFile? then |d.value.content| else d.value.size) &&
       n.value.flag == Get(olds, p).None?)
  }

  lemma LookHead(es: seq<Dirent>, p: Path)
    requires es != [] && UniqEntries(es) && p != []
    ensures p[0] == es[0].name ==> Look(es[1..], p).None?
  {
    if p[0] == es[0].name { LookNamed(es[1..], p); }
  }

  lemma LookNamed(es: seq<Dirent>, p: Path)
    requires p != [] && p[0] !in EntryNames(es)
    ensures Look(es, p).None?
  {
    if es != [] {
      assert es[0].name in EntryNames(es);
      forall n | n in EntryNames(es[1..]) ensures n in EntryNames(es) {
        var i :| 0 <= i < |es[1..]| && es[1..][i].name == n;
        assert es[i + 1].name == n;
      }
      LookNamed(es[1..], p);
    }
  }

  /** What the scan makes of the contents of an entry matched with a node that has the given children. */
  function Within(e: Dirent, rel: Path, children: seq<Node>): ScanResult {
    if e.DFolder? then Scan(e.entries, rel + [e.name], children) else ScanResult([], children, [])
  }

  function Inner(es: seq<Dirent>, rel: Path, olds: seq<Node>): ScanResult
    requires es != []
  {
    Within(es[0], rel, ChildrenAt(olds, Find(olds, es[0].name)))
  }

  /** The remembered nodes once the first entry has been looked at. */
  function Marked(es: seq<Dirent>, rel: Path, olds: seq<Node>): seq<Node>
    requires es != []
  {
    MarkedAt(olds, Find(olds, es[0].name), Inner(es, rel, olds).olds)
  }

  lemma ScanCons(es: seq<Dirent>, rel: Path, olds: seq<Node>)
    requires es != []
    ensures var k := Find(olds, es[0].name);
            var inner, rest := Inner(es, rel, olds), Scan(es[1..], rel, Marked(es, rel, olds));
            Scan(es, rel, olds) ==
            ScanResult([NodeOf(es[0], k < 0, inner.news)] + rest.news, rest.olds,
                       UpdateDue(olds, k, es[0], rel) + inner.msgs + rest.msgs)
  {
  }

  lemma GetMarked(es: seq<Dirent>, rel: Path, olds: seq<Node>, p: Path)
    requires es != [] && p != []
    ensures var k, inner := Find(olds, es[0].name), Inner(es, rel, olds);
            Get(Marked(es, rel, olds), p) ==
            if k < 0 || p[0] != es[0].name then Get(olds, p)
            else if |p| == 1 then Some(olds[k].(flag := true, children := inner.olds))
            else Get(inner.olds, p[1..])
  {
    hide Scan;
    var k := Find(olds, es[0].name);
    if k >= 0 {
      GetAfterMark(olds, k, olds[k].(flag := true, children := Inner(es, rel, olds).olds), p);
    }
  }

  /** The marks of a scan from the marks of its parts. */
  lemma MarksFrom(es: seq<Dirent>, rel: Path, olds: seq<Node>, p: Path)
    requires es != [] && UniqEntries(es) && p != []
    requires Marks(es[1..], Marked(es, rel, olds), Scan(es[1..], rel, Marked(es, rel, olds)).olds, p)
    requires es[0].DFolder? && |p| > 1 ==>
               Marks(es[0].entries, ChildrenAt(olds, Find(olds, es[0].name)), Inner(es, rel, olds).olds, p[1..])
    ensures Marks(es, olds, Scan(es, rel, olds).olds, p)
  {
    ScanCons(es, rel, olds);
    LookHead(es, p);
    LookCons(es, p);
    GetInFound(olds, p);
    GetMarked(es, rel, olds, p);
    hide Scan, Marked, Get, Look, UniqEntries;
  }

  /** The scan raises exactly the flags of the remembered paths that are still there, and changes nothing else. */
  lemma {:induction false} ScanMarks(es: seq<Dirent>, rel: Path, olds: seq<Node>, p: Path)
    requires UniqEntries(es)
    ensures Marks(es, olds, Scan(es, rel, olds).olds, p)
    decreases es
  {
    if es != [] && p != [] {
      hide Scan, Marked, Marks;
      var e := es[0];
      ScanMarks(es[1..], rel, Marked(es, rel, olds), p);
      if e.DFolder? && |p| > 1 {
        ScanMarks(e.entries, rel + [e.name], ChildrenAt(olds, Find(olds, e.name)), p[1..]);
      }
      MarksFrom(es, rel, olds, p);
    }
  }

  /** Entries after the first one. */
  lemma MirrorsBeside(es: seq<Dirent>, rel: Path, olds: seq<Node>, p: Path)
    requires es != [] && p != [] && p[0] != es[0].name
    requires Mirrors(es[1..], Marked(es, rel, olds), Scan(es[1..], rel, Marked(es, rel, olds)).news, p)
    ensures Mirrors(es, olds, Scan(es, rel, olds).news, p)
  {
    hide Scan, Marked, Get, Look;
    ScanCons(es, rel, olds);
    LookCons(es, p);
    GetMarked(es, rel, olds, p);
    GetCons(NodeOf(es[0], Find(olds, es[0].name) < 0, Inner(es, rel, olds).news),
            Scan(es[1..], rel, Marked(es, rel, olds)).news, p);
  }

  /** The first entry and what it contains. */
  lemma MirrorsInside(es: seq<Dirent>, rel: Path, olds: seq<Node>, p: Path)
    requires es != [] && p != [] && p[0] == es[0].name
    requires |p| > 1 && es[0].DFolder? ==>
               Mirrors(es[0].entries, ChildrenAt(olds, Find(olds, es[0].name)), Inner(es, rel, olds).news, p[1..])
    ensures Mirrors(es, olds, Scan(es, rel, olds).news, p)
  {
    hide Scan, Marked, Get, Look;
    ScanCons(es, rel, olds);
    LookCons(es, p);
    GetInFound(olds, p);
    GetEmpty(p[1..]);
    GetCons(NodeOf(es[0], Find(olds, es[0].name) < 0, Inner(es, rel, olds).news),
            Scan(es[1..], rel, Marked(es, rel, olds)).news, p);
  }

  /** The new tree has exactly the directory's paths; a node is flagged exactly when the path was not remembered. */
  lemma {:induction false} ScanMirrors(es: seq<Dirent>, rel: Path, olds: seq<Node>, p: Path)
    requires UniqEntries(es)
    ensures Mirrors(es, olds, Scan(es, rel, olds).news, p)
    decreases es
  {
    if es != [] && p != [] {
      hide Scan, Marked, Mirrors;
      var e := es[0];
      if p[0] != e.name {
        ScanMirrors(es[1..], rel, Marked(es, rel, olds), p);
        MirrorsBeside(es, rel, olds, p);
      } else {
        if e.DFolder? && |p| > 1 {
          ScanMirrors(e.entries, rel + [e.name], ChildrenAt(olds, Find(olds, e.name)), p[1..]);
        }
        MirrorsInside(es, rel, olds, p);
      }
    } else {
      GetEmpty(p);
    }
  }

  /** A file present on both sides whose modification time differs. */
  predicate Due(es: seq<Dirent>, olds: seq<Node>, p: Path, c: string) {
    var d, n := Look(es, p), Get(olds, p);
    d.Some? && d.value.DFile? && d.value.content == c && n.Some? && n.value.mtime != d.value.mtime
  }

  predicate DueMsg(es: seq<Dirent>, rel: Path, olds: seq<Node>, m: Msg) {
    m.Update? && rel < m.path && Due(es, olds, m.path[|rel|..], m.content)
  }

  lemma DueBelow(es: seq<Dirent>, rel: Path, olds: seq<Node>, m: Msg)
    requires es != [] && es[0].DFolder?
    requires DueMsg(es[0].entries, rel + [es[0].name], ChildrenAt(olds, Find(olds, es[0].name)), m)
    ensures DueMsg(es, rel, olds, m) && |m.path| > |rel| + 1 && m.path[|rel|] == es[0].name
  {
    var p := m.path[|rel|..];
    assert (rel + [es[0].name])[|rel|] == es[0].name;
    assert p[1..] == m.path[|rel| + 1..];
    GetInFound(olds, p);
  }

  lemma DueBeside(es: seq<Dirent>, rel: Path, olds: seq<Node>, m: Msg)
    requires es != [] && UniqEntries(es)
    requires DueMsg(es[1..], rel, Marked(es, rel, olds), m)
    ensures DueMsg(es, rel, olds, m) && |m.path| > |rel| && m.path[|rel|] != es[0].name
  {
    var p := m.path[|rel|..];
    LookHead(es, p);
    GetMarked(es, rel, olds, p);
  }

  /** Only due updates are sent. */
  lemma {:induction false} ScanSendsOnlyDue(es: seq<Dirent>, rel: Path, olds: seq<Node>)
    requires UniqEntries(es)
    ensures forall m :: m in Scan(es, rel, olds).msgs ==> DueMsg(es, rel, olds, m)
    decreases es
  {
    if es != [] {
      hide Scan, Marked, DueMsg;
      var e := es[0];
      var k := Find(olds, e.name);
      ScanCons(es, rel, olds);
      ScanSendsOnlyDue(es[1..], rel, Marked(es, rel, olds));
      if e.DFolder? { ScanSendsOnlyDue(e.entries, rel + [e.name], ChildrenAt(olds, k)); }
      forall m | m in Scan(es, rel, olds).msgs ensures DueMsg(es, rel, olds, m) {
        if m in UpdateDue(olds, k, e, rel) {
          DueItself(es, rel, olds, m);
        } else if m in Inner(es, rel, olds).msgs {
          DueBelow(es, rel, olds, m);
        } else {
          DueBeside(es, rel, olds, m);
        }
      }
    }
  }

  lemma DueItself(es: seq<Dirent>, rel: Path, olds: seq<Node>, m: Msg)
    requires es != [] && m in UpdateDue(olds, Find(olds, es[0].name), es[0], rel)
    ensures DueMsg(es, rel, olds, m)
  {
    assert m.path[|rel|..] == [es[0].name];
    GetInFound(olds, [es[0].name]);
  }

  /** A due file is due among the entries it is listed with. */
  lemma DueAt(es: seq<Dirent>, rel: Path, olds: seq<Node>, p: Path, c: string)
    requires es != [] && Due(es, olds, p, c)
    ensures var k := Find(olds, es[0].name);
            if p[0] != es[0].name then Due(es[1..], Marked(es, rel, olds), p, c)
            else if |p| == 1 then es[0].DFile? && es[0].content == c && k >= 0 && olds[k].mtime != es[0].mtime
            else es[0].DFolder? && Due(es[0].entries, ChildrenAt(olds, k), p[1..], c)
  {
    GetInFound(olds, p);
    GetMarked(es, rel, olds, p);
  }

  lemma DueNow(e: Dirent, rel: Path, olds: seq<Node>, k: nat, p: Path, c: string)
    requires k < |olds| && |p| == 1 && p[0] == e.name && e.DFile? && e.content == c && olds[k].mtime != e.mtime
    ensures Update(rel + p, c) in UpdateDue(olds, k, e, rel)
  {
    assert p == [e.name];
  }

  lemma SentFrom(es: seq<Dirent>, rel: Path, olds: seq<Node>, m: Msg)
    requires es != []
    requires m in UpdateDue(olds, Find(olds, es[0].name), es[0], rel) || m in Inner(es, rel, olds).msgs ||
             m in Scan(es[1..], rel, Marked(es, rel, olds)).msgs
    ensures m in Scan(es, rel, olds).msgs
  {
    ScanCons(es, rel, olds);
    hide Scan, Marked, Find, UpdateDue, Inner;
  }

  lemma Descends(rel: Path, n: Name, p: Path)
    requires p != [] && p[0] == n
    ensures rel + [n] + p[1..] == rel + p
  {
  }

  /** Every due update is sent. */
  lemma {:induction false} ScanSendsDue(es: seq<Dirent>, rel: Path, olds: seq<Node>, p: Path, c: string)
    requires UniqEntries(es) && Due(es, olds, p, c)
    ensures Update(rel + p, c) in Scan(es, rel, olds).msgs
    decreases es
  {
    var e, k := es[0], Find(olds, es[0].name);
    DueAt(es, rel, olds, p, c);
    hide Scan, Marked, Due, Find, UpdateDue;
    if p[0] != e.name {
      ScanSendsDue(es[1..], rel, Marked(es, rel, olds), p, c);
    } else if |p| == 1 {
      DueNow(e, rel, olds, k, p, c);
    } else {
      ScanSendsDue(e.entries, rel + [e.name], ChildrenAt(olds, k), p[1..], c);
      Descends(rel, e.name, p);
    }
    SentFrom(es, rel, olds, Update(rel + p, c));
  }

  ghost predicate NoDup<T>(s: seq<T>) {
    forall i, j :: 0 <= i < j < |s| ==> s[i] != s[j]
  }

  /** No update is sent twice. */
  lemma {:induction false} ScanSendsOnce(es: seq<Dirent>, rel: Path, olds: seq<Node>)
    requires UniqEntries(es)
    ensures NoDup(MsgPaths(Scan(es, rel, olds).msgs))
    decreases es
  {
    if es != [] {
      hide Scan, Marked, DueMsg;
      var e := es[0];
      var k := Find(olds, e.name);
      var u, inner, rest := UpdateDue(olds, k, e, rel), Inner(es, rel, olds).msgs, Scan(es[1..], rel, Marked(es, rel, olds)).msgs;
      ScanCons(es, rel, olds);
      ScanSendsOnce(es[1..], rel, Marked(es, rel, olds));
      ScanSendsOnlyDue(es[1..], rel, Marked(es, rel, olds));
      if e.DFolder? {
        ScanSendsOnce(e.entries, rel + [e.name], ChildrenAt(olds, k));
        ScanSendsOnlyDue(e.entries, rel + [e.name], ChildrenAt(olds, k));
      }
      forall m | m in inner ensures |m.path| > |rel| && m.path[|rel|] == e.name {
        DueBelow(es, rel, olds, m);
      }
      forall m | m in rest ensures |m.path| > |rel| && m.path[|rel|] != e.name {
        DueBeside(es, rel, olds, m);
      }
      assert u == [] || inner == [];
      OnceJoined(rel, e.name, u, inner, rest);
    }
  }

  lemma PathFrom(ms: seq<Msg>, x: Path)
    requires x in MsgPaths(ms)
    ensures exists m :: m in ms && m.path == x
  {
    var i :| 0 <= i < |ms| && MsgPaths(ms)[i] == x;
    assert ms[i] in ms;
  }

  lemma OnceJoined(rel: Path, n: Name, u: seq<Msg>, inner: seq<Msg>, rest: seq<Msg>)
    requires (u == [] || inner == []) && |u| <= 1 && NoDup(MsgPaths(inner)) && NoDup(MsgPaths(rest))
    requires forall m :: m in u || m in inner ==> |m.path| > |rel| && m.path[|rel|] == n
    requires forall m :: m in rest ==> |m.path| > |rel| && m.path[|rel|] != n
    ensures NoDup(MsgPaths(u + inner + rest))
  {
    var a, c := MsgPaths(u + inner), MsgPaths(rest);
    assert u + inner == u || u + inner == inner;
    assert MsgPaths(u + inner + rest) == a + c;
    forall x | x in a ensures |x| > |rel| && x[|rel|] == n { PathFrom(u + inner, x); }
    forall x | x in c ensures |x| > |rel| && x[|rel|] != n { PathFrom(rest, x); }
    NoDupConcat(a, c);
  }

  function MsgPaths(ms: seq<Msg>): (ps: seq<Path>)
    ensures |ps| == |ms|
    ensures forall i :: 0 <= i < |ms| ==> ps[i] == ms[i].path
  {
    seq(|ms|, i requires 0 <= i < |ms| => ms[i].path)
  }

  // ---------------------------------------------------------------------------------------------
  // The walks

  lemma {:induction false} GetName(f: seq<Node>, p: Path)
    requires Get(f, p).Some?
    ensures p != [] && p[0] in Names(f)
    decreases |f|
  {
    if f[0].name == p[0] {
      assert f[0].name in Names(f);
    } else {
      GetName(f[1..], p);
      var i :| 0 <= i < |f[1..]| && f[1..][i].name == p[0];
      assert f[i + 1].name == p[0];
    }
  }

  /** `x`, seen from `rel`, names a node whose flag is `want`. */
  predicate Selected(f: seq<Node>, rel: Path, want: bool, x: Path) {
    rel < x && Get(f, x[|rel|..]).Some? && Get(f, x[|rel|..]).value.flag == want
  }

  lemma SelectedSplit(f: seq<Node>, rel: Path, want: bool, x: Path)
    requires f != [] && Uniq(f)
    ensures var p := rel + [f[0].name];
            Selected(f, rel, want, x) <==>
            (x == p && f[0].flag == want) || Selected(f[0].children, p, want, x) || Selected(f[1..], rel, want, x)
    ensures Selected(f[1..], rel, want, x) ==> x[|rel|] != f[0].name
  {
    var p := rel + [f[0].name];
    if rel < x {
      var q := x[|rel|..];
      if Get(f[1..], q).Some? { GetName(f[1..], q); }
      if q[0] == f[0].name {
        assert x[..|p|] == p;
        if |q| == 1 { assert x == p; } else { assert q[1..] == x[|p|..]; }
      } else {
        assert !(p <= x);
      }
    }
  }

  /** A walk visits exactly the selected paths. */
  lemma {:induction false} SelectExact(f: seq<Node>, rel: Path, want: bool, x: Path)
    requires Uniq(f)
    ensures x in Select(f, rel, want) <==> Selected(f, rel, want, x)
    decreases f
  {
    if f != [] {
      SelectedSplit(f, rel, want, x);
      SelectExact(f[0].children, rel + [f[0].name], want, x);
      SelectExact(f[1..], rel, want, x);
    }
  }

  /** No path is visited twice. */
  lemma {:induction false} SelectOnce(f: seq<Node>, rel: Path, want: bool)
    requires Uniq(f)
    ensures NoDup(Select(f, rel, want))
    decreases f
  {
    if f != [] {
      var p := rel + [f[0].name];
      var a := if f[0].flag == want then [p] else [];
      var b, c := Select(f[0].children, p, want), Select(f[1..], rel, want);
      SelectOnce(f[0].children, p, want);
      SelectOnce(f[1..], rel, want);
      forall x | x in b ensures p < x { SelectExact(f[0].children, p, want, x); }
      forall x | x in c ensures |x| > |rel| && x[|rel|] != f[0].name {
        SelectExact(f[1..], rel, want, x);
        SelectedSplit(f, rel, want, x);
      }
      assert p[|rel|] == f[0].name;
      assert forall x :: p < x ==> x[|rel|] == f[0].name;
      assert Select(f, rel, want) == a + b + c;
      NoDupConcat(a, b);
      NoDupConcat(a + b, c);
    }
  }

  lemma NoDupConcat<T>(a: seq<T>, b: seq<T>)
    requires NoDup(a) && NoDup(b) && forall x :: x in a ==> x !in b
    ensures NoDup(a + b)
  {
    forall i, j | 0 <= i < j < |a + b| ensures (a + b)[i] != (a + b)[j] {
      if i < |a| <= j { assert (a + b)[j] == b[j - |a|] && (a + b)[i] in a; }
    }
  }

  /** A listed parent comes before its child. */
  ghost predicate ParentsBefore(s: seq<Path>) {
    forall i :: 0 <= i < |s| && Parent'(s[i]) in s ==> Parent'(s[i]) in s[..i]
  }

  lemma {:induction false} SelectParentFirst(f: seq<Node>, rel: Path, want: bool)
    requires Uniq(f)
    ensures ParentsBefore(Select(f, rel, want))
    decreases f
  {
    if f != [] {
      var p := rel + [f[0].name];
      var a := if f[0].flag == want then [p] else [];
      var b, c := Select(f[0].children, p, want), Select(f[1..], rel, want);
      SelectParentFirst(f[0].children, p, want);
      SelectParentFirst(f[1..], rel, want);
      forall x | x in b ensures p < x { SelectExact(f[0].children, p, want, x); }
      forall x | x in c ensures rel < x && x[|rel|] != f[0].name {
        SelectExact(f[1..], rel, want, x);
        SelectedSplit(f, rel, want, x);
      }
      assert Parent'(p) == rel;
      forall x | x in b ensures Parent'(x) !in c { assert p <= Parent'(x); }
      ParentsBeforeConcat(a, b);
      ParentsBeforeConcat(a + b, c);
      assert Select(f, rel, want) == a + b + c;
    }
  }

  lemma ParentsBeforeConcat(a: seq<Path>, b: seq<Path>)
    requires ParentsBefore(a) && ParentsBefore(b) && forall x :: x in a ==> Parent'(x) !in b
    ensures ParentsBefore(a + b)
  {
    var s := a + b;
    forall i | 0 <= i < |s| && Parent'(s[i]) in s ensures Parent'(s[i]) in s[..i] {
      if i < |a| {
        assert s[i] == a[i] && a[i] in a;
        assert s[..i] == a[..i];
      } else {
        assert s[i] == b[i - |a|];
        assert s[..i] == a + b[..i - |a|];
      }
    }
  }

  // ---------------------------------------------------------------------------------------------
  // The whole diff

  /** What a remembered tree says about the paths it holds. */
  function SnapshotOf(f: seq<Node>): Snapshot {
    map p | p in Elems(Select(f, [], true)) + Elems(Select(f, [], false)) :: MetaAt(f, p)
  }

  function MetaAt(f: seq<Node>, p: Path): Meta {
    match Get(f, p)
    case None => Meta(false, 0)
    case Some(n) => Meta(n.folder, n.mtime)
  }

  lemma InSnapshot(f: seq<Node>, p: Path)
    requires Uniq(f)
    ensures p in SnapshotOf(f) <==> Get(f, p).Some?
    ensures p in SnapshotOf(f) ==> p != []
  {
    SelectExact(f, [], true, p);
    SelectExact(f, [], false, p);
    assert p[0..] == p;
    assert p != [] ==> [] < p;
  }

  /** The directory as a tree of paths. */
  function TreeOf(es: seq<Dirent>): Tree {
    map p | p in {[]} + Elems(Select(Build(es), [], false)) :: EntryAt(es, p)
  }

  function EntryAt(es: seq<Dirent>, p: Path): Entry {
    match Look(es, p)
    case None => Folder
    case Some(d) => if d.DFile? then File(d.content, d.mtime) else Folder
  }

  lemma {:induction false} BuildMirrors(es: seq<Dirent>, p: Path)
    ensures Get(Build(es), p).Some? == Look(es, p).Some?
    ensures Look(es, p).Some? ==>
              var n, d := Get(Build(es), p).value, Look(es, p).value;
              n.folder == d.DFolder? && n.mtime == d.mtime && !n.flag &&
              n.size == if d.DFile? then |d.content| else d.size
    decreases es
  {
    if es != [] && p != [] {
      BuildMirrors(es[1..], p);
      if es[0].DFolder? && |p| > 1 { BuildMirrors(es[0].entries, p[1..]); }
    }
  }

  lemma {:induction false} BuildUniq(es: seq<Dirent>)
    requires UniqEntries(es)
    ensures Uniq(Build(es)) && Names(Build(es)) == EntryNames(es)
    decreases es
  {
    if es != [] {
      BuildUniq(es[1..]);
      if es[0].DFolder? { BuildUniq(es[0].entries); }
      NamesCons(Build(es));
      EntryNamesCons(es);
    }
  }

  lemma NamesCons(f: seq<Node>)
    requires f != []
    ensures Names(f) == {f[0].name} + Names(f[1..])
  {
    forall n | n in Names(f[1..]) ensures n in Names(f) {
      var i :| 0 <= i < |f[1..]| && f[1..][i].name == n;
      assert f[i + 1].name == n;
    }
    forall n | n in Names(f) && n != f[0].name ensures n in Names(f[1..]) {
      var i :| 0 <= i < |f| && f[i].name == n;
      assert f[1..][i - 1].name == n;
    }
  }

  lemma EntryNamesCons(es: seq<Dirent>)
    requires es != []
    ensures EntryNames(es) == {es[0].name} + EntryNames(es[1..])
  {
    forall n | n in EntryNames(es[1..]) ensures n in EntryNames(es) {
      var i :| 0 <= i < |es[1..]| && es[1..][i].name == n;
      assert es[i + 1].name == n;
    }
    forall n | n in EntryNames(es) && n != es[0].name ensures n in EntryNames(es[1..]) {
      var i :| 0 <= i < |es| && es[i].name == n;
      assert es[1..][i - 1].name == n;
    }
  }

  lemma InTree(es: seq<Dirent>, p: Path)
    requires UniqEntries(es)
    ensures p in TreeOf(es) <==> p == [] || Look(es, p).Some?
  {
    BuildUniq(es);
    BuildMirrors(es, p);
    SelectExact(Build(es), [], false, p);
    assert p[0..] == p;
    assert p != [] ==> [] < p;
  }

  lemma {:induction false} LookParent(es: seq<Dirent>, p: Path)
    requires |p| > 1 && Look(es, p).Some?
    ensures Look(es, Parent(p)).Some? && Look(es, Parent(p)).value.DFolder?
    decreases es
  {
    if es[0].name == p[0] {
      if |p| > 2 {
        LookParent(es[0].entries, p[1..]);
        assert Parent(p)[1..] == Parent(p[1..]);
      }
    } else {
      LookParent(es[1..], p);
    }
  }

  /** A directory listing always denotes a well-formed tree. */
  lemma TreeOfClosed(es: seq<Dirent>)
    requires UniqEntries(es)
    ensures Closed(TreeOf(es))
  {
    forall p | p in TreeOf(es) && p != [] ensures HasFolder(TreeOf(es), Parent(p)) {
      InTree(es, p);
      InTree(es, Parent(p));
      if |p| > 1 { LookParent(es, p); }
    }
    InTree(es, []);
  }

  lemma {:induction false} ScanNewsUniq(es: seq<Dirent>, rel: Path, olds: seq<Node>)
    requires UniqEntries(es)
    ensures Uniq(Scan(es, rel, olds).news) && Names(Scan(es, rel, olds).news) == EntryNames(es)
    decreases es
  {
    if es != [] {
      hide Scan, Marked;
      var e := es[0];
      ScanCons(es, rel, olds);
      ScanNewsUniq(es[1..], rel, Marked(es, rel, olds));
      if e.DFolder? { ScanNewsUniq(e.entries, rel + [e.name], ChildrenAt(olds, Find(olds, e.name))); }
      NamesCons(Scan(es, rel, olds).news);
      EntryNamesCons(es);
    }
  }

  lemma {:induction false} UniqAt(f: seq<Node>, k: nat, x: Node)
    requires k < |f| && Uniq(f) && x.name == f[k].name && Uniq(x.children)
    ensures Uniq(f[k := x]) && Names(f[k := x]) == Names(f)
    decreases k
  {
    NamesCons(f);
    NamesCons(f[k := x]);
    if k > 0 {
      assert f[k := x][1..] == f[1..][k - 1 := x];
      UniqAt(f[1..], k - 1, x);
    } else {
      assert f[k := x][1..] == f[1..];
    }
  }

  lemma {:induction false} UniqBelow(f: seq<Node>, k: nat)
    requires k < |f| && Uniq(f)
    ensures Uniq(f[k].children)
    decreases k
  {
    if k > 0 { UniqBelow(f[1..], k - 1); }
  }

  lemma {:induction false} MarkedUniq(es: seq<Dirent>, rel: Path, olds: seq<Node>)
    requires es != [] && Uniq(olds)
    ensures Uniq(Marked(es, rel, olds))
    decreases es, 0
  {
    hide Scan;
    var e, k := es[0], Find(olds, es[0].name);
    if k >= 0 {
      UniqBelow(olds, k);
      if e.DFolder? { ScanOldsUniq(e.entries, rel + [e.name], olds[k].children); }
      UniqAt(olds, k, olds[k].(flag := true, children := Inner(es, rel, olds).olds));
    }
  }

  lemma {:induction false} ScanOldsUniq(es: seq<Dirent>, rel: Path, olds: seq<Node>)
    requires Uniq(olds)
    ensures Uniq(Scan(es, rel, olds).olds)
    decreases es, 1
  {
    if es != [] {
      hide Scan, Marked;
      ScanCons(es, rel, olds);
      MarkedUniq(es, rel, olds);
      ScanOldsUniq(es[1..], rel, Marked(es, rel, olds));
    }
  }

  /** All flags are down. */
  predicate Down(f: seq<Node>) {
    f == [] || (!f[0].flag && Down(f[0].children) && Down(f[1..]))
  }

  lemma {:induction false} DownAt(f: seq<Node>, p: Path)
    requires Down(f)
    ensures Get(f, p).Some? ==> !Get(f, p).value.flag
    decreases |p|, |f|
  {
    if f != [] && p != [] {
      if f[0].name == p[0] {
        if |p| > 1 { DownAt(f[0].children, p[1..]); }
      } else {
        DownAt(f[1..], p);
      }
    }
  }

  /**
   * The diff is exact. From a tree with all flags down, the scan sends the changed files, the walk over the marked
   * old tree lists exactly the paths that are gone, and the walk over the new tree exactly the paths that are new:
   * each path once, a folder before its contents.
   */
  lemma {:induction false} ScanExact(es: seq<Dirent>, olds: seq<Node>)
    requires UniqEntries(es) && Uniq(olds) && Down(olds)
    ensures var s := Scan(es, [], olds);
            var ups, dels, news := MsgPaths(s.msgs), Select(s.olds, [], false), Select(s.news, [], true);
            && Lists(SnapshotOf(olds), TreeOf(es), ups, dels, news)
            && NoDup(ups) && NoDup(dels) && NoDup(news)
            && ParentsBefore(dels) && ParentsBefore(news)
  {
    var s := Scan(es, [], olds);
    var ups, dels, news := MsgPaths(s.msgs), Select(s.olds, [], false), Select(s.news, [], true);
    hide Scan, Select, Uniq, UniqEntries, SnapshotOf, TreeOf, Down, Ups, Dels, News;
    ScanNewsUniq(es, [], olds);
    ScanOldsUniq(es, [], olds);
    ScanSendsOnce(es, [], olds);
    SelectOnce(s.olds, [], false);
    SelectOnce(s.news, [], true);
    SelectParentFirst(s.olds, [], false);
    SelectParentFirst(s.news, [], true);
    forall p
      ensures p in Elems(ups) <==> p in Ups(SnapshotOf(olds), TreeOf(es))
      ensures p in Elems(dels) <==> p in Dels(SnapshotOf(olds), TreeOf(es))
      ensures p in Elems(news) <==> p in News(SnapshotOf(olds), TreeOf(es))
    {
      UpdatedExactly(es, olds, p);
      DeletedExactly(es, olds, p);
      CreatedExactly(es, olds, p);
    }
    forall i | 0 <= i < |news| && Parent'(news[i]) in News(SnapshotOf(olds), TreeOf(es))
      ensures Parent'(news[i]) in news[..i]
    {
      assert Parent'(news[i]) in Elems(news);
    }
  }

  lemma UpdatedExactly(es: seq<Dirent>, olds: seq<Node>, p: Path)
    requires UniqEntries(es) && Uniq(olds)
    ensures p in MsgPaths(Scan(es, [], olds).msgs) <==> p in Ups(SnapshotOf(olds), TreeOf(es))
  {
    var ms := Scan(es, [], olds).msgs;
    InSnapshot(olds, p);
    InTree(es, p);
    ScanSendsOnlyDue(es, [], olds);
    if p in MsgPaths(ms) {
      var i :| 0 <= i < |ms| && ms[i].path == p;
      assert ms[i] in ms;
      assert p[0..] == p;
    }
    if p in Ups(SnapshotOf(olds), TreeOf(es)) {
      var c := TreeOf(es)[p].content;
      ScanSendsDue(es, [], olds, p, c);
      assert [] + p == p;
      var i :| 0 <= i < |ms| && ms[i] == Update(p, c);
      assert MsgPaths(ms)[i] == p;
    }
  }

  lemma DeletedExactly(es: seq<Dirent>, olds: seq<Node>, p: Path)
    requires UniqEntries(es) && Uniq(olds) && Down(olds)
    ensures p in Select(Scan(es, [], olds).olds, [], false) <==> p in Dels(SnapshotOf(olds), TreeOf(es))
  {
    var s := Scan(es, [], olds);
    ScanOldsUniq(es, [], olds);
    SelectExact(s.olds, [], false, p);
    InSnapshot(olds, p);
    InTree(es, p);
    assert p[0..] == p;
    assert p != [] ==> [] < p;
    ScanMarks(es, [], olds, p);
    DownAt(olds, p);
  }

  lemma CreatedExactly(es: seq<Dirent>, olds: seq<Node>, p: Path)
    requires UniqEntries(es) && Uniq(olds)
    ensures p in Select(Scan(es, [], olds).news, [], true) <==> p in News(SnapshotOf(olds), TreeOf(es))
  {
    var s := Scan(es, [], olds);
    ScanNewsUniq(es, [], olds);
    SelectExact(s.news, [], true, p);
    InSnapshot(olds, p);
    InTree(es, p);
    assert p[0..] == p;
    assert p != [] ==> [] < p;
    ScanMirrors(es, [], olds, p);
  }

  /** The updates sent carry the content on disk. */
  lemma UpdatesCarryContent(es: seq<Dirent>, olds: seq<Node>)
    requires UniqEntries(es)
    ensures var ms := Scan(es, [], olds).msgs;
            (forall p :: p in MsgPaths(ms) ==> HasFile(TreeOf(es), p)) &&
            ms == UpdateMsgs(TreeOf(es), MsgPaths(ms))
  {
    var ms := Scan(es, [], olds).msgs;
    ScanSendsOnlyDue(es, [], olds);
    forall i | 0 <= i < |ms|
      ensures HasFile(TreeOf(es), ms[i].path) && ms[i] == Update(ms[i].path, TreeOf(es)[ms[i].path].content)
    {
      assert ms[i] in ms;
      assert ms[i].path[0..] == ms[i].path;
      InTree(es, ms[i].path);
    }
    assert forall p :: p in MsgPaths(ms) ==> exists i :: 0 <= i < |ms| && p == ms[i].path;
  }

  // ---------------------------------------------------------------------------------------------
  // Snapshot coherence and quiescence

  /** After the create walk the new tree is what buildTree would produce from the same directory. */
  lemma {:induction false} ScanCoherent(es: seq<Dirent>, rel: Path, olds: seq<Node>)
    ensures Cleared(Scan(es, rel, olds).news) == Build(es)
    decreases es
  {
    if es != [] {
      hide Scan, Marked;
      var e := es[0];
      ScanCons(es, rel, olds);
      if e.DFolder? { ScanCoherent(e.entries, rel + [e.name], ChildrenAt(olds, Find(olds, e.name))); }
      ScanCoherent(es[1..], rel, Marked(es, rel, olds));
    }
  }

  lemma {:induction false} BuildDown(es: seq<Dirent>)
    ensures Down(Build(es))
    decreases es
  {
    if es != [] {
      BuildDown(es[1..]);
      if es[0].DFolder? { BuildDown(es[0].entries); }
    }
  }

  /** The snapshot taken from a directory is exact for the tree it denotes. */
  lemma BuildIsExact(es: seq<Dirent>)
    requires UniqEntries(es)
    ensures Exact(SnapshotOf(Build(es)), TreeOf(es))
  {
    BuildUniq(es);
    forall p ensures p in SnapshotOf(Build(es)) <==> p in TreeOf(es) && p != [] {
      InSnapshot(Build(es), p);
      InTree(es, p);
      BuildMirrors(es, p);
    }
    forall p | p in SnapshotOf(Build(es))
      ensures SnapshotOf(Build(es))[p].folder == TreeOf(es)[p].Folder?
      ensures TreeOf(es)[p].File? ==> SnapshotOf(Build(es))[p].mtime == TreeOf(es)[p].mtime
    {
      InSnapshot(Build(es), p);
      InTree(es, p);
      BuildMirrors(es, p);
    }
  }

  /** A check against any snapshot that agrees with the directory, read in whatever order, finds nothing to send. */
  lemma {:induction false} Quiescent(es: seq<Dirent>, olds: seq<Node>)
    requires UniqEntries(es) && Uniq(olds) && Down(olds) && Exact(SnapshotOf(olds), TreeOf(es))
    ensures var s := Scan(es, [], olds);
            s.msgs == [] && Select(s.olds, [], false) == [] && Select(s.news, [], true) == []
            && Cleared(s.news) == Build(es)
  {
    var s := Scan(es, [], olds);
    ScanExact(es, olds);
    ScanCoherent(es, [], olds);
    NothingDiffers(SnapshotOf(olds), TreeOf(es));
    EmptyListing(MsgPaths(s.msgs));
    EmptyListing(Select(s.olds, [], false));
    EmptyListing(Select(s.news, [], true));
  }

  lemma EmptyListing(ps: seq<Path>)
    ensures Elems(ps) == {} ==> ps == []
  {
    if ps != [] { assert ps[0] in Elems(ps); }
  }

  // ---------------------------------------------------------------------------------------------
  // The server's log file is passed over

  lemma {:induction false} KeptLook(es: seq<Dirent>, p: Path)
    ensures Look(Kept(es, true), p) ==
            if "log.txt" in p || Look(es, p).None? then None else Some(KeptEntry(Look(es, p).value, true))
    decreases |p|, |es|
  {
    if es != [] && p != [] {
      KeptLook(es[1..], p);
      assert p == [p[0]] + p[1..];
      if |p| > 1 && es[0].DFolder? { KeptLook(es[0].entries, p[1..]); }
    }
  }

  lemma {:induction false} KeptUniq(es: seq<Dirent>, skipLog: bool)
    requires UniqEntries(es)
    ensures UniqEntries(Kept(es, skipLog)) && EntryNames(Kept(es, skipLog)) <= EntryNames(es)
    decreases es
  {
    if es != [] {
      KeptUniq(es[1..], skipLog);
      if es[0].DFolder? { KeptUniq(es[0].entries, skipLog); }
      EntryNamesCons(es);
      if !(skipLog && es[0].name == "log.txt") { EntryNamesCons(Kept(es, skipLog)); }
    }
  }

  /** Nothing is passed over when the log file is not. */
  lemma {:induction false} KeptAll(es: seq<Dirent>)
    ensures Kept(es, false) == es
    decreases es
  {
    if es != [] {
      KeptAll(es[1..]);
      if es[0].DFolder? { KeptAll(es[0].entries); }
      assert es == [es[0]] + es[1..];
    }
  }

  /** What is looked at is the directory without every path that has the log file's name in it, and nothing less. */
  lemma {:induction false} KeptTree(es: seq<Dirent>, p: Path)
    requires UniqEntries(es)
    ensures UniqEntries(Kept(es, true))
    ensures p in TreeOf(Kept(es, true)) <==> p in TreeOf(es) && "log.txt" !in p
    ensures p in TreeOf(Kept(es, true)) ==> TreeOf(Kept(es, true))[p] == TreeOf(es)[p]
  {
    KeptUniq(es, true);
    InTree(es, p);
    InTree(Kept(es, true), p);
    KeptLook(es, p);
  }

  /** The server's tree: for every raw listing, no node has the log file's name anywhere in its path. */
  lemma {:induction false} LogNotBuilt(es: seq<Dirent>, p: Path)
    ensures Get(Build(Kept(es, true)), p).Some? <==> Look(es, p).Some? && "log.txt" !in p
  {
    BuildMirrors(Kept(es, true), p);
    KeptLook(es, p);
  }
}
