/**
 * The check on nodes updated in place: one scan of the directory that flags what it finds in the remembered tree, a walk
 * over what was not found and a walk over what is new. What it sends and leaves behind is what `Diff` says of the values.
 * The server's copy of these functions differs from the client's in writing a log and in leaving out the log file.
 */
module MarkedDiff {
  import opened Text
  import opened FileSystem
  import opened Patch
  import opened Runtime
  import opened UpdateReader
  import opened CreateReader
  import opened Receiver
  import opened Diff
  import opened Journal
  import opened FileTree
  import opened Rounds

  /** Everything a check writes to: the socket and the log. */
  datatype Wire = Wire(ch: Channel, log: Log)

  /** updateNode and updateNodeServerServer: one folder or file command, and its line. */
  method UpdateNode(w: Wire, folder: bool, content: string, relativePath: string, path: Path)
    modifies w.ch, w.log
    ensures w.ch.data == old(w.ch.data) + if folder then FolderCommand(relativePath) else FileCommand(relativePath, content)
    ensures w.log.lines == old(w.log.lines) + if w.log.kept then [Line(Updated, path)] else []
  {
    hide FileBytes, Marker;
    ghost var before := w.ch.data;
    w.ch.Write(Marker(if folder then "SYNC_FOLDER" else "SYNC_FILE"));
    w.log.Write(Line(Updated, path));
    w.ch.Write(Marker(relativePath));
    if !folder {
      SendFile(w.ch, content);
    }
    w.ch.Write(Marker("SYNC_DONE"));
    CommandParts(before, Marker(if folder then "SYNC_FOLDER" else "SYNC_FILE"), Marker(relativePath), FileBytes(content),
                 Marker("SYNC_DONE"));
  }

  lemma CommandParts(before: string, a: string, b: string, c: string, d: string)
    ensures before + a + b + c + d == before + (a + b + c + d)
    ensures before + a + b + d == before + (a + b + d)
  {
  }

  // ---------------------------------------------------------------------------------------------
  // The scan

  ghost function Footprint(n: FileNode?): set<FileNode>
    reads n
  {
    if n == null then {} else n.Repr
  }

  ghost function Children(n: FileNode?): seq<Node>
    reads n
  {
    if n == null then [] else n.Val.children
  }

  lemma {:induction false} FindInUniq(f: seq<Node>, i: nat, n: Name)
    requires Uniq(f) && i < |f| && f[i].name == n
    ensures Find(f, n) == i
  {
    if i > 0 {
      assert f[1..][i - 1] == f[i];
      assert f[1..][i - 1].name in Names(f[1..]);
      FindInUniq(f[1..], i - 1, n);
    }
  }

  /** Flags the `i`-th child in place. */
  method Flag(oldRoot: FileNode, i: nat)
    requires oldRoot.Valid() && i < |oldRoot.children|
    modifies oldRoot, oldRoot.children[i]
    ensures oldRoot.Valid() && oldRoot.Repr == old(oldRoot.Repr) && oldRoot.children == old(oldRoot.children)
    ensures oldRoot.Val == old(oldRoot.Val).(
              children := old(oldRoot.Val).children[i := old(oldRoot.Val).children[i].(flag := true)])
  {
    oldRoot.children[i].SetFlag(true);
    oldRoot.Refit(i);
  }

  method SendIfDue(mtime: int, e: Dirent, relativePath2: string, rel: Path, w: Wire, ghost olds: seq<Node>,
                   ghost k: nat)
    requires k < |olds| && mtime == olds[k].mtime && relativePath2 == Render(rel + [e.name])
    modifies w.ch, w.log
    ensures Sent(old(w.ch.data), old(w.log.lines), w.ch.data, w.log.lines, w.log.kept, UpdateDue(olds, k, e, rel))
  {
    hide Sent, FileCommand;
    SentNothing(w.ch.data, w.log.lines, w.log.kept);
    if mtime != e.mtime {
      if e.DFile? {
        SentOne(w.ch.data, w.log.lines, w.log.kept, Update(rel + [e.name], e.content));
        UpdateNode(w, false, e.content, relativePath2, rel + [e.name]);
      }
    }
  }

  /** The body of the loop over the remembered children, for the child with the entry's name. */
  method Match(oldRoot: FileNode, i: nat, e: Dirent, relativePath2: string, rel: Path, w: Wire)
    requires oldRoot.Valid() && i < |oldRoot.children| && relativePath2 == Render(rel + [e.name])
    modifies oldRoot, oldRoot.children[i], w.ch, w.log
    ensures oldRoot.Valid() && oldRoot.Repr == old(oldRoot.Repr) && oldRoot.children == old(oldRoot.children)
    ensures oldRoot.Val == old(oldRoot.Val).(
              children := old(oldRoot.Val).children[i := old(oldRoot.Val).children[i].(flag := true)])
    ensures Sent(old(w.ch.data), old(w.log.lines), w.ch.data, w.log.lines, w.log.kept,
                 UpdateDue(old(oldRoot.Val).children, i, e, rel))
  {
    hide Sent, Render;
    ghost var olds := oldRoot.Val.children;
    Flag(oldRoot, i);
    SendIfDue(oldRoot.children[i].mtime, e, relativePath2, rel, w, olds, i);
  }

  /** Where the loop over the remembered children stands after the first `i`. */
  ghost predicate Searched(olds: seq<Node>, now: seq<Node>, i: nat, n: Name, k: int)
    requires i <= |olds|
  {
    && -1 <= k < i && (k >= 0 ==> k == Find(olds, n)) && (k < 0 ==> forall j :: 0 <= j < i ==> olds[j].name != n)
    && now == MarkedAt(olds, k, ChildrenAt(olds, k))
  }

  lemma SearchedNext(olds: seq<Node>, now: seq<Node>, i: nat, n: Name, k: int)
    requires Uniq(olds) && i < |olds| && Searched(olds, now, i, n, k)
    ensures |now| == |olds| && now[i].name == olds[i].name
    ensures olds[i].name != n ==> Searched(olds, now, i + 1, n, k)
    ensures olds[i].name == n ==> k < 0 && now == olds && Searched(olds, olds[i := olds[i].(flag := true)], i + 1, n, i)
  {
    if olds[i].name == n { FindInUniq(olds, i, n); }
  }

  lemma SearchedAll(olds: seq<Node>, now: seq<Node>, n: Name, k: int)
    requires Searched(olds, now, |olds|, n, k)
    ensures k == Find(olds, n) && now == MarkedAt(olds, k, ChildrenAt(olds, k))
  {
  }

  /** The loop over the remembered children: the one with the entry's name is flagged, and sent when it is due. */
  method MarkMatches(oldRoot: FileNode, e: Dirent, relativePath2: string, rel: Path, w: Wire) returns (k: int)
    requires oldRoot.Valid() && Uniq(oldRoot.Val.children) && relativePath2 == Render(rel + [e.name])
    modifies oldRoot.Repr, w.ch, w.log
    ensures oldRoot.Valid() && oldRoot.Repr == old(oldRoot.Repr) && oldRoot.children == old(oldRoot.children)
    ensures k == Find(old(oldRoot.Val).children, e.name) && k < |oldRoot.children|
    ensures oldRoot.Val == old(oldRoot.Val).(
              children := MarkedAt(old(oldRoot.Val).children, k, ChildrenAt(old(oldRoot.Val).children, k)))
    ensures Sent(old(w.ch.data), old(w.log.lines), w.ch.data, w.log.lines, w.log.kept,
                 UpdateDue(old(oldRoot.Val).children, k, e, rel))
  {
    hide Searched, Sent, Uniq, Render, UpdateDue;
    ghost var olds := oldRoot.Val.children;
    k := -1;
    SearchStarts(olds, e.name);
    SentNothing(w.ch.data, w.log.lines, w.log.kept);
    NotDue(olds, e, rel);
    var i := 0;
    while i < |oldRoot.children|
      invariant 0 <= i <= |oldRoot.children| && -1 <= k < i
      invariant oldRoot.Valid() && oldRoot.Repr == old(oldRoot.Repr) && oldRoot.children == old(oldRoot.children)
      invariant oldRoot.Val == old(oldRoot.Val).(children := oldRoot.Val.children)
      invariant Searched(olds, oldRoot.Val.children, i, e.name, k)
      invariant Sent(old(w.ch.data), old(w.log.lines), w.ch.data, w.log.lines, w.log.kept, UpdateDue(olds, k, e, rel))
    {
      SearchedNext(olds, oldRoot.Val.children, i, e.name, k);
      if oldRoot.children[i].name == e.name {
        ghost var d1, l1 := w.ch.data, w.log.lines;
        k := i;
        Match(oldRoot, i, e, relativePath2, rel, w);
        SentMore(old(w.ch.data), old(w.log.lines), d1, l1, w.ch.data, w.log.lines, w.log.kept, [], UpdateDue(olds, k, e, rel));
        assert [] + UpdateDue(olds, k, e, rel) == UpdateDue(olds, k, e, rel);
      }
      i := i + 1;
    }
    SearchedAll(olds, oldRoot.Val.children, e.name, k);
  }

  lemma NotDue(olds: seq<Node>, e: Dirent, rel: Path)
    ensures UpdateDue(olds, -1, e, rel) == []
  {
  }

  lemma SearchStarts(olds: seq<Node>, n: Name)
    ensures Searched(olds, olds, 0, n, -1)
  {
  }

  /** The entry's place among the remembered children, if there is a remembered folder at all. */
  method LookUp(oldRoot: FileNode?, e: Dirent, relativePath2: string, rel: Path, w: Wire) returns (k: int)
    requires oldRoot != null ==> oldRoot.Valid() && Uniq(oldRoot.Val.children)
    requires relativePath2 == Render(rel + [e.name])
    modifies Footprint(oldRoot), w.ch, w.log
    ensures Footprint(oldRoot) == old(Footprint(oldRoot))
    ensures var olds := old(Children(oldRoot));
            && k == Find(olds, e.name)
            && (oldRoot != null ==>
                  && k < |oldRoot.children| && oldRoot.Valid() && oldRoot.children == old(oldRoot.children)
                  && oldRoot.Val == old(oldRoot.Val).(children := MarkedAt(olds, k, ChildrenAt(olds, k))))
            && Sent(old(w.ch.data), old(w.log.lines), w.ch.data, w.log.lines, w.log.kept, UpdateDue(olds, k, e, rel))
  {
    hide Sent, Render;
    k := -1;
    SentNothing(w.ch.data, w.log.lines, w.log.kept);
    if oldRoot != null {
      k := MarkMatches(oldRoot, e, relativePath2, rel, w);
    }
  }

  /** An entry and what is looked at of it differ only in what a folder contains. */
  lemma KeptSame(e: Dirent, skipLog: bool)
    ensures var x := KeptEntry(e, skipLog);
            && x.name == e.name && x.DFolder? == e.DFolder? && x.mtime == e.mtime
            && (forall flag, children :: NodeOf(x, flag, children) == NodeOf(e, flag, children))
            && (forall olds: seq<Node>, k: int, rel ::
                  -1 <= k < |olds| ==> UpdateDue(olds, k, x, rel) == UpdateDue(olds, k, e, rel))
            && (e.DFolder? ==> x.entries == Kept(e.entries, skipLog))
  {
  }

  /** The recursion into a folder, against the remembered child it was matched with. */
  method ScanMatched(e: Dirent, skipLog: bool, relativePath2: string, rel: Path, childNode: FileNode, oldRoot: FileNode,
                     k: nat, w: Wire)
    requires childNode.Valid() && childNode.Val.children == [] && relativePath2 == Render(rel + [e.name]) && e.DFolder?
    requires k < |oldRoot.children| && oldRoot.Valid() && oldRoot.Repr !! childNode.Repr && Uniq(oldRoot.Val.children)
    modifies childNode, oldRoot.Repr, w.ch, w.log
    ensures childNode.Valid() && fresh(childNode.Repr - old(childNode.Repr))
    ensures oldRoot.Valid() && oldRoot.children == old(oldRoot.children) && oldRoot.Repr == old(oldRoot.Repr)
    ensures var olds := old(oldRoot.Val).children;
            var inner := Within(KeptEntry(e, skipLog), rel, olds[k].children);
            && childNode.Val == old(childNode.Val).(children := inner.news)
            && oldRoot.Val == old(oldRoot.Val).(children := olds[k := olds[k].(children := inner.olds)])
            && Sent(old(w.ch.data), old(w.log.lines), w.ch.data, w.log.lines, w.log.kept, inner.msgs)
    decreases e, 0
  {
    hide Sent, Scan, Render, Uniq, Kept;
    var node := oldRoot.children[k];
    assert node.Repr <= oldRoot.Repr && oldRoot !in node.Repr;
    UniqBelow(oldRoot.Val.children, k);
    BuildTreeForCheck(e.entries, skipLog, relativePath2, rel + [e.name], childNode, node, w);
    oldRoot.Refit(k);
  }

  /** The recursion into a folder, if the entry is one; a folder that was not matched is scanned against nothing. */
  method ScanFolder(e: Dirent, skipLog: bool, relativePath2: string, rel: Path, childNode: FileNode, oldRoot: FileNode?,
                    k: int, w: Wire)
    requires childNode.Valid() && childNode.Val.children == [] && relativePath2 == Render(rel + [e.name])
    requires -1 <= k && (oldRoot == null ==> k < 0)
    requires oldRoot != null ==>
               k < |oldRoot.children| && oldRoot.Valid() && oldRoot.Repr !! childNode.Repr && Uniq(oldRoot.Val.children)
    modifies childNode, Footprint(oldRoot), w.ch, w.log
    ensures childNode.Valid() && fresh(childNode.Repr - old(childNode.Repr))
    ensures Footprint(oldRoot) == old(Footprint(oldRoot))
    ensures oldRoot != null ==> oldRoot.Valid() && oldRoot.children == old(oldRoot.children)
    ensures var olds := old(Children(oldRoot));
            k < |olds| &&
            var inner := Within(KeptEntry(e, skipLog), rel, ChildrenAt(olds, k));
            && childNode.Val == old(childNode.Val).(children := inner.news)
            && (oldRoot != null ==>
                  oldRoot.Val == old(oldRoot.Val).(
                    children := if k < 0 then olds else olds[k := olds[k].(children := inner.olds)]))
            && Sent(old(w.ch.data), old(w.log.lines), w.ch.data, w.log.lines, w.log.kept, inner.msgs)
    decreases e, 1
  {
    hide Sent, Scan, Render, Uniq, Kept;
    SentNothing(w.ch.data, w.log.lines, w.log.kept);
    if e.DFolder? {
      if k < 0 {
        BuildTreeForCheck(e.entries, skipLog, relativePath2, rel + [e.name], childNode, null, w);
      } else {
        ScanMatched(e, skipLog, relativePath2, rel, childNode, oldRoot, k, w);
      }
    }
  }

  /** Flagging a child and then rescanning its contents is marking it. */
  lemma FlaggedThenScanned(olds: seq<Node>, k: int, children: seq<Node>)
    requires Uniq(olds) && -1 <= k < |olds|
    ensures var olds1 := MarkedAt(olds, k, ChildrenAt(olds, k));
            && Uniq(olds1) && |olds1| == |olds| && ChildrenAt(olds1, k) == ChildrenAt(olds, k)
            && (if k < 0 then olds1 else olds1[k := olds1[k].(children := children)]) == MarkedAt(olds, k, children)
  {
    if k >= 0 {
      UniqBelow(olds, k);
      UniqAt(olds, k, olds[k].(flag := true));
    }
  }

  /** What one entry contributes to the messages of the scan. */
  function EntryMsgs(e: Dirent, rel: Path, olds: seq<Node>): seq<Msg> {
    UpdateDue(olds, Find(olds, e.name), e, rel) + Inner([e], rel, olds).msgs
  }

  /** The node made for one entry, flagged when there is no remembered child of its name. */
  method MakeChild(e: Dirent, relativePath2: string, rel: Path, oldRoot: FileNode?, w: Wire)
      returns (childNode: FileNode, k: int)
    requires relativePath2 == Render(rel + [e.name])
    requires oldRoot != null ==> oldRoot.Valid() && Uniq(oldRoot.Val.children)
    modifies Footprint(oldRoot), w.ch, w.log
    ensures Footprint(oldRoot) == old(Footprint(oldRoot))
    ensures var olds := old(Children(oldRoot));
            && k == Find(olds, e.name)
            && childNode.Valid() && fresh(childNode.Repr) && childNode.Val == NodeOf(e, k < 0, [])
            && (oldRoot != null ==>
                  && k < |oldRoot.children| && oldRoot.Valid() && oldRoot.children == old(oldRoot.children)
                  && oldRoot.Val == old(oldRoot.Val).(children := MarkedAt(olds, k, ChildrenAt(olds, k)))
                  && Uniq(oldRoot.Val.children))
            && Sent(old(w.ch.data), old(w.log.lines), w.ch.data, w.log.lines, w.log.kept, UpdateDue(olds, k, e, rel))
  {
    hide Sent, Find, Render, Uniq, UpdateDue, ChildrenAt, MarkedAt;
    ghost var olds := Children(oldRoot);
    childNode := new FileNode(e.name, StatSize(e), e.mtime, e.DFolder?, false);
    k := LookUp(oldRoot, e, relativePath2, rel, w);
    if k < 0 {
      childNode.SetFlag(true);
    }
    if oldRoot != null { FlaggedThenScanned(olds, k, []); }
  }

  /** The node built for one entry: looked up among the remembered children, scanned if it is a folder. */
  method ScanChild(e: Dirent, skipLog: bool, relativePath: string, rel: Path, oldRoot: FileNode?,
                   w: Wire) returns (childNode: FileNode)
    requires relativePath == Render(rel)
    requires oldRoot != null ==> oldRoot.Valid() && Uniq(oldRoot.Val.children)
    modifies Footprint(oldRoot), w.ch, w.log
    ensures childNode.Valid() && fresh(childNode.Repr)
    ensures Footprint(oldRoot) == old(Footprint(oldRoot))
    ensures oldRoot != null ==> oldRoot.Valid() && oldRoot.children == old(oldRoot.children)
    ensures var olds, x := old(Children(oldRoot)), KeptEntry(e, skipLog);
            && childNode.Val == NodeOf(x, Find(olds, x.name) < 0, Inner([x], rel, olds).news)
            && (oldRoot != null ==> oldRoot.Val == old(oldRoot.Val).(children := Marked([x], rel, olds)))
            && Sent(old(w.ch.data), old(w.log.lines), w.ch.data, w.log.lines, w.log.kept, EntryMsgs(x, rel, olds))
    decreases e, 2
  {
    assert Uniq(Children(oldRoot));
    KeptSame(e, skipLog);
    hide Sent, Scan, Find, Render, Uniq, Within, UpdateDue, ChildrenAt, MarkedAt, KeptEntry, NodeOf;
    ghost var olds, x := Children(oldRoot), KeptEntry(e, skipLog);
    var relativePath2 := relativePath + "/" + e.name;
    RenderSnoc(rel, e.name);
    var k;
    childNode, k := MakeChild(e, relativePath2, rel, oldRoot, w);
    ghost var d1, l1 := w.ch.data, w.log.lines;
    FlaggedThenScanned(olds, k, Inner([x], rel, olds).olds);
    ScanFolder(e, skipLog, relativePath2, rel, childNode, oldRoot, k, w);
    SentMore(old(w.ch.data), old(w.log.lines), d1, l1, w.ch.data, w.log.lines, w.log.kept,
             UpdateDue(olds, k, x, rel), Inner([x], rel, olds).msgs);
  }

  /** One entry of the directory becomes one more child. */
  method ScanEntry(e: Dirent, skipLog: bool, relativePath: string, rel: Path, parentNode: FileNode, oldRoot: FileNode?,
                   w: Wire)
    requires parentNode.Valid() && relativePath == Render(rel)
    requires oldRoot != null ==> oldRoot.Valid() && oldRoot.Repr !! parentNode.Repr && Uniq(oldRoot.Val.children)
    modifies parentNode, Footprint(oldRoot), w.ch, w.log
    ensures parentNode.Valid() && fresh(parentNode.Repr - old(parentNode.Repr))
    ensures Footprint(oldRoot) == old(Footprint(oldRoot))
    ensures oldRoot != null ==> oldRoot.Valid() && oldRoot.children == old(oldRoot.children)
    ensures var olds, x := old(Children(oldRoot)), KeptEntry(e, skipLog);
            && parentNode.Val == old(parentNode.Val).(
                 children := old(parentNode.Val).children + [NodeOf(x, Find(olds, x.name) < 0, Inner([x], rel, olds).news)])
            && (oldRoot != null ==> oldRoot.Val == old(oldRoot.Val).(children := Marked([x], rel, olds)))
            && Sent(old(w.ch.data), old(w.log.lines), w.ch.data, w.log.lines, w.log.kept, EntryMsgs(x, rel, olds))
    decreases e, 3
  {
    hide Sent, Scan, Find, Render, Uniq, Within, Inner, Marked, EntryMsgs, KeptEntry;
    var childNode := ScanChild(e, skipLog, relativePath, rel, oldRoot, w);
    parentNode.AddChild(childNode);
  }

  /** `now` is what remains of the scan `all` once `news` has been built and `msgs` sent. */
  ghost predicate Continues(news: seq<Node>, msgs: seq<Msg>, now: ScanResult, all: ScanResult) {
    all == ScanResult(news + now.news, now.olds, msgs + now.msgs)
  }

  lemma FirstEntry(ks: seq<Dirent>, rel: Path, olds: seq<Node>, news: seq<Node>, msgs: seq<Msg>, all: ScanResult)
    requires ks != [] && Uniq(olds) && Continues(news, msgs, Scan(ks, rel, olds), all)
    ensures var x := ks[0];
            var n := NodeOf(x, Find(olds, x.name) < 0, Inner([x], rel, olds).news);
            && Continues(news + [n], msgs + EntryMsgs(x, rel, olds), Scan(ks[1..], rel, Marked([x], rel, olds)), all)
            && Uniq(Marked([x], rel, olds))
  {
    hide Scan, Within, Find, UpdateDue;
    ScanCons(ks, rel, olds);
    MarkedUniq([ks[0]], rel, olds);
  }

  lemma NextEntry(es: seq<Dirent>, i: nat, skipLog: bool, rel: Path, olds: seq<Node>, news: seq<Node>, msgs: seq<Msg>,
                  all: ScanResult)
    requires i < |es| && Uniq(olds) && !(skipLog && es[i].name == "log.txt")
    requires Continues(news, msgs, Scan(Kept(es[i..], skipLog), rel, olds), all)
    ensures var x := KeptEntry(es[i], skipLog);
            var n := NodeOf(x, Find(olds, x.name) < 0, Inner([x], rel, olds).news);
            && Continues(news + [n], msgs + EntryMsgs(x, rel, olds),
                         Scan(Kept(es[i + 1..], skipLog), rel, Marked([x], rel, olds)), all)
            && Uniq(Marked([x], rel, olds))
  {
    KeptNext(es, i, skipLog);
    hide Scan, Inner, Marked, Find, NodeOf, EntryMsgs, Uniq, Continues, Kept, KeptEntry;
    FirstEntry(Kept(es[i..], skipLog), rel, olds, news, msgs, all);
    assert ([KeptEntry(es[i], skipLog)] + Kept(es[i + 1..], skipLog))[1..] == Kept(es[i + 1..], skipLog);
  }

  /** What is looked at from the `i`-th entry on. */
  lemma KeptNext(es: seq<Dirent>, i: nat, skipLog: bool)
    requires i < |es|
    ensures Kept(es[i..], skipLog) ==
            (if skipLog && es[i].name == "log.txt" then [] else [KeptEntry(es[i], skipLog)]) + Kept(es[i + 1..], skipLog)
  {
    hide KeptEntry;
    assert es[i..][1..] == es[i + 1..];
    Units(Kept(es[i + 1..], skipLog));
  }

  lemma ScanStarts(es: seq<Dirent>, skipLog: bool, rel: Path, olds: seq<Node>)
    ensures Continues([], [], Scan(Kept(es[0..], skipLog), rel, olds), Scan(Kept(es, skipLog), rel, olds))
  {
    hide Scan, Kept;
    assert es[0..] == es;
  }

  lemma ScanEnds(es: seq<Dirent>, i: nat, skipLog: bool, rel: Path, olds: seq<Node>, news: seq<Node>, msgs: seq<Msg>,
                 all: ScanResult)
    requires i == |es| && Continues(news, msgs, Scan(Kept(es[i..], skipLog), rel, olds), all)
    ensures all == ScanResult(news, olds, msgs)
  {
    assert news + [] == news && msgs + [] == msgs;
  }

  lemma NothingMarked(e: Dirent, rel: Path)
    ensures Marked([e], rel, []) == []
  {
  }

  /** The parent, `start` at first, once `news` has been added to it. */
  ghost predicate Built(start: Node, now: Node, news: seq<Node>) {
    now == start.(children := start.children + news)
  }

  lemma BuiltNext(start: Node, now: Node, news: seq<Node>, n: Node)
    requires Built(start, now, news)
    ensures Built(start, now.(children := now.children + [n]), news + [n])
  {
    assert start.children + news + [n] == start.children + (news + [n]);
  }

  lemma BuiltStart(start: Node)
    ensures Built(start, start, [])
  {
    assert start.children + [] == start.children;
  }

  /** One round of the loop over the directory. */
  method ScanNext(es: seq<Dirent>, i: nat, skipLog: bool, relativePath: string, rel: Path, parentNode: FileNode,
                  oldRoot: FileNode?, w: Wire,
                  ghost start: Node, ghost d0: string, ghost l0: seq<Line>,
                  ghost news: seq<Node>, ghost msgs: seq<Msg>, ghost all: ScanResult)
      returns (ghost news': seq<Node>, ghost msgs': seq<Msg>)
    requires i < |es| && parentNode.Valid() && relativePath == Render(rel) && Uniq(Children(oldRoot))
    requires !(skipLog && es[i].name == "log.txt")
    requires Footprint(oldRoot) !! parentNode.Repr && (oldRoot != null ==> oldRoot.Valid())
    requires Continues(news, msgs, Scan(Kept(es[i..], skipLog), rel, Children(oldRoot)), all)
    requires Built(start, parentNode.Val, news)
    requires Sent(d0, l0, w.ch.data, w.log.lines, w.log.kept, msgs)
    modifies parentNode, Footprint(oldRoot), w.ch, w.log
    ensures parentNode.Valid() && fresh(parentNode.Repr - old(parentNode.Repr)) && Uniq(Children(oldRoot))
    ensures Footprint(oldRoot) == old(Footprint(oldRoot)) && Footprint(oldRoot) !! parentNode.Repr
    ensures oldRoot != null ==>
              && oldRoot.Valid() && oldRoot.children == old(oldRoot.children)
              && oldRoot.Val == old(oldRoot.Val).(children := oldRoot.Val.children)
    ensures Continues(news', msgs', Scan(Kept(es[i + 1..], skipLog), rel, Children(oldRoot)), all)
    ensures Built(start, parentNode.Val, news')
    ensures Sent(d0, l0, w.ch.data, w.log.lines, w.log.kept, msgs')
    decreases es[i], 4
  {
    hide Uniq, Inner, Marked, Find, Render, Scan, Continues, Sent, EntryMsgs, Built, Kept, KeptEntry;
    ghost var x, olds, d1, l1 := KeptEntry(es[i], skipLog), Children(oldRoot), w.ch.data, w.log.lines;
    ghost var n := NodeOf(x, Find(olds, x.name) < 0, Inner([x], rel, olds).news);
    NextEntry(es, i, skipLog, rel, olds, news, msgs, all);
    BuiltNext(start, parentNode.Val, news, n);
    news', msgs' := news + [n], msgs + EntryMsgs(x, rel, olds);
    ScanEntry(es[i], skipLog, relativePath, rel, parentNode, oldRoot, w);
    if oldRoot == null { NothingMarked(x, rel); }
    SentMore(d0, l0, d1, l1, w.ch.data, w.log.lines, w.log.kept, msgs, EntryMsgs(x, rel, olds));
  }

  /** The loop over the directory, which passes over the log file on the server. */
  method ScanAll(es: seq<Dirent>, skipLog: bool, relativePath: string, rel: Path, parentNode: FileNode,
                 oldRoot: FileNode?, w: Wire,
                 ghost start: Node, ghost d0: string, ghost l0: seq<Line>, ghost all: ScanResult)
      returns (ghost news: seq<Node>, ghost msgs: seq<Msg>)
    requires parentNode.Valid() && relativePath == Render(rel) && Uniq(Children(oldRoot))
    requires Footprint(oldRoot) !! parentNode.Repr && (oldRoot != null ==> oldRoot.Valid())
    requires Continues([], [], Scan(Kept(es[0..], skipLog), rel, Children(oldRoot)), all)
    requires Built(start, parentNode.Val, []) && Sent(d0, l0, w.ch.data, w.log.lines, w.log.kept, [])
    modifies parentNode, Footprint(oldRoot), w.ch, w.log
    ensures parentNode.Valid() && fresh(parentNode.Repr - old(parentNode.Repr))
    ensures Footprint(oldRoot) == old(Footprint(oldRoot))
    ensures oldRoot != null ==>
              && oldRoot.Valid() && oldRoot.children == old(oldRoot.children)
              && oldRoot.Val == old(oldRoot.Val).(children := oldRoot.Val.children)
    ensures Continues(news, msgs, Scan(Kept(es[|es|..], skipLog), rel, Children(oldRoot)), all)
    ensures Built(start, parentNode.Val, news) && Sent(d0, l0, w.ch.data, w.log.lines, w.log.kept, msgs)
    decreases es, 0
  {
    hide Uniq, Render, Sent, Scan, Continues, Built, Kept, KeptEntry;
    news, msgs := [], [];
    var i := 0;
    while i < |es|
      invariant 0 <= i <= |es|
      invariant parentNode.Valid() && fresh(parentNode.Repr - old(parentNode.Repr))
      invariant Footprint(oldRoot) == old(Footprint(oldRoot)) && Footprint(oldRoot) !! parentNode.Repr
      invariant Uniq(Children(oldRoot))
      invariant oldRoot != null ==>
                  && oldRoot.Valid() && oldRoot.children == old(oldRoot.children)
                  && oldRoot.Val == old(oldRoot.Val).(children := oldRoot.Val.children)
      invariant Continues(news, msgs, Scan(Kept(es[i..], skipLog), rel, Children(oldRoot)), all)
      invariant Built(start, parentNode.Val, news) && Sent(d0, l0, w.ch.data, w.log.lines, w.log.kept, msgs)
      decreases |es| - i
    {
      if skipLog && es[i].name == "log.txt" {
        KeptNext(es, i, skipLog);
        Units(Kept(es[i + 1..], skipLog));
        i := i + 1;
        continue;
      }
      news, msgs := ScanNext(es, i, skipLog, relativePath, rel, parentNode, oldRoot, w, start, d0, l0, news, msgs, all);
      i := i + 1;
    }
  }

  /** buildTreeForCheckAndSendUpdates, and with `skipLog` its server twin */
  method BuildTreeForCheck(es: seq<Dirent>, skipLog: bool, relativePath: string, rel: Path, parentNode: FileNode,
                           oldRoot: FileNode?, w: Wire)
    requires parentNode.Valid() && relativePath == Render(rel)
    requires oldRoot != null ==> oldRoot.Valid() && oldRoot.Repr !! parentNode.Repr && Uniq(oldRoot.Val.children)
    modifies parentNode, Footprint(oldRoot), w.ch, w.log
    ensures parentNode.Valid() && fresh(parentNode.Repr - old(parentNode.Repr))
    ensures Footprint(oldRoot) == old(Footprint(oldRoot))
    ensures oldRoot != null ==> oldRoot.Valid() && oldRoot.children == old(oldRoot.children)
    ensures var s := Scan(Kept(es, skipLog), rel, old(Children(oldRoot)));
            && parentNode.Val == old(parentNode.Val).(children := old(parentNode.Val).children + s.news)
            && (oldRoot != null ==> oldRoot.Val == old(oldRoot.Val).(children := s.olds))
            && Sent(old(w.ch.data), old(w.log.lines), w.ch.data, w.log.lines, w.log.kept, s.msgs)
    decreases es
  {
    assert Uniq(Children(oldRoot));
    hide Uniq, Render, Sent, Scan, Continues, Built;
    ScanStarts(es, skipLog, rel, Children(oldRoot));
    SentNothing(w.ch.data, w.log.lines, w.log.kept);
    BuiltStart(parentNode.Val);
    ghost var start, all := parentNode.Val, Scan(Kept(es, skipLog), rel, Children(oldRoot));
    ghost var news, msgs :=
      ScanAll(es, skipLog, relativePath, rel, parentNode, oldRoot, w, start, w.ch.data, w.log.lines, all);
    ScanEnds(es, |es|, skipLog, rel, Children(oldRoot), news, msgs, all);
    BuiltAll(start, parentNode.Val, news);
  }

  lemma BuiltAll(start: Node, now: Node, news: seq<Node>)
    requires Built(start, now, news)
    ensures now == start.(children := start.children + news)
  {
  }

  // ---------------------------------------------------------------------------------------------
  // The delete walk

  lemma SelectCons(f: seq<Node>, rel: Path, want: bool)
    requires f != []
    ensures var p := rel + [f[0].name];
            Select(f, rel, want) ==
            ((if f[0].flag == want then [p] else []) + Select(f[0].children, p, want)) + Select(f[1..], rel, want)
  {
  }

  lemma {:induction false} SelectConcat(f: seq<Node>, g: seq<Node>, rel: Path, want: bool)
    ensures Select(f + g, rel, want) == Select(f, rel, want) + Select(g, rel, want)
    decreases |f|
  {
    if f == [] {
      assert f + g == g;
    } else {
      var p := rel + [f[0].name];
      SelectCons(f + g, rel, want);
      SelectCons(f, rel, want);
      hide Select;
      assert (f + g)[0] == f[0] && (f + g)[1..] == f[1..] + g;
      SelectConcat(f[1..], g, rel, want);
      Assoc((if f[0].flag == want then [p] else []) + Select(f[0].children, p, want),
            Select(f[1..], rel, want), Select(g, rel, want));
    }
  }

  lemma SelectNode(n: Node, rel: Path, want: bool)
    ensures Select([n], rel, want) ==
            (if n.flag == want then [rel + [n.name]] else []) + Select(n.children, rel + [n.name], want)
  {
    assert Select([n][1..], rel, want) == [];
  }

  /** What the delete walk sends for a forest below `rel`. */
  function DeletesIn(f: seq<Node>, rel: Path): seq<Msg> {
    DeleteMsgs(Select(f, rel, false))
  }

  /** What it sends for one node, `rel` being the node's own path. */
  function NodeDeletes(n: Node, rel: Path): seq<Msg> {
    (if n.flag then [] else [Delete(rel)]) + DeletesIn(n.children, rel)
  }

  lemma DeletesNext(f: seq<Node>, i: nat, rel: Path)
    requires i < |f|
    ensures DeletesIn(f[..i + 1], rel) == DeletesIn(f[..i], rel) + NodeDeletes(f[i], rel + [f[i].name])
  {
    hide Select;
    var n, p := f[i], rel + [f[i].name];
    assert f[..i + 1] == f[..i] + [n];
    SelectConcat(f[..i], [n], rel, false);
    SelectNode(n, rel, false);
    assert DeleteMsgs(Select(f[..i + 1], rel, false)) ==
           DeleteMsgs(Select(f[..i], rel, false))
           + ((if n.flag then [] else [Delete(p)]) + DeleteMsgs(Select(n.children, p, false)));
  }

  /** sendFileNameForSync and sendFileNameForSyncDelete */
  method SendFileNameForSync(w: Wire, relativePath: string, path: Path)
    requires relativePath == Render(path)
    modifies w.ch, w.log
    ensures Sent(old(w.ch.data), old(w.log.lines), w.ch.data, w.log.lines, w.log.kept, [Delete(path)])
  {
    SentOne(w.ch.data, w.log.lines, w.log.kept, Delete(path));
    w.ch.Write(Marker(relativePath));
    w.log.Write(Line(Deleted, path));
  }

  /** sendDeletedFilesAndFree and its server twin */
  method SendDeletedFilesAndFree(root: FileNode, relativePath: string, rel: Path, w: Wire)
    requires root.Valid() && relativePath == Render(rel)
    modifies w.ch, w.log
    ensures Sent(old(w.ch.data), old(w.log.lines), w.ch.data, w.log.lines, w.log.kept, NodeDeletes(root.Val, rel))
    decreases root.Val
  {
    hide Render, DeletesIn, Sent, NodeDeletes;
    ghost var f, d0, l0 := root.Val.children, w.ch.data, w.log.lines;
    ghost var sent := if root.flag then [] else [Delete(rel)];
    SentNothing(d0, l0, w.log.kept);
    if !root.flag {
      SendFileNameForSync(w, relativePath, rel);
    }
    NothingDeleted(root.Val, rel);
    var i := 0;
    while i < |root.children|
      invariant 0 <= i <= |root.children|
      invariant Sent(d0, l0, w.ch.data, w.log.lines, w.log.kept, sent + DeletesIn(f[..i], rel))
    {
      ghost var d1, l1 := w.ch.data, w.log.lines;
      var child := root.children[i];
      RenderSnoc(rel, child.name);
      SendDeletedFilesAndFree(child, relativePath + "/" + child.name, rel + [child.name], w);
      DeletesNext(f, i, rel);
      SentMore(d0, l0, d1, l1, w.ch.data, w.log.lines, w.log.kept, sent + DeletesIn(f[..i], rel),
               NodeDeletes(f[i], rel + [child.name]));
      Assoc(sent, DeletesIn(f[..i], rel), NodeDeletes(f[i], rel + [child.name]));
      i := i + 1;
    }
    assert f[..i] == f;
  }

  lemma NothingDeleted(n: Node, rel: Path)
    ensures (if n.flag then [] else [Delete(rel)]) + DeletesIn(n.children[..0], rel) ==
            if n.flag then [] else [Delete(rel)]
    ensures NodeDeletes(n, rel) == (if n.flag then [] else [Delete(rel)]) + DeletesIn(n.children, rel)
  {
    assert n.children[..0] == [];
  }

  // ---------------------------------------------------------------------------------------------
  // The create walk

  /** What the create walk sends for a forest below `rel`, given what is on disk. */
  function CreatesIn(es: seq<Dirent>, f: seq<Node>, rel: Path): seq<Msg> {
    CreatesOf(es, Select(f, rel, true))
  }

  /** What it sends for one node, `rel` being the node's own path. */
  function NodeCreates(es: seq<Dirent>, n: Node, rel: Path): seq<Msg> {
    (if n.flag then [CreateAt(es, rel)] else []) + CreatesIn(es, n.children, rel)
  }

  lemma CreatesNext(es: seq<Dirent>, f: seq<Node>, i: nat, rel: Path)
    requires i < |f|
    ensures CreatesIn(es, f[..i + 1], rel) == CreatesIn(es, f[..i], rel) + NodeCreates(es, f[i], rel + [f[i].name])
  {
    hide Select, CreateAt;
    var n, p := f[i], rel + [f[i].name];
    assert f[..i + 1] == f[..i] + [n];
    SelectConcat(f[..i], [n], rel, true);
    SelectNode(n, rel, true);
    assert CreatesOf(es, Select(f[..i + 1], rel, true)) ==
           CreatesOf(es, Select(f[..i], rel, true))
           + ((if n.flag then [CreateAt(es, p)] else []) + CreatesOf(es, Select(n.children, p, true)));
  }

  /** Every node of the forest is on disk, with the same kind and size. */
  predicate OnDisk(es: seq<Dirent>, f: seq<Node>, rel: Path) {
    f == [] ||
    (var p := rel + [f[0].name];
     Look(es, p).Some? && Shows(Look(es, p).value, f[0]) && OnDisk(es, f[0].children, p) && OnDisk(es, f[1..], rel))
  }

  /** The node has the entry's kind and the size stat gives: for a file, the length of its content. */
  predicate Shows(d: Dirent, n: Node) {
    d.DFolder? == n.folder && n.size == if d.DFile? then |d.content| else d.size
  }

  lemma {:induction false} OnDiskAt(es: seq<Dirent>, f: seq<Node>, i: nat, rel: Path)
    requires i < |f| && OnDisk(es, f, rel)
    ensures var p := rel + [f[i].name];
            Look(es, p).Some? && Shows(Look(es, p).value, f[i]) && OnDisk(es, f[i].children, p)
    decreases i
  {
    if i > 0 { OnDiskAt(es, f[1..], i - 1, rel); }
  }

  /** The new tree is on disk: it was scanned from there. */
  lemma ScannedOnDisk(es: seq<Dirent>, olds: seq<Node>)
    requires UniqEntries(es)
    ensures OnDisk(es, Scan(es, [], olds).news, [])
  {
    var news := Scan(es, [], olds).news;
    ScanNewsUniq(es, [], olds);
    forall p | Get(news, p).Some?
      ensures Look(es, [] + p).Some? && Shows(Look(es, [] + p).value, Get(news, p).value)
    {
      ScanMirrors(es, [], olds, p);
      assert [] + p == p;
    }
    OnDiskFrom(es, news, []);
  }

  lemma {:induction false} OnDiskFrom(es: seq<Dirent>, f: seq<Node>, rel: Path)
    requires Uniq(f)
    requires forall p :: Get(f, p).Some? ==>
               Look(es, rel + p).Some? && Shows(Look(es, rel + p).value, Get(f, p).value)
    ensures OnDisk(es, f, rel)
    decreases f
  {
    hide Look;
    if f != [] {
      var n := f[0];
      assert Get(f, [n.name]) == Some(n);
      forall p | Get(n.children, p).Some?
        ensures Look(es, rel + [n.name] + p).Some?
        ensures Shows(Look(es, rel + [n.name] + p).value, Get(n.children, p).value)
      {
        assert Get(f, [n.name] + p) == Get(n.children, p) by { assert ([n.name] + p)[1..] == p; }
        assert rel + [n.name] + p == rel + ([n.name] + p);
      }
      OnDiskFrom(es, n.children, rel + [n.name]);
      forall p | Get(f[1..], p).Some? ensures Get(f, p) == Get(f[1..], p) {
        GetName(f[1..], p);
      }
      OnDiskFrom(es, f[1..], rel);
    }
  }

  lemma {:induction false} ClearedAt(f: seq<Node>, i: nat)
    ensures |Cleared(f)| == |f|
    ensures i < |f| ==> Cleared(f)[i] == f[i].(flag := false, children := Cleared(f[i].children))
    decreases |f|
  {
    if f != [] { ClearedAt(f[1..], if i == 0 then 0 else i - 1); }
  }

  /** A forest whose first `i` trees have been visited. */
  function PartCleared(f: seq<Node>, i: nat): (r: seq<Node>)
    requires i <= |f|
    ensures |r| == |f|
  {
    ClearedAt(f[..i], 0);
    Cleared(f[..i]) + f[i..]
  }

  lemma PartClearedNext(f: seq<Node>, i: nat)
    requires i < |f|
    ensures PartCleared(f, i)[i] == f[i]
    ensures PartCleared(f, i)[i := f[i].(flag := false, children := Cleared(f[i].children))] == PartCleared(f, i + 1)
  {
    hide Cleared;
    var g := PartCleared(f, i)[i := f[i].(flag := false, children := Cleared(f[i].children))];
    ClearedAt(f[..i], 0);
    forall j | 0 <= j < |f| ensures g[j] == PartCleared(f, i + 1)[j] {
      ClearedAt(f[..i], j);
      ClearedAt(f[..i + 1], j);
    }
  }

  lemma PartClearedAll(f: seq<Node>)
    ensures PartCleared(f, 0) == f && PartCleared(f, |f|) == Cleared(f)
  {
    assert f[..0] == [] && f[..|f|] == f;
    assert Cleared(f) + f[|f|..] == Cleared(f);
  }

  /** The file at a path, as the walk opens it. */
  function ContentOf(es: seq<Dirent>, p: Path): string {
    var e := EntryAt(es, p);
    if e.File? then e.content else ""
  }

  /** One node's command, if it is new; its flag goes down. */
  method SendIfNew(es: seq<Dirent>, root: FileNode, relativePath: string, rel: Path, w: Wire)
    requires root.Valid() && relativePath == Render(rel)
    requires root.flag ==> Look(es, rel).Some? && Look(es, rel).value.DFolder? == root.folder
    modifies root, w.ch, w.log
    ensures root.Valid() && root.Repr == old(root.Repr) && root.children == old(root.children)
    ensures root.Val == old(root.Val).(flag := false)
    ensures Sent(old(w.ch.data), old(w.log.lines), w.ch.data, w.log.lines, w.log.kept,
                 if old(root.flag) then [CreateAt(es, rel)] else [])
  {
    hide Sent, Look, Render, FileCommand, FolderCommand;
    ghost var l0 := w.log.lines;
    SentNothing(w.ch.data, l0, w.log.kept);
    if root.flag {
      SentOne(w.ch.data, w.log.lines, w.log.kept, CreateAt(es, rel));
      w.log.Write(Line(Created, rel));
      UpdateNode(w, root.folder, ContentOf(es, rel), relativePath, rel);
      assert l0 + [Line(Created, rel)] + [Line(Updated, rel)] == l0 + [Line(Created, rel), Line(Updated, rel)];
      assert l0 + [] + [] == l0 + [];
      root.SetFlag(false);
    }
  }

  /** The recursion into one child. */
  method SendChild(es: seq<Dirent>, root: FileNode, i: nat, relativePath: string, rel: Path, w: Wire)
    requires root.Valid() && relativePath == Render(rel) && i < |root.children|
    requires var n, p := root.Val.children[i], rel + [root.Val.children[i].name];
             Look(es, p).Some? && Look(es, p).value.DFolder? == n.folder && OnDisk(es, n.children, p)
    modifies root.Repr, w.ch, w.log
    ensures root.Valid() && root.Repr == old(root.Repr) && root.children == old(root.children)
    ensures var n := old(root.Val).children[i];
            && root.Val == old(root.Val).(
                 children := old(root.Val).children[i := n.(flag := false, children := Cleared(n.children))])
            && Sent(old(w.ch.data), old(w.log.lines), w.ch.data, w.log.lines, w.log.kept,
                    NodeCreates(es, n, rel + [n.name]))
    decreases root.Val.children[i], 1
  {
    hide Render, Sent, OnDisk, Cleared, NodeCreates, Look;
    var child := root.children[i];
    RenderSnoc(rel, child.name);
    SendCreateFiles(es, child, relativePath + "/" + child.name, rel + [child.name], w);
    root.Refit(i);
  }

  /** sendCreateFiles and its server twin */
  method SendCreateFiles(es: seq<Dirent>, root: FileNode, relativePath: string, rel: Path, w: Wire)
    requires root.Valid() && relativePath == Render(rel) && OnDisk(es, root.Val.children, rel)
    requires root.flag ==> Look(es, rel).Some? && Look(es, rel).value.DFolder? == root.folder
    modifies root.Repr, w.ch, w.log
    ensures root.Valid() && root.Repr == old(root.Repr) && root.children == old(root.children)
    ensures root.Val == old(root.Val).(flag := false, children := Cleared(old(root.Val).children))
    ensures Sent(old(w.ch.data), old(w.log.lines), w.ch.data, w.log.lines, w.log.kept, NodeCreates(es, old(root.Val), rel))
    decreases root.Val, 0
  {
    hide Render, Sent, CreatesIn, OnDisk, Cleared, CreateAt, Look, PartCleared, NodeCreates;
    ghost var f, d0, l0 := root.Val.children, w.ch.data, w.log.lines;
    ghost var sent := if root.flag then [CreateAt(es, rel)] else [];
    NothingCreated(es, root.Val, rel);
    SendIfNew(es, root, relativePath, rel, w);
    PartClearedAll(f);
    var i := 0;
    while i < |root.children|
      invariant 0 <= i <= |root.children|
      invariant root.Valid() && root.Repr == old(root.Repr) && root.children == old(root.children)
      invariant root.Val == old(root.Val).(flag := false, children := PartCleared(f, i))
      invariant Sent(d0, l0, w.ch.data, w.log.lines, w.log.kept, sent + CreatesIn(es, f[..i], rel))
    {
      ghost var d1, l1, more := w.ch.data, w.log.lines, NodeCreates(es, f[i], rel + [f[i].name]);
      CreatesNext(es, f, i, rel);
      PartClearedNext(f, i);
      OnDiskAt(es, f, i, rel);
      SendChild(es, root, i, relativePath, rel, w);
      SentMore(d0, l0, d1, l1, w.ch.data, w.log.lines, w.log.kept, sent + CreatesIn(es, f[..i], rel), more);
      Assoc(sent, CreatesIn(es, f[..i], rel), more);
      i := i + 1;
    }
    assert f[..i] == f;
  }

  lemma NothingCreated(es: seq<Dirent>, n: Node, rel: Path)
    ensures (if n.flag then [CreateAt(es, rel)] else []) + CreatesIn(es, n.children[..0], rel) ==
            if n.flag then [CreateAt(es, rel)] else []
    ensures NodeCreates(es, n, rel) == (if n.flag then [CreateAt(es, rel)] else []) + CreatesIn(es, n.children, rel)
  {
    assert n.children[..0] == [] && CreatesOf(es, []) == [];
  }

  // ---------------------------------------------------------------------------------------------
  // The whole check

  lemma Bracketed(d0: string, l0: seq<Line>, d1: string, l1: seq<Line>, kept: bool, a: string, ms: seq<Msg>, b: string)
    requires Sent(d0 + a, l0, d1, l1, kept, ms)
    ensures d1 + b == d0 + (a + AllBytes(ms) + b) && l1 == l0 + if kept then AllLines(ms) else []
  {
    hide AllBytes, AllLines;
    var m := AllBytes(ms);
    assert d0 + a + m + b == d0 + (a + m + b);
  }

  /** sendDeletedFilesAndFreeWrapper and its server twin: the root itself counts as found. */
  method SendDeletedFilesAndFreeWrapper(root: FileNode, w: Wire)
    requires root.Valid()
    modifies root, w.ch, w.log
    ensures root.Valid() && root.Repr == old(root.Repr) && root.Val == old(root.Val).(flag := true)
    ensures var ms := DeletesIn(old(root.Val).children, []);
            && w.ch.data == old(w.ch.data) + (Marker("SYNC_DELETE") + AllBytes(ms) + Marker("SYNC_DELETE_DONE"))
            && w.log.lines == old(w.log.lines) + if w.log.kept then AllLines(ms) else []
  {
    hide Sent, Marker, AllBytes, AllLines, DeletesIn;
    ghost var d0, l0, ms := w.ch.data, w.log.lines, DeletesIn(root.Val.children, []);
    w.ch.Write(Marker("SYNC_DELETE"));
    root.SetFlag(true);
    assert [] + ms == ms;
    SendDeletedFilesAndFree(root, "", [], w);
    Bracketed(d0, l0, w.ch.data, w.log.lines, w.log.kept, Marker("SYNC_DELETE"), ms, Marker("SYNC_DELETE_DONE"));
    w.ch.Write(Marker("SYNC_DELETE_DONE"));
  }

  /** sendCreateFilesWrapper and its server twin */
  method SendCreateFilesWrapper(es: seq<Dirent>, root: FileNode, w: Wire)
    requires root.Valid() && !root.flag && OnDisk(es, root.Val.children, [])
    modifies root.Repr, w.ch, w.log
    ensures root.Valid() && root.Repr == old(root.Repr)
    ensures root.Val == old(root.Val).(children := Cleared(old(root.Val).children))
    ensures var ms := CreatesIn(es, old(root.Val).children, []);
            && w.ch.data == old(w.ch.data) + (Marker("SYNC_CREATE") + AllBytes(ms) + Marker("SYNC_CREATE_DONE"))
            && w.log.lines == old(w.log.lines) + if w.log.kept then AllLines(ms) else []
  {
    hide Sent, Marker, AllBytes, AllLines, CreatesIn, Cleared, OnDisk;
    ghost var d0, l0, ms := w.ch.data, w.log.lines, CreatesIn(es, root.Val.children, []);
    w.ch.Write(Marker("SYNC_CREATE"));
    assert [] + ms == ms;
    SendCreateFiles(es, root, "", [], w);
    Bracketed(d0, l0, w.ch.data, w.log.lines, w.log.kept, Marker("SYNC_CREATE"), ms, Marker("SYNC_CREATE_DONE"));
    w.ch.Write(Marker("SYNC_CREATE_DONE"));
  }

  /**
   * syncCheck, and with `skipLog` syncCheckServer: the check of a directory against the remembered tree `root`, on nodes
   * updated in place.
   * It sends exactly the bytes of the diff, logs the lines of exactly its messages, and returns the tree to remember; the
   * nodes of `root` are left marked.
   */
  method SyncCheck(es: seq<Dirent>, skipLog: bool, fileName: Name, root: FileNode, w: Wire) returns (newRoot: FileNode)
    requires UniqEntries(es) && root.Valid() && Uniq(root.Val.children)
    modifies root.Repr, w.ch, w.log
    ensures newRoot.Valid() && fresh(newRoot.Repr)
    ensures newRoot.Val == Node(fileName, true, 0, 0, false, Remembered(Kept(es, skipLog), old(root.Val).children))
    ensures w.ch.data == old(w.ch.data) + CheckBytes(Kept(es, skipLog), old(root.Val).children)
    ensures w.log.lines == old(w.log.lines) +
              if w.log.kept then AllLines(CheckMsgs(Kept(es, skipLog), old(root.Val).children)) else []
    ensures root.Valid() && root.Repr == old(root.Repr)
    ensures root.Val == old(root.Val).(flag := true, children := Scan(Kept(es, skipLog), [], old(root.Val).children).olds)
  {
    hide Sent, Scan, AllBytes, AllLines, Uniq, UniqEntries, Cleared, OnDisk, Marker, DeletesIn, CreatesIn, Kept;
    hide CheckBytes, CheckMsgs;
    ghost var d0, l0, olds, ks := w.ch.data, w.log.lines, root.Val.children, Kept(es, skipLog);
    KeptOnDisk(es, skipLog, olds);
    newRoot := new FileNode(fileName, 0, 0, true, false);
    BuildTreeForCheck(es, skipLog, "", [], newRoot, root, w);
    assert newRoot.Val.children == Scan(ks, [], olds).news;
    SentUnfolds(d0, l0, w.ch.data, w.log.lines, w.log.kept, Scan(ks, [], olds).msgs);
    w.ch.Write(Marker("SYNC_UPDATE_DONE"));
    SendDeletedFilesAndFreeWrapper(root, w);
    SendCreateFilesWrapper(es, newRoot, w);
    PhaseBytes(d0, ks, olds);
    PhaseLines(l0, ks, olds);
  }

  /** What the scan kept is on the disk as it is, and reads the same there. */
  lemma KeptOnDisk(es: seq<Dirent>, skipLog: bool, olds: seq<Node>)
    requires UniqEntries(es)
    ensures var f := Scan(Kept(es, skipLog), [], olds).news;
            OnDisk(es, f, []) && CreatesIn(es, f, []) == CreatesIn(Kept(es, skipLog), f, [])
  {
    var ks := Kept(es, skipLog);
    var f := Scan(ks, [], olds).news;
    KeptUniq(es, skipLog);
    ScannedOnDisk(ks, olds);
    hide Scan, Kept;
    if skipLog {
      OnRawDisk(es, f, []);
      ReadsTheSame(es, f, []);
    } else {
      KeptAll(es);
    }
  }

  lemma {:induction false} OnRawDisk(es: seq<Dirent>, f: seq<Node>, rel: Path)
    requires OnDisk(Kept(es, true), f, rel)
    ensures OnDisk(es, f, rel)
    decreases f
  {
    hide Look, Kept;
    if f != [] {
      KeptLook(es, rel + [f[0].name]);
      OnRawDisk(es, f[0].children, rel + [f[0].name]);
      OnRawDisk(es, f[1..], rel);
    }
  }

  lemma {:induction false} ReadsTheSame(es: seq<Dirent>, f: seq<Node>, rel: Path)
    requires OnDisk(Kept(es, true), f, rel)
    ensures CreatesIn(es, f, rel) == CreatesIn(Kept(es, true), f, rel)
    decreases f
  {
    hide Look, Kept;
    if f != [] {
      var p := rel + [f[0].name];
      KeptLook(es, p);
      ReadsTheSame(es, f[0].children, p);
      ReadsTheSame(es, f[1..], rel);
      CreatesCons(es, f, rel);
      CreatesCons(Kept(es, true), f, rel);
    }
  }

  lemma CreatesCons(es: seq<Dirent>, f: seq<Node>, rel: Path)
    requires f != []
    ensures CreatesIn(es, f, rel) == NodeCreates(es, f[0], rel + [f[0].name]) + CreatesIn(es, f[1..], rel)
  {
    hide CreateAt;
    SelectCons(f, rel, true);
  }

  lemma SentUnfolds(d0: string, l0: seq<Line>, d1: string, l1: seq<Line>, kept: bool, ms: seq<Msg>)
    requires Sent(d0, l0, d1, l1, kept, ms)
    ensures d1 == d0 + AllBytes(ms) && l1 == l0 + if kept then AllLines(ms) else []
  {
  }

  lemma PhaseBytes(d0: string, es: seq<Dirent>, olds: seq<Node>)
    ensures var s := Scan(es, [], olds);
            d0 + AllBytes(s.msgs) + Marker("SYNC_UPDATE_DONE")
            + (Marker("SYNC_DELETE") + AllBytes(DeletesIn(s.olds, [])) + Marker("SYNC_DELETE_DONE"))
            + (Marker("SYNC_CREATE") + AllBytes(CreatesIn(es, s.news, [])) + Marker("SYNC_CREATE_DONE")) ==
            d0 + CheckBytes(es, olds)
  {
    hide AllBytes, Scan, Marker, DeleteMsgs, CreatesOf, Select;
    var s := Scan(es, [], olds);
    var d, c := AllBytes(DeletesIn(s.olds, [])), AllBytes(CreatesIn(es, s.news, []));
    var m := AllBytes(s.msgs) + Marker("SYNC_UPDATE_DONE");
    var m1, m2, m3, m4 :=
      Marker("SYNC_DELETE"), Marker("SYNC_DELETE_DONE"), Marker("SYNC_CREATE"), Marker("SYNC_CREATE_DONE");
    Assoc(d0, AllBytes(s.msgs), Marker("SYNC_UPDATE_DONE"));
    Assoc(d0, m, m1 + d + m2);
    Assoc(d0, m + (m1 + d + m2), m3 + c + m4);
    Flatten(m, m1, d, m2);
    Flatten(m + m1 + d + m2, m3, c, m4);
  }

  lemma Flatten(a: string, b: string, c: string, d: string)
    ensures a + (b + c + d) == a + b + c + d
  {
  }

  lemma PhaseLines(l0: seq<Line>, es: seq<Dirent>, olds: seq<Node>)
    ensures var s := Scan(es, [], olds);
            l0 + AllLines(s.msgs) + AllLines(DeletesIn(s.olds, [])) + AllLines(CreatesIn(es, s.news, [])) ==
            l0 + AllLines(CheckMsgs(es, olds))
  {
    hide AllLines, Scan, DeleteMsgs, CreatesOf, Select;
    var s := Scan(es, [], olds);
    var u, d, c := s.msgs, DeletesIn(s.olds, []), CreatesIn(es, s.news, []);
    AllLinesConcat(u, d);
    AllLinesConcat(u + d, c);
    assert l0 + AllLines(u) + AllLines(d) + AllLines(c) == l0 + (AllLines(u) + AllLines(d) + AllLines(c));
  }

  /**
   * The logged diff refines the plain one: the DELETED lines of a check are its deletes, the CREATED lines its creates, and
   * the UPDATED lines its updates followed by its creates, each in the order sent.
   */
  lemma {:induction false} CheckLog(es: seq<Dirent>, olds: seq<Node>)
    requires UniqEntries(es)
    ensures var s, log := Scan(es, [], olds), AllLines(CheckMsgs(es, olds));
            var dels, news := Select(s.olds, [], false), Select(s.news, [], true);
            && Logged(log, Deleted) == dels
            && Logged(log, Created) == news
            && Logged(log, Updated) == Paths(s.msgs) + news
  {
    hide Scan, AllLines, Select, Logged;
    var s := Scan(es, [], olds);
    var d, c := DeletesIn(s.olds, []), CreatesIn(es, s.news, []);
    ScanSendsOnlyDue(es, [], olds);
    DiffLog(s.msgs, d, c);
    PathsAt(d, Select(s.olds, [], false));
    PathsAt(c, Select(s.news, [], true));
  }

  lemma {:induction false} PathsAt(ms: seq<Msg>, ps: seq<Path>)
    requires |ms| == |ps| && forall i :: 0 <= i < |ms| ==> ms[i].path == ps[i]
    ensures Paths(ms) == ps
    decreases |ms|
  {
    if ms != [] { PathsAt(ms[1..], ps[1..]); }
  }
}
