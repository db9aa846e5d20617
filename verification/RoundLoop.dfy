/** The two programs' round loops, run against each other: what they do to the disks and trees is `Rounds.Round`. */
module RoundLoop {
  import opened Text
  import opened FileSystem
  import opened Runtime
  import opened Receiver
  import opened Replica
  import opened Diff
  import opened Journal
  import opened FileTree
  import opened MarkedDiff
  import opened Rounds

  predicate GoodRoot(n: Node) {
    FilesAreLeaves(n) && Uniq(n.children)
  }

  lemma {:induction false} BuiltLeaves(es: seq<Dirent>)
    ensures forall i :: 0 <= i < |Build(es)| ==> FilesAreLeaves(Build(es)[i])
    decreases es
  {
    if es != [] {
      BuiltLeaves(es[1..]);
      if es[0].DFolder? { BuiltLeaves(es[0].entries); }
      assert forall i :: 0 < i < |Build(es)| ==> Build(es)[i] == Build(es[1..])[i - 1];
    }
  }

  lemma BuiltGood(es: seq<Dirent>, n: Node)
    requires UniqEntries(es) && n.folder && n.children == Build(es)
    ensures GoodRoot(n)
  {
    BuiltLeaves(es);
    BuildUniq(es);
  }

  /** The first half of the server's round: its check, which passes over the log file, then DONE_CONTROL. */
  method ServerSends(es: seq<Dirent>, rn: Name, root: FileNode, down: Channel, log: Log)
    requires UniqEntries(es) && root.Valid() && GoodRoot(root.Val)
    modifies root.Repr, down, log
    ensures down.data == old(down.data) + (CheckBytes(Kept(es, true), old(root.Val).children) + Marker("DONE_CONTROL"))
    ensures log.lines == old(log.lines) +
              if log.kept then AllLines(CheckMsgs(Kept(es, true), old(root.Val).children)) else []
  {
    hide CheckBytes, CheckMsgs, AllLines, Marker, Kept;
    ghost var d0, b := down.data, CheckBytes(Kept(es, true), root.Val.children);
    var newRoot := SyncCheck(es, true, rn, root, Wire(down, log));
    down.Write(Marker("DONE_CONTROL"));
    assert d0 + b + Marker("DONE_CONTROL") == d0 + (b + Marker("DONE_CONTROL"));
  }

  /** The second half: the client's check is performed on the disk and the tree is built anew, `es` being what readdir shows. */
  method ServerReceives(up: Channel, disk: Disk, dn: string, rn: Name, es: seq<Dirent>)
      returns (exited: bool, root: FileNode)
    requires dn != "" && GoodName(rn) && Closed(disk.fs) && UniqEntries(es)
    modifies up, disk
    ensures var r := TopRun(dn, rn, "", old(up.data));
            && Replay(old(disk.fs), r.msgs, disk.clock) == (if exited then None else Some(disk.fs))
            && (!exited ==> up.data == r.rest)
    ensures fresh(root.Repr) && root.Valid()
    ensures !exited ==> root.Val == Node(rn, true, 0, 0, false, Build(Kept(es, true))) && GoodRoot(root.Val)
  {
    hide TopRun, Build, Closed, Kept;
    exited := SyncCheckReceive(up, disk, dn, rn);
    root := new FileNode(rn, 0, 0, true, false);
    if !exited {
      BuildTree(es, root);
      Units(Build(Kept(es, true)));
      KeptUniq(es, true);
      BuiltGood(Kept(es, true), root.Val);
    }
  }

  /** The client's check, then DONE_CONTROL twice: one ends the server's receive, the other starts its next round. */
  method ClientSends(es: seq<Dirent>, rn: Name, tempTree: FileNode, up: Channel) returns (newRoot: FileNode)
    requires UniqEntries(es) && tempTree.Valid() && GoodRoot(tempTree.Val)
    modifies tempTree.Repr, up
    ensures newRoot.Valid() && fresh(newRoot.Repr) && GoodRoot(newRoot.Val)
    ensures newRoot.Val == Node(rn, true, 0, 0, false, Remembered(es, old(tempTree.Val).children))
    ensures up.data == old(up.data) + (CheckBytes(es, old(tempTree.Val).children)
                                       + (Marker("DONE_CONTROL") + Marker("DONE_CONTROL")))
  {
    hide CheckBytes, CheckMsgs, AllLines, Marker, Remembered, Kept;
    ghost var d0, b := up.data, CheckBytes(es, tempTree.Val.children);
    var noLog := new Log(false);
    RememberedIsBuild(es, tempTree.Val.children);
    KeptAll(es);
    newRoot := SyncCheck(es, false, rn, tempTree, Wire(up, noLog));
    BuiltGood(es, newRoot.Val);
    up.Write(Marker("DONE_CONTROL"));
    up.Write(Marker("DONE_CONTROL"));
    assert d0 + b + Marker("DONE_CONTROL") + Marker("DONE_CONTROL") ==
           d0 + (b + (Marker("DONE_CONTROL") + Marker("DONE_CONTROL")));
  }

  /**
   * One turn of the client's loop: the server's check is performed on the disk, then the directory is checked against a
   * deep copy of the remembered tree, and the tree of that check is remembered. The remembered tree itself, which the check
   * would mark, is left as it was.
   */
  method ClientRound(down: Channel, up: Channel, disk: Disk, dn: string, rn: Name, root: FileNode, es: seq<Dirent>)
      returns (exited: bool, newRoot: FileNode)
    requires dn != "" && GoodName(rn) && Closed(disk.fs) && root.Valid() && GoodRoot(root.Val) && down != up
    requires UniqEntries(es)
    modifies down, up, disk
    ensures root.Valid() && root.Val == old(root.Val) && unchanged(root.Repr)
    ensures var r := TopRun(dn, rn, "", old(down.data));
            && Replay(old(disk.fs), r.msgs, disk.clock) == (if exited then None else Some(disk.fs))
            && (!exited ==> down.data == r.rest)
    ensures newRoot.Valid() && GoodRoot(newRoot.Val)
    ensures !exited ==>
              && newRoot.Val == Node(rn, true, 0, 0, false, Remembered(es, old(root.Val).children))
              && up.data == old(up.data) + (CheckBytes(es, old(root.Val).children)
                                            + (Marker("DONE_CONTROL") + Marker("DONE_CONTROL")))
  {
    hide TopRun, CheckBytes, Marker, Closed, Remembered;
    var tempTree := CopyFileTree(root);
    exited := SyncCheckReceive(down, disk, dn, rn);
    if exited { return true, root; }
    newRoot := ClientSends(es, rn, tempTree, up);
  }

  /**
   * A whole round, both programs taking their turns: it is exactly `Rounds.Round` for the listings they see, exits included,
   * and what is left on the channels is what the two streams leave unread (see `Rounds.RoundTheorem`).
   */
  method PlayRound(g: Config, sdisk: Disk, cdisk: Disk, sroot: FileNode, croot: FileNode, down: Channel, up: Channel,
                   log: Log, es: seq<Dirent>, ec: seq<Dirent>, ez: seq<Dirent>, ghost st: State)
      returns (exited: bool, sroot': FileNode, croot': FileNode)
    requires GoodConfig(g) && sdisk != cdisk && down != up && down.data == "" && up.data == ""
    requires Closed(sdisk.fs) && Closed(cdisk.fs) && UniqEntries(es) && UniqEntries(ec) && UniqEntries(ez)
    requires sroot.Valid() && croot.Valid() && GoodRoot(sroot.Val) && GoodRoot(croot.Val) && sroot.Repr !! croot.Repr
    requires st.ss == sroot.Val.children && st.cs == croot.Val.children
    modifies sroot.Repr, sdisk, cdisk, down, up, log
    ensures croot.Val == old(croot.Val)
    ensures var e := Env(old(sdisk.fs), old(cdisk.fs), es, ec, ez, sdisk.clock, cdisk.clock);
            && Round(g, st, e) ==
               (if exited then None else Some(State(sdisk.fs, cdisk.fs, sroot'.Val.children, croot'.Val.children)))
            && (!exited ==>
                  && down.data == TopRun(g.cdn, g.rn, "", DownBytes(st, e)).rest
                  && up.data == TopRun(g.sdn, g.rn, "", UpBytes(st, e)).rest)
    ensures !exited ==> sroot'.Valid() && croot'.Valid() && GoodRoot(sroot'.Val) && GoodRoot(croot'.Val)
  {
    hide TopRun, CheckBytes, CheckMsgs, AllLines, Marker, Closed, Remembered, Build, UniqEntries, GoodRoot;
    ghost var e := Env(sdisk.fs, cdisk.fs, es, ec, ez, sdisk.clock, cdisk.clock);
    ServerSends(es, g.rn, sroot, down, log);
    assert down.data == DownBytes(st, e) by {
      assert Marker("DONE_CONTROL") + "" == Marker("DONE_CONTROL") && "" + DownBytes(st, e) == DownBytes(st, e);
    }
    exited, croot' := ClientRound(down, up, cdisk, g.cdn, g.rn, croot, ec);
    if exited { return true, sroot, croot'; }
    assert up.data == UpBytes(st, e) by { assert "" + UpBytes(st, e) == UpBytes(st, e); }
    exited, sroot' := ServerReceives(up, sdisk, g.sdn, g.rn, ez);
  }
}
