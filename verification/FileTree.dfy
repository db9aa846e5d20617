/** The snapshot tree as it is in memory: nodes updated in place, children arrays that grow, and the deep copy. */
module FileTree {
  import opened Text
  import opened Diff

  class FileNode {
    var name: Name
    var folder: bool
    var size: nat
    var mtime: int
    var flag: bool
    var children: seq<FileNode>
    ghost var Repr: set<FileNode>
    ghost var Val: Node

    ghost predicate Valid()
      reads this, Repr
      decreases Repr
    {
      && ValidBut(-1)
      && forall i :: 0 <= i < |children| ==> children[i].Valid()
    }

    /** The node agrees with its value and owns its subtrees, which do not overlap; the value of child `k` may be out of date. */
    ghost predicate ValidBut(k: int)
      reads this, Repr
    {
      && this in Repr
      && Val == Node(name, folder, size, mtime, flag, Val.children) && |Val.children| == |children|
      && (forall i :: 0 <= i < |children| ==> children[i] in Repr && this !in children[i].Repr && children[i].Repr <= Repr)
      && (forall i :: 0 <= i < |children| && i != k ==> children[i].Val == Val.children[i])
      && (forall i, j :: 0 <= i < j < |children| ==> children[i].Repr !! children[j].Repr)
    }

    /** createNode */
    constructor (name: Name, size: nat, mtime: int, folder: bool, flag: bool)
      ensures Valid() && Repr == {this} && Val == Node(name, folder, size, mtime, flag, [])
    {
      this.name, this.size, this.mtime, this.folder, this.flag := name, size, mtime, folder, flag;
      children := [];
      Repr, Val := {this}, Node(name, folder, size, mtime, flag, []);
    }

    /** Struct assignment: the slot gets the fields of `c`, its children included. */
    constructor CopyOf(c: FileNode)
      requires c.Valid()
      ensures Valid() && Val == c.Val && Repr == c.Repr - {c} + {this}
    {
      name, size, mtime, folder, flag := c.name, c.size, c.mtime, c.folder, c.flag;
      children := c.children;
      Repr, Val := c.Repr - {c} + {this}, c.Val;
    }

    /** addChild: the children array grows by one slot, a copy of `c`. */
    method AddChild(c: FileNode)
      requires Valid() && c.Valid() && Repr !! c.Repr
      modifies this
      ensures Valid() && Val == old(Val).(children := old(Val).children + [c.Val])
      ensures fresh(Repr - old(Repr) - c.Repr)
      ensures |children| == old(|children|) + 1 && children[..|children| - 1] == old(children)
      ensures var slot := children[|children| - 1]; fresh(slot) && slot.Repr == c.Repr - {c} + {slot}
    {
      var slot := new FileNode.CopyOf(c);
      children := children + [slot];
      Repr := Repr + slot.Repr;
      Val := Val.(children := Val.children + [c.Val]);
    }

    method SetFlag(b: bool)
      requires Valid()
      modifies this
      ensures Valid() && Val == old(Val).(flag := b) && Repr == old(Repr) && children == old(children)
    {
      flag := b;
      Val := Val.(flag := b);
    }

    /** Brings the value up to date after a change inside child `k`. */
    ghost method Refit(k: nat)
      requires k < |children| && ValidBut(k) && forall i :: 0 <= i < |children| ==> children[i].Valid()
      modifies this
      ensures Valid() && Val == old(Val).(children := old(Val).children[k := children[k].Val])
      ensures Repr == old(Repr) && children == old(children)
    {
      Val := Val.(children := Val.children[k := children[k].Val]);
    }
  }

  // ---------------------------------------------------------------------------------------------
  // Building and copying

  /** One entry for buildTree: the slot is added first, a folder is then built inside the slot. */
  method BuildEntry(e: Dirent, parentNode: FileNode)
    requires parentNode.Valid()
    modifies parentNode
    ensures parentNode.Valid() && fresh(parentNode.Repr - old(parentNode.Repr))
    ensures parentNode.Val == old(parentNode.Val).(
              children := old(parentNode.Val).children
                          + [NodeOf(e, false, if e.DFolder? then Build(Kept(e.entries, true)) else [])])
    decreases e
  {
    hide Build, Kept;
    var childNode := new FileNode(e.name, StatSize(e), e.mtime, e.DFolder?, false);
    parentNode.AddChild(childNode);
    if e.DFolder? {
      BuildInLast(e, parentNode);
    }
  }

  method BuildInLast(e: Dirent, parentNode: FileNode)
    requires parentNode.Valid() && e.DFolder? && parentNode.children != []
    requires parentNode.children[|parentNode.children| - 1].Val.children == []
    modifies parentNode, parentNode.children[|parentNode.children| - 1]
    ensures parentNode.Valid() && fresh(parentNode.Repr - old(parentNode.Repr))
    ensures var k := |old(parentNode.children)| - 1;
            parentNode.Val == old(parentNode.Val).(
              children := old(parentNode.Val).children[k := old(parentNode.Val).children[k].(children := Build(Kept(e.entries, true)))])
    decreases e, 0
  {
    hide Build, Kept;
    var k := |parentNode.children| - 1;
    var slot := parentNode.children[k];
    ghost var kids := Build(Kept(e.entries, true));
    Units(kids);
    BuildTree(e.entries, slot);
    assert slot.Val.children == kids;
    parentNode.Repr := parentNode.Repr + slot.Repr;
    parentNode.Refit(k);
  }

  /** buildTree: every entry of the directory but the log file. */
  method BuildTree(es: seq<Dirent>, parentNode: FileNode)
    requires parentNode.Valid()
    modifies parentNode
    ensures parentNode.Valid() && fresh(parentNode.Repr - old(parentNode.Repr))
    ensures parentNode.Val == old(parentNode.Val).(children := old(parentNode.Val).children + Build(Kept(es, true)))
    decreases es
  {
    ghost var start := parentNode.Val;
    var i := 0;
    assert es[..0] == [];
    while i < |es|
      invariant 0 <= i <= |es|
      invariant parentNode.Valid() && fresh(parentNode.Repr - old(parentNode.Repr))
      invariant parentNode.Val == start.(children := start.children + Build(Kept(es[..i], true)))
      decreases |es| - i
    {
      BuildNext(es, i, start.children);
      if es[i].name == "log.txt" {
        i := i + 1;
        continue;
      }
      BuildEntry(es[i], parentNode);
      i := i + 1;
    }
    assert es[..i] == es;
  }

  lemma {:induction false} BuildConcat(a: seq<Dirent>, b: seq<Dirent>)
    ensures Build(a + b) == Build(a) + Build(b)
    decreases |a|
  {
    if a == [] {
      assert a + b == b;
    } else {
      assert (a + b)[1..] == a[1..] + b;
      BuildConcat(a[1..], b);
    }
  }

  lemma BuildNext(es: seq<Dirent>, i: nat, before: seq<Node>)
    requires i < |es|
    ensures before + Build(Kept(es[..i + 1], true)) ==
            before + Build(Kept(es[..i], true)) +
            if es[i].name == "log.txt" then []
            else [NodeOf(es[i], false, if es[i].DFolder? then Build(Kept(es[i].entries, true)) else [])]
  {
    assert es[..i + 1] == es[..i] + [es[i]];
    KeptConcat(es[..i], [es[i]], true);
    KeptOne(es[i], true);
    hide Kept;
    BuildConcat(Kept(es[..i], true), Kept([es[i]], true));
    assert [KeptEntry(es[i], true)][1..] == [];
    Units(before + Build(Kept(es[..i], true)));
  }

  lemma {:induction false} KeptConcat(a: seq<Dirent>, b: seq<Dirent>, skipLog: bool)
    ensures Kept(a + b, skipLog) == Kept(a, skipLog) + Kept(b, skipLog)
    decreases |a|
  {
    if a == [] {
      assert a + b == b;
    } else {
      assert (a + b)[1..] == a[1..] + b;
      KeptConcat(a[1..], b, skipLog);
    }
  }

  lemma KeptOne(e: Dirent, skipLog: bool)
    ensures Kept([e], skipLog) == if skipLog && e.name == "log.txt" then [] else [KeptEntry(e, skipLog)]
  {
    assert [e][1..] == [];
  }

  /** Only folders have children. */
  predicate FilesAreLeaves(n: Node) {
    (!n.folder ==> n.children == []) && forall i :: 0 <= i < |n.children| ==> FilesAreLeaves(n.children[i])
  }

  /**
   * copyFileTree: a tree equal to its source at every depth and sharing no node with it, provided only folders have
   * children; the source is not touched.
   */
  method CopyFileTree(node: FileNode) returns (copy: FileNode)
    requires node.Valid() && FilesAreLeaves(node.Val)
    ensures copy.Valid() && fresh(copy.Repr) && copy.Val == node.Val
    decreases node.Val, 0
  {
    copy := new FileNode(node.name, node.size, node.mtime, node.folder, node.flag);
    if node.folder {
      var i := 0;
      while i < |node.children|
        invariant 0 <= i <= |node.children|
        invariant copy.Valid() && fresh(copy.Repr)
        invariant copy.Val == node.Val.(children := node.Val.children[..i])
      {
        CopyChild(node, i, copy);
        i := i + 1;
      }
      assert node.Val.children[..i] == node.Val.children;
    }
  }

  /** One more child copied. */
  method CopyChild(node: FileNode, i: nat, copy: FileNode)
    requires node.Valid() && FilesAreLeaves(node.Val) && i < |node.children|
    requires copy.Valid() && copy !in node.Repr
    modifies copy
    ensures copy.Valid() && fresh(copy.Repr - old(copy.Repr))
    ensures copy.Val == old(copy.Val).(children := old(copy.Val).children + [node.Val.children[i]])
    decreases node.Val.children[i], 1
  {
    var child := CopyFileTree(node.children[i]);
    copy.AddChild(child);
  }
}
