/** What replaying a diff does to a tree, in closed form. */
module Patch {
  import opened Text
  import opened FileSystem

  function UpdateMsgs(m: Tree, ps: seq<Path>): (ms: seq<Msg>)
    requires forall p :: p in ps ==> HasFile(m, p)
    ensures |ms| == |ps|
  {
    seq(|ps|, i requires 0 <= i < |ps| && HasFile(m, ps[i]) => Update(ps[i], m[ps[i]].content))
  }

  function DeleteMsgs(ps: seq<Path>): (ms: seq<Msg>)
    ensures |ms| == |ps|
  {
    seq(|ps|, i requires 0 <= i < |ps| => Delete(ps[i]))
  }

  function CreateMsg(m: Tree, p: Path): Msg
    requires p in m
  {
    if m[p].Folder? then MkDir(p) else Create(p, m[p].content)
  }

  function CreateMsgs(m: Tree, ps: seq<Path>): (ms: seq<Msg>)
    requires forall p :: p in ps ==> p in m
    ensures |ms| == |ps|
  {
    seq(|ps|, i requires 0 <= i < |ps| => CreateMsg(m, ps[i]))
  }

  /** The entry a message that names `p` leaves there: the sender's entry, stamped by the receiver's clock. */
  function Stamped(m: Tree, p: Path, clock: Clock): Entry
    requires p in m
  {
    if m[p].Folder? then Folder else File(m[p].content, clock(p))
  }

  /** `p` lies at or below one of the deleted paths. */
  predicate Under(dels: set<Path>, p: Path) {
    exists d :: d in dels && d <= p
  }

  /** The tree a patch leaves behind, entry by entry. */
  function Patched(r: Tree, m: Tree, ups: set<Path>, dels: set<Path>, news: set<Path>, clock: Clock): Tree {
    map p | p in r.Keys + m.Keys &&
            ((p in news && p in m) || (p in r && !Under(dels, p))) ::
      if (p in news && p in m) || (p in ups && p in m) then Stamped(m, p, clock) else r[p]
  }

  function Elems(ps: seq<Path>): set<Path> {
    set p | p in ps
  }

  lemma ElemsCons(ps: seq<Path>)
    requires ps != []
    ensures Elems(ps) == {ps[0]} + Elems(ps[1..])
  {
    assert ps == [ps[0]] + ps[1..];
  }

  lemma {:induction false} ReplayUpdates(r: Tree, m: Tree, ps: seq<Path>, clock: Clock)
    requires forall p :: p in ps ==> HasFile(m, p) && HasFile(r, p)
    ensures Replay(r, UpdateMsgs(m, ps), clock) == Some(Patched(r, m, Elems(ps), {}, {}, clock))
    decreases |ps|
  {
    if ps == [] {
      assert Patched(r, m, {}, {}, {}, clock) == r;
      assert Elems(ps) == {};
    } else {
      ElemsCons(ps);
      var p := ps[0];
      assert p in ps;
      var r1 := r[p := File(m[p].content, clock(p))];
      assert UpdateMsgs(m, ps)[1..] == UpdateMsgs(m, ps[1..]);
      forall q | q in ps[1..] ensures q in ps { }
      ReplayUpdates(r1, m, ps[1..], clock);
      assert Patched(r1, m, Elems(ps[1..]), {}, {}, clock) == Patched(r, m, Elems(ps), {}, {}, clock);
    }
  }

  /** On a closed tree a delete removes exactly the named path and what lies below it, whether or not it is there. */
  lemma DeleteIsRemoveTree(r: Tree, d: Path, clock: Clock)
    requires Closed(r) && d != []
    ensures Step(r, Delete(d), clock) == Some(RemoveTree(r, d))
    ensures Closed(RemoveTree(r, d))
  {
    StepClosed(r, Delete(d), clock);
    if !HasFolder(r, d) {
      forall q | q in r && d <= q ensures q == d {
        ClosedUp(r, d, q);
      }
      assert r - {d} == RemoveTree(r, d);
    }
  }

  lemma {:induction false} ReplayDeletes(r: Tree, ps: seq<Path>, clock: Clock)
    requires Closed(r) && [] !in ps
    ensures Replay(r, DeleteMsgs(ps), clock) == Some(Patched(r, map[], {}, Elems(ps), {}, clock))
    ensures Closed(Patched(r, map[], {}, Elems(ps), {}, clock))
    decreases |ps|
  {
    var m: Tree := map[];
    if ps == [] {
      assert Elems(ps) == {};
      assert Patched(r, m, {}, {}, {}, clock) == r;
    } else {
      ElemsCons(ps);
      var d := ps[0];
      assert d in ps;
      DeleteIsRemoveTree(r, d, clock);
      var r1 := RemoveTree(r, d);
      assert DeleteMsgs(ps)[1..] == DeleteMsgs(ps[1..]);
      ReplayDeletes(r1, ps[1..], clock);
      forall p ensures Under(Elems(ps), p) <==> d <= p || Under(Elems(ps[1..]), p) {
        if d <= p { assert d in Elems(ps); }
        if Under(Elems(ps[1..]), p) {
          var e :| e in Elems(ps[1..]) && e <= p;
          assert e in Elems(ps);
        }
      }
      assert Patched(r1, m, {}, Elems(ps[1..]), {}, clock) == Patched(r, m, {}, Elems(ps), {}, clock);
    }
  }

  /** Each new path finds its parent folder: already in `r`, or earlier in the list. */
  predicate ParentsFirst(r: Tree, m: Tree, ps: seq<Path>) {
    forall i :: 0 <= i < |ps| ==>
      ps[i] != [] &&
      (HasFolder(r, Parent(ps[i])) || (Parent(ps[i]) in ps[..i] && HasFolder(m, Parent(ps[i]))))
  }

  predicate KindsAgree(r: Tree, m: Tree, ps: seq<Path>) {
    forall p :: p in ps && p in r && p in m ==> r[p].Folder? == m[p].Folder?
  }

  lemma CreateStep(r: Tree, m: Tree, p: Path, clock: Clock)
    requires p in m && p != [] && HasFolder(r, Parent(p))
    requires p in r ==> r[p].Folder? == m[p].Folder?
    ensures Step(r, CreateMsg(m, p), clock) == Some(r[p := Stamped(m, p, clock)])
  {
    assert HasFolder(r, p) ==> r[p := Folder] == r;
  }

  lemma CreatePatched(r: Tree, m: Tree, ps: seq<Path>, clock: Clock)
    requires ps != [] && forall p :: p in ps ==> p in m
    ensures Patched(r[ps[0] := Stamped(m, ps[0], clock)], m, {}, {}, Elems(ps[1..]), clock)
            == Patched(r, m, {}, {}, Elems(ps), clock)
  {
    ElemsCons(ps);
    assert ps[0] in ps;
  }

  lemma ParentsFirstTail(r: Tree, m: Tree, ps: seq<Path>, e: Entry)
    requires ps != [] && ParentsFirst(r, m, ps)
    requires ps[0] in m && e.Folder? == m[ps[0]].Folder?
    requires ps[0] in r ==> r[ps[0]].Folder? == e.Folder?
    ensures ParentsFirst(r[ps[0] := e], m, ps[1..])
  {
    var r1 := r[ps[0] := e];
    forall i | 0 <= i < |ps[1..]|
      ensures ps[1..][i] != []
      ensures HasFolder(r1, Parent(ps[1..][i])) ||
              (Parent(ps[1..][i]) in ps[1..][..i] && HasFolder(m, Parent(ps[1..][i])))
    {
      assert ps[1..][i] == ps[i + 1];
      assert ps[..i + 1] == [ps[0]] + ps[1..][..i];
    }
  }

  lemma {:induction false} ReplayCreates(r: Tree, m: Tree, ps: seq<Path>, clock: Clock)
    requires forall p :: p in ps ==> p in m
    requires ParentsFirst(r, m, ps) && KindsAgree(r, m, ps)
    ensures Replay(r, CreateMsgs(m, ps), clock) == Some(Patched(r, m, {}, {}, Elems(ps), clock))
    decreases |ps|
  {
    if ps == [] {
      assert Elems(ps) == {};
      assert Patched(r, m, {}, {}, {}, clock) == r;
    } else {
      var p := ps[0];
      assert p in ps && ps[..0] == [];
      CreateStep(r, m, p, clock);
      ParentsFirstTail(r, m, ps, Stamped(m, p, clock));
      assert CreateMsgs(m, ps)[1..] == CreateMsgs(m, ps[1..]);
      assert forall q :: q in ps[1..] ==> q in ps;
      ReplayCreates(r[p := Stamped(m, p, clock)], m, ps[1..], clock);
      CreatePatched(r, m, ps, clock);
    }
  }

  lemma UpdatesKeepShape(r: Tree, m: Tree, ups: set<Path>, clock: Clock)
    requires Closed(r)
    requires forall p :: p in ups ==> HasFile(m, p) && HasFile(r, p)
    ensures Closed(Patched(r, m, ups, {}, {}, clock))
  {
    var r1 := Patched(r, m, ups, {}, {}, clock);
    assert forall p :: p in r ==> p in r1 && r1[p].Folder? == r[p].Folder?;
    forall p | p in r1 && p != [] ensures HasFolder(r1, Parent(p)) {
      assert HasFolder(r, Parent(p));
    }
  }

  lemma PatchedInTwo(r: Tree, m: Tree, ups: set<Path>, dels: set<Path>, news: set<Path>, clock: Clock)
    ensures Patched(Patched(Patched(r, m, ups, {}, {}, clock), map[], {}, dels, {}, clock), m, {}, {}, news, clock)
            == Patched(r, m, ups, dels, news, clock)
  {
  }

  lemma CreatesAfterUpdates(r: Tree, m: Tree, ups: set<Path>, dels: set<Path>, news: seq<Path>, clock: Clock)
    requires forall p :: p in ups ==> HasFile(m, p) && HasFile(r, p)
    requires KindsAgree(r, m, news)
    requires ParentsFirst(Patched(r, map[], {}, dels, {}, clock), m, news)
    ensures var r2 := Patched(Patched(r, m, ups, {}, {}, clock), map[], {}, dels, {}, clock);
            ParentsFirst(r2, m, news) && KindsAgree(r2, m, news)
  {
    var rd := Patched(r, map[], {}, dels, {}, clock);
    var r2 := Patched(Patched(r, m, ups, {}, {}, clock), map[], {}, dels, {}, clock);
    forall p ensures HasFolder(rd, p) ==> HasFolder(r2, p) { }
    forall i | 0 <= i < |news|
      ensures news[i] != []
      ensures HasFolder(r2, Parent(news[i])) ||
              (Parent(news[i]) in news[..i] && HasFolder(m, Parent(news[i])))
    {
      assert HasFolder(rd, Parent(news[i])) ==> HasFolder(r2, Parent(news[i]));
    }
  }

  /**
   * The closed form of a whole patch. Updates, then deletes, then creates, whatever their number,
   * never make the receiver exit and leave exactly `Patched`.
   */
  lemma {:induction false} PatchEffect(
      r: Tree, m: Tree, ups: seq<Path>, dels: seq<Path>, news: seq<Path>, clock: Clock)
    requires Closed(r) && [] !in dels
    requires forall p :: p in ups ==> HasFile(m, p) && HasFile(r, p)
    requires forall p :: p in news ==> p in m
    requires KindsAgree(r, m, news)
    requires ParentsFirst(Patched(r, map[], {}, Elems(dels), {}, clock), m, news)
    ensures Replay(r, UpdateMsgs(m, ups) + DeleteMsgs(dels) + CreateMsgs(m, news), clock) ==
            Some(Patched(r, m, Elems(ups), Elems(dels), Elems(news), clock))
  {
    var u, d := UpdateMsgs(m, ups), DeleteMsgs(dels);
    var r1 := Patched(r, m, Elems(ups), {}, {}, clock);
    var r2 := Patched(r1, map[], {}, Elems(dels), {}, clock);
    ReplayUpdates(r, m, ups, clock);
    UpdatesKeepShape(r, m, Elems(ups), clock);
    ReplayDeletes(r1, dels, clock);
    CreatesAfterUpdates(r, m, Elems(ups), Elems(dels), news, clock);
    ReplayCreates(r2, m, news, clock);
    ReplayConcat(r, u, d, clock);
    ReplayConcat(r, u + d, CreateMsgs(m, news), clock);
    PatchedInTwo(r, m, Elems(ups), Elems(dels), Elems(news), clock);
  }
}
