/** A replica is the part of a disk below its directory; messages act on it as if it were a tree of its own. */
module Replica {
  import opened Text
  import opened FileSystem
  import opened Receiver

  function Relative(fs: Tree, base: Path): (r: set<Path>)
    ensures forall p :: p in r <==> base + p in fs
  {
    var r := set q | q in fs && base <= q :: q[|base|..];
    assert forall p :: p in r ==> base + p in fs by {
      forall p | p in r ensures base + p in fs {
        var q :| q in fs && base <= q && q[|base|..] == p;
        assert q == base + p;
      }
    }
    assert forall p :: base + p in fs ==> p in r by {
      forall p | base + p in fs ensures p in r {
        assert (base + p)[|base|..] == p;
      }
    }
    r
  }

  /** The tree below `base`, with `base` as its root. */
  function View(fs: Tree, base: Path): Tree {
    map p | p in Relative(fs, base) :: fs[base + p]
  }

  function Shifted(base: Path, clock: Clock): Clock {
    p => clock(base + p)
  }

  lemma ViewClosed(fs: Tree, base: Path)
    requires Closed(fs) && HasFolder(fs, base)
    ensures Closed(View(fs, base))
  {
    var v := View(fs, base);
    assert base + [] == base;
    forall p | p in v && p != [] ensures HasFolder(v, Parent(p)) {
      assert Parent(base + p) == base + Parent(p);
    }
  }

  /** Outside the replica nothing changes. */
  predicate SameOutside(a: Tree, b: Tree, base: Path) {
    (forall q :: q in a && !(base <= q) ==> q in b && b[q] == a[q]) &&
    (forall q :: q in b && !(base <= q) ==> q in a)
  }

  /** One entry of the disk after a rebased message, against the same entry of the replica after the message. */
  lemma StepAt(fs: Tree, base: Path, m: Msg, clock: Clock, x: Path)
    requires Closed(fs) && HasFolder(fs, base) && m.path != []
    ensures var r, v := Step(fs, Rebased(base, m), clock), Step(View(fs, base), m, Shifted(base, clock));
            && r.Some? == v.Some?
            && (r.Some? ==> (base + x in r.value <==> x in v.value) &&
                            (x in v.value ==> r.value[base + x] == v.value[x]))
  {
    var p := m.path;
    PrefixShift(base, p, x);
    assert Parent(base + p) == base + Parent(p);
    hide Relative;
    assert forall y :: y in View(fs, base) <==> base + y in fs;
    match m
    case Update(_, _) =>
    case Delete(_) =>
    case MkDir(_) =>
    case Create(_, _) =>
  }

  lemma StepOutside(fs: Tree, base: Path, m: Msg, clock: Clock)
    requires Closed(fs) && HasFolder(fs, base) && m.path != [] && Step(fs, Rebased(base, m), clock).Some?
    ensures var r := Step(fs, Rebased(base, m), clock).value;
            HasFolder(r, base) && Closed(r) && SameOutside(fs, r, base)
  {
    StepClosed(fs, Rebased(base, m), clock);
    assert !(base + m.path <= base) && base <= base + m.path;
  }

  lemma StepOnView(fs: Tree, base: Path, m: Msg, clock: Clock)
    requires Closed(fs) && HasFolder(fs, base) && m.path != []
    ensures var r, v := Step(fs, Rebased(base, m), clock), Step(View(fs, base), m, Shifted(base, clock));
            && r.Some? == v.Some?
            && (r.Some? ==> View(r.value, base) == v.value && HasFolder(r.value, base) && Closed(r.value)
                            && SameOutside(fs, r.value, base))
  {
    hide Step, Closed;
    var r, v := Step(fs, Rebased(base, m), clock), Step(View(fs, base), m, Shifted(base, clock));
    StepAt(fs, base, m, clock, []);
    if r.Some? {
      StepOutside(fs, base, m, clock);
      forall x
        ensures x in View(r.value, base) <==> x in v.value
        ensures x in v.value ==> View(r.value, base)[x] == v.value[x]
      {
        StepAt(fs, base, m, clock, x);
      }
      assert View(r.value, base) == v.value;
    }
  }

  lemma PrefixShift(base: Path, p: Path, x: Path)
    ensures base + p <= base + x <==> p <= x
    ensures base + p == base + x <==> p == x
  {
    assert (base + x)[|base|..] == x && (base + p)[|base|..] == p;
    if base + p <= base + x { assert forall i :: 0 <= i < |p| ==> p[i] == (base + p)[|base| + i] == x[i]; }
  }

  /** Performing rebased messages on the disk is performing the messages on the replica. */
  lemma {:induction false} ReplayOnView(fs: Tree, base: Path, ms: seq<Msg>, clock: Clock)
    requires Closed(fs) && HasFolder(fs, base) && forall m :: m in ms ==> m.path != []
    ensures var r, v := Replay(fs, AllRebased(base, ms), clock), Replay(View(fs, base), ms, Shifted(base, clock));
            && r.Some? == v.Some?
            && (r.Some? ==> View(r.value, base) == v.value && HasFolder(r.value, base) && Closed(r.value)
                            && SameOutside(fs, r.value, base))
    decreases |ms|
  {
    if ms != [] {
      assert ms[0] in ms;
      StepOnView(fs, base, ms[0], clock);
      var r := Step(fs, Rebased(base, ms[0]), clock);
      if r.Some? {
        ReplayOnView(r.value, base, ms[1..], clock);
        assert AllRebased(base, ms)[1..] == AllRebased(base, ms[1..]);
      }
    }
  }

  /** A file put at a path is put there in the replica, and nowhere else. */
  lemma WriteOnView(fs: Tree, base: Path, p: Path, e: Entry)
    requires Closed(fs) && HasFolder(fs, base) && p != [] && HasFolder(fs, Parent(base + p)) && e.File?
    requires base + p in fs ==> HasFile(fs, base + p)
    ensures var r := fs[base + p := e];
            View(r, base) == View(fs, base)[p := e] && Closed(r) && HasFolder(r, base) && SameOutside(fs, r, base)
  {
    hide Relative;
    var r := fs[base + p := e];
    forall x ensures x in View(r, base) <==> x == p || x in View(fs, base) { PrefixShift(base, p, x); }
    forall x | x in View(r, base) ensures View(r, base)[x] == View(fs, base)[p := e][x] { PrefixShift(base, p, x); }
    forall x | x in r && x != [] ensures HasFolder(r, Parent(x)) {
      assert x in fs ==> HasFolder(fs, Parent(x));
    }
    assert base <= base + p && base + p != base;
  }
}
