/** Every well-formed tree can be listed: what the theorems ask of a directory listing can always be had. */
module Listings {
  import opened Text
  import opened FileSystem
  import opened Convergence
  import opened DeleteReader
  import opened Diff

  /** The entry of the path `p`, with what lies below it. */
  ghost function EntryFor(t: Tree, p: Path): Dirent
    requires Closed(t) && p in t && p != []
    decreases Below(t, p), 1
  {
    if t[p].File? then DFile(p[|p| - 1], t[p].content, t[p].mtime)
    else DFolder(p[|p| - 1], 0, 0, ListingBelow(t, p, ChildNames(t, p)))
  }

  ghost function Pick(names: set<Name>): (n: Name)
    requires names != {}
    ensures n in names
  {
    var n :| n in names; n
  }

  /** The named children of `p`, in some order. */
  ghost function ListingBelow(t: Tree, p: Path, names: set<Name>): (es: seq<Dirent>)
    requires Closed(t) && names <= ChildNames(t, p)
    decreases Below(t, p), 0, names
  {
    if names == {} then []
    else
      var n := Pick(names);
      ChildBelow(t, p, n);
      [EntryFor(t, p + [n])] + ListingBelow(t, p, names - {n})
  }

  lemma ChildBelow(t: Tree, p: Path, n: Name)
    requires n in ChildNames(t, p)
    ensures p + [n] in t && Below(t, p + [n]) < Below(t, p)
  {
    var q :| q in t && |q| == |p| + 1 && p < q && q[|p|] == n;
    assert q == p + [n];
    assert q in Below(t, p) && q !in Below(t, q);
  }

  /** A listing of the whole tree. */
  ghost function ListingOf(t: Tree): seq<Dirent>
    requires Closed(t)
  {
    ListingBelow(t, [], ChildNames(t, []))
  }

  predicate Shows(d: Dirent, e: Entry) {
    d.DFolder? == e.Folder? && (e.File? ==> d.content == e.content && d.mtime == e.mtime)
  }

  lemma ListingCons(t: Tree, p: Path, names: set<Name>) returns (n: Name)
    requires Closed(t) && names <= ChildNames(t, p) && names != {}
    ensures n in names && p + [n] in t && Below(t, p + [n]) < Below(t, p)
    ensures ListingBelow(t, p, names) == [EntryFor(t, p + [n])] + ListingBelow(t, p, names - {n})
  {
    n := Pick(names);
    ChildBelow(t, p, n);
  }

  lemma {:induction false} ListingUniq(t: Tree, p: Path, names: set<Name>)
    requires Closed(t) && names <= ChildNames(t, p)
    ensures UniqEntries(ListingBelow(t, p, names)) && EntryNames(ListingBelow(t, p, names)) == names
    decreases Below(t, p), 0, names
  {
    if names == {} {
      assert ListingBelow(t, p, names) == [];
    } else {
      hide ListingBelow, Closed, ChildNames, Below;
      var n := ListingCons(t, p, names);
      ListingUniq(t, p, names - {n});
      if t[p + [n]].Folder? { ListingUniq(t, p + [n], ChildNames(t, p + [n])); }
      var es := ListingBelow(t, p, names);
      assert es[1..] == ListingBelow(t, p, names - {n});
      EntryNamesCons(es);
    }
  }

  /** The listing of some children of `p` shows what the tree has below them. */
  ghost predicate ShowsAt(t: Tree, p: Path, names: set<Name>, es: seq<Dirent>, x: Path)
    requires x != []
  {
    var d := Look(es, x);
    && (d.Some? <==> x[0] in names && p + x in t)
    && (d.Some? ==> Shows(d.value, t[p + x]))
  }

  lemma ShowsFirst(t: Tree, p: Path, n: Name, rest: seq<Dirent>, names: set<Name>, x: Path)
    requires Closed(t) && p + [n] in t && n in names && x != []
    requires ShowsAt(t, p, names - {n}, rest, x)
    requires |x| > 1 && t[p + [n]].Folder? ==>
               ShowsAt(t, p + [n], ChildNames(t, p + [n]), ListingBelow(t, p + [n], ChildNames(t, p + [n])), x[1..])
    ensures ShowsAt(t, p, names, [EntryFor(t, p + [n])] + rest, x)
  {
    hide ListingBelow, ChildNames, Look;
    var q, es := p + [n], [EntryFor(t, p + [n])] + rest;
    LookCons(es, x);
    assert es[1..] == rest;
    if x[0] == n {
      if |x| == 1 {
        assert p + x == q;
      } else {
        assert q + x[1..] == p + x;
        BelowChild(t, q, x[1..]);
      }
    }
  }

  /** Looking a path up in the listing finds what the tree has there. */
  lemma {:induction false} ListingShows(t: Tree, p: Path, names: set<Name>, x: Path)
    requires Closed(t) && names <= ChildNames(t, p) && x != []
    ensures ShowsAt(t, p, names, ListingBelow(t, p, names), x)
    decreases Below(t, p), 0, names
  {
    if names == {} {
      assert ListingBelow(t, p, names) == [];
    } else {
      hide ListingBelow, Below, ShowsAt, ChildNames, Closed;
      var n := ListingCons(t, p, names);
      var q := p + [n];
      ListingShows(t, p, names - {n}, x);
      if |x| > 1 && t[q].Folder? { ListingShows(t, q, ChildNames(t, q), x[1..]); }
      ShowsFirst(t, p, n, ListingBelow(t, p, names - {n}), names, x);
    }
  }

  /** Whatever lies below a path lies below one of its children, and files have nothing below them. */
  lemma BelowChild(t: Tree, q: Path, x: Path)
    requires Closed(t) && q in t && x != []
    ensures q + x in t ==> t[q].Folder? && x[0] in ChildNames(t, q)
  {
    if q + x in t {
      ClosedUp(t, q, q + x);
      OnlyRootLeft(t, q, q + x);
    }
  }

  /** Every well-formed tree has a listing with distinct names that denotes exactly that tree. */
  lemma {:induction false} ListingExists(t: Tree) returns (es: seq<Dirent>)
    requires Closed(t)
    ensures UniqEntries(es) && TreeOf(es) == t
  {
    es := ListingOf(t);
    ListingUniq(t, [], ChildNames(t, []));
    forall p ensures (p in TreeOf(es) <==> p in t) && (p in t ==> EntryAt(es, p) == t[p]) {
      InTree(es, p);
      if p != [] {
        ListingShows(t, [], ChildNames(t, []), p);
        BelowChild(t, [], p);
        assert [] + p == p;
      }
    }
  }
}
