/** The delete section of the stream and the recursive removal of a folder. */
module DeleteReader {
  import opened Text
  import opened FileSystem
  import opened Runtime

  const PATH_LIMIT := 254

  datatype Parsed = Parsed(msgs: seq<Msg>, rest: string)

  /** The deletes read from a given buffer on; a path over the limit is skipped and stays in the buffer. */
  function DelRun(dir: string, buf: string, bytes: string): (r: Parsed)
    ensures |r.rest| <= |bytes|
    decreases |bytes|
  {
    if bytes == "" then Parsed([], "")
    else
      var c, rest := bytes[0], bytes[1..];
      if c == '{' || c == NUL then DelRun(dir, buf, rest)
      else if c != '}' then DelRun(dir, buf + [c], rest)
      else if CStr(buf) == "SYNC_DELETE_DONE" then Parsed([], rest)
      else if |dir + CStr(buf)| > PATH_LIMIT then DelRun(dir, buf, rest)
      else
        var r := DelRun(dir, "", rest);
        Parsed([Delete(Resolve(dir + CStr(buf)))] + r.msgs, r.rest)
  }

  lemma {:induction false} ReadsWord(dir: string, buf: string, w: string, t: string)
    requires Plain(w)
    ensures DelRun(dir, buf, w + t) == DelRun(dir, buf + w, t)
    decreases |w|
  {
    if w == "" {
      assert w + t == t && buf + w == buf;
    } else {
      assert w[0] in w;
      assert (w + t)[1..] == w[1..] + t;
      ReadsWord(dir, buf + [w[0]], w[1..], t);
      assert buf + [w[0]] + w[1..] == buf + w;
    }
  }

  lemma ReadsMarker(dir: string, w: string, t: string)
    requires Plain(w)
    ensures w == "SYNC_DELETE_DONE" ==> DelRun(dir, "", Marker(w) + t) == Parsed([], t)
    ensures w != "SYNC_DELETE_DONE" && |dir + w| <= PATH_LIMIT ==>
              DelRun(dir, "", Marker(w) + t) ==
              var r := DelRun(dir, "", t); Parsed([Delete(Resolve(dir + w))] + r.msgs, r.rest)
  {
    assert Marker(w) + t == "{" + (w + ("}" + t));
    assert ("{" + (w + ("}" + t)))[1..] == w + ("}" + t);
    ReadsWord(dir, "", w, "}" + t);
    assert "" + w == w;
    assert ("}" + t)[1..] == t;
  }

  /** Once a path is over the limit the buffer only grows: no later path, and not even the end of the section, is seen. */
  lemma {:induction false} LongPathSwallows(dir: string, buf: string, bytes: string)
    requires buf != "" && buf[0] == '/' && NUL !in buf && |dir + buf| > PATH_LIMIT
    ensures DelRun(dir, buf, bytes) == Parsed([], "")
    decreases |bytes|
  {
    if bytes != "" {
      var c := bytes[0];
      assert "SYNC_DELETE_DONE"[0] == 'S';
      if c == '{' || c == NUL || c == '}' {
        LongPathSwallows(dir, buf, bytes[1..]);
      } else {
        LongPathSwallows(dir, buf + [c], bytes[1..]);
      }
    }
  }

  /** A delete section with one path performs exactly that delete and ends, if and only if the full path is within the limit. */
  lemma {:induction false} DeleteExact(dir: string, r: string, t: string)
    requires Plain(r) && r != "" && r[0] == '/'
    ensures DelRun(dir, "", Marker(r) + (Marker("SYNC_DELETE_DONE") + t)) == Parsed([Delete(Resolve(dir + r))], t) <==>
            |dir + r| <= 254
  {
    assert r != "SYNC_DELETE_DONE" by { assert "SYNC_DELETE_DONE"[0] == 'S'; }
    var end := Marker("SYNC_DELETE_DONE") + t;
    hide DelRun, CStr;
    if |dir + r| <= PATH_LIMIT {
      ReadsMarker(dir, r, end);
      ReadsMarker(dir, "SYNC_DELETE_DONE", t);
    } else {
      ReadsLongPath(dir, r, end);
    }
  }

  lemma ReadsLongPath(dir: string, r: string, t: string)
    requires Plain(r) && r != "" && r[0] == '/' && |dir + r| > PATH_LIMIT
    ensures DelRun(dir, "", Marker(r) + t) == Parsed([], "")
  {
    MarkerSplit(r, t);
    ReadsWord(dir, "", r, "}" + t);
    LongPathSwallows(dir, r, "}" + t);
  }

  // ---------------------------------------------------------------------------------------------

  /** The paths strictly below `p`. */
  function Below(fs: Tree, p: Path): set<Path> {
    set q | q in fs && p < q
  }

  function ChildNames(fs: Tree, p: Path): set<Name> {
    set q | q in fs && |q| == |p| + 1 && p < q :: q[|p|]
  }

  /** `fs` without the subtrees of the named children of `p`. */
  function WithoutChildren(fs: Tree, p: Path, names: set<Name>): Tree {
    map q | q in fs && !(p < q && q[|p|] in names) :: fs[q]
  }

  lemma ChildRemoved(fs: Tree, p: Path, names: set<Name>, n: Name)
    ensures RemoveTree(WithoutChildren(fs, p, names), p + [n]) == WithoutChildren(fs, p, names + {n})
  {
    forall q ensures p + [n] <= q <==> p < q && q[|p|] == n {
      if p < q && q[|p|] == n { assert q[..|p| + 1] == p + [n]; }
    }
  }

  lemma WithoutChildrenClosed(fs: Tree, p: Path, names: set<Name>)
    requires Closed(fs)
    ensures Closed(WithoutChildren(fs, p, names))
  {
    var r := WithoutChildren(fs, p, names);
    forall q | q in r && q != [] ensures HasFolder(r, Parent(q)) {
      assert HasFolder(fs, Parent(q));
    }
  }

  lemma {:induction false} OnlyRootLeft(fs: Tree, p: Path, q: Path)
    requires Closed(fs) && q in fs && p < q
    ensures q[|p|] in ChildNames(fs, p)
  {
    var c := q[..|p| + 1];
    ClosedUp(fs, c, q);
    assert c in fs && p < c && c[|p|] == q[|p|];
  }

  /** remove_directory: empties the folder entry by entry, in any order, then removes it. */
  method RemoveDirectory(disk: Disk, p: Path) returns (ok: bool)
    requires Closed(disk.fs) && HasFolder(disk.fs, p) && p != []
    modifies disk
    ensures ok
    ensures disk.fs == RemoveTree(old(disk.fs), p)
    decreases Below(disk.fs, p), 0
  {
    ghost var fs0 := disk.fs;
    var entries := ChildNames(disk.fs, p);
    ghost var done: set<Name> := {};
    assert WithoutChildren(fs0, p, {}) == fs0;
    while entries != {}
      invariant ChildNames(fs0, p) == done + entries && done !! entries
      invariant disk.fs == WithoutChildren(fs0, p, done)
      decreases entries
    {
      var n :| n in entries;
      entries := entries - {n};
      WithoutChildrenClosed(fs0, p, done);
      ChildPresent(fs0, p, done, n);
      RemoveEntry(disk, p + [n]);
      ChildRemoved(fs0, p, done, n);
      done := done + {n};
    }
    AllChildrenRemoved(fs0, p);
    ok := disk.Rmdir(p);
  }

  /** The part of the loop that removes one entry: a folder recursively, a file with unlink. */
  method RemoveEntry(disk: Disk, child: Path)
    requires Closed(disk.fs) && child in disk.fs && child != []
    modifies disk
    ensures disk.fs == RemoveTree(old(disk.fs), child)
    decreases Below(disk.fs, child), 1
  {
    var isFolder := disk.FolderExists(child);
    if isFolder {
      var ok := RemoveDirectory(disk, child);
    } else {
      ghost var fs1 := disk.fs;
      forall q | q in fs1 && child <= q ensures q == child { ClosedUp(fs1, child, q); }
      var ok := disk.Unlink(child);
      assert fs1 - {child} == RemoveTree(fs1, child);
    }
  }

  lemma ChildPresent(fs: Tree, p: Path, done: set<Name>, n: Name)
    requires n in ChildNames(fs, p) && n !in done
    ensures p + [n] in WithoutChildren(fs, p, done)
    ensures Below(WithoutChildren(fs, p, done), p + [n]) < Below(fs, p)
  {
    var q :| q in fs && |q| == |p| + 1 && p < q && q[|p|] == n;
    assert q == p + [n];
    var child := p + [n];
    assert child in Below(fs, p) && child !in Below(WithoutChildren(fs, p, done), child);
  }

  lemma AllChildrenRemoved(fs: Tree, p: Path)
    requires Closed(fs) && HasFolder(fs, p)
    ensures var r := WithoutChildren(fs, p, ChildNames(fs, p));
            HasFolder(r, p) && (forall q :: q in r && p <= q ==> q == p) && r - {p} == RemoveTree(fs, p)
  {
    forall q | q in fs && p < q ensures q[|p|] in ChildNames(fs, p) { OnlyRootLeft(fs, p, q); }
  }

  /** One received path: a folder goes with everything below it, a file goes alone, anything else is no change. */
  method DeletePath(disk: Disk, p: Path)
    requires Closed(disk.fs) && p != []
    modifies disk
    ensures Some(disk.fs) == Step(old(disk.fs), Delete(p), disk.clock)
    ensures Closed(disk.fs)
  {
    StepClosed(disk.fs, Delete(p), disk.clock);
    var isFolder := disk.FolderExists(p);
    if isFolder {
      var ok := RemoveDirectory(disk, p);
    } else {
      var isFile := disk.FileExists(p);
      if isFile {
        var ok := disk.Unlink(p);
      } else {
        assert disk.fs - {p} == disk.fs;
      }
    }
  }

  /** deleteReceiveFile */
  method DeleteReceiveFile(ch: Channel, disk: Disk, dir: string)
    requires Closed(disk.fs) && Resolve(dir) != []
    modifies ch, disk
    ensures var r := DelRun(dir, "", old(ch.data));
            Some(disk.fs) == Replay(old(disk.fs), r.msgs, disk.clock) && ch.data == r.rest
    ensures Closed(disk.fs)
  {
    var b := new Buffer();
    while true
      invariant b.Valid() && fresh(b) && fresh(b.mem) && Closed(disk.fs)
      invariant DelRun(dir, b.Chars(), ch.data).rest == DelRun(dir, "", old(ch.data)).rest
      invariant Replay(disk.fs, DelRun(dir, b.Chars(), ch.data).msgs, disk.clock) ==
                Replay(old(disk.fs), DelRun(dir, "", old(ch.data)).msgs, disk.clock)
      decreases |ch.data|
    {
      ghost var before := DelRun(dir, b.Chars(), ch.data);
      var ok, c := ch.ReadChar();
      if !ok { return; }
      if c == '{' {
        continue;
      } else if c == '}' {
        var text := b.Text();
        if text == "SYNC_DELETE_DONE" { return; }
        var filePath := dir + text;
        if |filePath| > PATH_LIMIT { continue; }
        ResolveNonEmpty(dir, text);
        DeletePath(disk, Resolve(filePath));
        b.Reset();
        assert before.msgs[1..] == DelRun(dir, "", ch.data).msgs;
      } else {
        if c == NUL { continue; }
        b.Append(c);
      }
    }
  }
}
