/** The top-level reader of the command stream, and the proof that it performs exactly what was sent. */
module Receiver {
  import opened Text
  import opened FileSystem
  import opened Runtime
  import opened UpdateReader
  import opened DeleteReader
  import opened CreateReader

  /** One updated file: its path, then its content. A path over the limit is skipped and stays in the buffer. */
  function FileRun(dir: string, buf: string, bytes: string): (r: Parsed)
    ensures |r.rest| <= |bytes|
    decreases |bytes|
  {
    if bytes == "" then Parsed([], "")
    else
      var c, rest := bytes[0], bytes[1..];
      if c == '{' || c == NUL then FileRun(dir, buf, rest)
      else if c != '}' then FileRun(dir, buf + [c], rest)
      else if CStr(buf) == "SYNC_UPDATE_DONE" then Parsed([], rest)
      else if |dir + CStr(buf)| > PATH_LIMIT then FileRun(dir, buf, rest)
      else
        var u := UpdRun(UpdStart, rest);
        Parsed([Update(Resolve(dir + CStr(buf)), u.out)], u.rest)
  }

  /** The replica's directory as the update branch builds it, and as the delete and create branches do. */
  function UpdateDir(dirname: string, rootName: string): string {
    dirname + "/" + rootName
  }

  function PlainDir(dirname: string, rootName: string): string {
    if (dirname != "" && dirname[|dirname| - 1] == '/') || (rootName != "" && rootName[0] == '/')
    then dirname + rootName else dirname + "/" + rootName
  }

  /** The messages one synchronisation stream performs, up to its DONE_CONTROL. */
  function TopRun(dn: string, rn: string, buf: string, bytes: string): (r: Parsed)
    ensures |r.rest| <= |bytes|
    decreases |bytes|
  {
    if bytes == "" then Parsed([], "")
    else
      var c, rest := bytes[0], bytes[1..];
      var w := CStr(buf);
      if c == '{' then TopRun(dn, rn, buf, rest)
      else if c != '}' then TopRun(dn, rn, buf + [c], rest)
      else if w == "DONE_CONTROL" then Parsed([], rest)
      else if w == "SYNC_UPDATE_DONE" || w == "SYNC_DELETE_DONE" || w == "SYNC_CREATE_DONE" then TopRun(dn, rn, "", rest)
      else if IsSection(w) then
        var s := Section(dn, rn, w, rest);
        Prepend(s.msgs, TopRun(dn, rn, "", s.rest))
      else TopRun(dn, rn, buf, rest)
  }

  predicate IsSection(w: string) {
    w == "SYNC_FILE" || w == "SYNC_DELETE" || w == "SYNC_CREATE"
  }

  /** What the nested reader a keyword starts makes of the stream. */
  function Section(dn: string, rn: string, w: string, bytes: string): (r: Parsed)
    ensures |r.rest| <= |bytes|
  {
    if w == "SYNC_FILE" then FileRun(UpdateDir(dn, rn), "", bytes)
    else if w == "SYNC_DELETE" then DelRun(PlainDir(dn, rn), "", bytes)
    else CreRun(PlainDir(dn, rn), Idle(""), bytes)
  }

  /** Both ways of building the directory string name the same folder; the update branch's may be one character longer. */
  lemma DirsAgree(dn: string, rn: string)
    requires GoodName(rn) && dn != ""
    ensures Resolve(UpdateDir(dn, rn)) == Resolve(dn) + [rn]
    ensures Resolve(PlainDir(dn, rn)) == Resolve(dn) + [rn]
    ensures |UpdateDir(dn, rn)| == |dn| + 1 + |rn|
    ensures |PlainDir(dn, rn)| == |dn| + (if dn[|dn| - 1] == '/' then 0 else 1) + |rn|
  {
    ResolveRendered(dn, [rn]);
    assert [rn][1..] == [];
    assert Render([rn]) == "/" + rn;
    assert UpdateDir(dn, rn) == dn + Render([rn]);
    assert rn[0] in rn;
    if dn[|dn| - 1] == '/' {
      var d := dn[..|dn| - 1];
      assert dn == d + "/" && PlainDir(dn, rn) == d + Render([rn]);
      ResolveRendered(d, [rn]);
      ComponentsAppend("", d, "/");
    }
  }

  // ---------------------------------------------------------------------------------------------
  // What the sender prints

  /** The bytes of one update, delete or create command. */
  function Bytes(m: Msg): string {
    match m
    case Update(p, c) => FileCommand(Render(p), c)
    case Delete(p) => Marker(Render(p))
    case MkDir(p) => FolderCommand(Render(p))
    case Create(p, c) => FileCommand(Render(p), c)
  }

  function AllBytes(ms: seq<Msg>): string {
    if ms == [] then "" else Bytes(ms[0]) + AllBytes(ms[1..])
  }

  lemma {:induction false} AllBytesConcat(a: seq<Msg>, b: seq<Msg>)
    ensures AllBytes(a + b) == AllBytes(a) + AllBytes(b)
    decreases |a|
  {
    hide Bytes;
    if a == [] {
      assert a + b == b;
    } else {
      assert (a + b)[1..] == a[1..] + b;
      AllBytesConcat(a[1..], b);
    }
  }

  /** One whole diff: updates, deletes, creates, each phase with its markers. */
  function DiffBytes(ups: seq<Msg>, dels: seq<Msg>, news: seq<Msg>): string {
    AllBytes(ups) + Marker("SYNC_UPDATE_DONE") +
    Marker("SYNC_DELETE") + AllBytes(dels) + Marker("SYNC_DELETE_DONE") +
    Marker("SYNC_CREATE") + AllBytes(news) + Marker("SYNC_CREATE_DONE")
  }

  /** The path prints to text every reader takes for a path, within the length limit. */
  predicate Sendable(dir: string, p: Path) {
    p != [] && GoodPath(p) && |dir + Render(p)| <= PATH_LIMIT
  }

  predicate SendableUpdate(dir: string, m: Msg) {
    m.Update? && Sendable(dir, m.path) && UpdateOk(m.content)
  }

  predicate SendableDelete(dir: string, m: Msg) {
    m.Delete? && Sendable(dir, m.path)
  }

  predicate SendableCreate(m: Msg) {
    (m.MkDir? || (m.Create? && CreateOk(m.content))) && m.path != [] && GoodPath(m.path)
  }

  /** A relative message as the receiver performs it. */
  function Rebased(base: Path, m: Msg): Msg {
    match m
    case Update(p, c) => Update(base + p, c)
    case Delete(p) => Delete(base + p)
    case MkDir(p) => MkDir(base + p)
    case Create(p, c) => Create(base + p, c)
  }

  function AllRebased(base: Path, ms: seq<Msg>): (r: seq<Msg>)
    ensures |r| == |ms|
    ensures forall i :: 0 <= i < |ms| ==> r[i] == Rebased(base, ms[i])
  {
    if ms == [] then [] else [Rebased(base, ms[0])] + AllRebased(base, ms[1..])
  }

  lemma AllRebasedConcat(base: Path, a: seq<Msg>, b: seq<Msg>)
    ensures AllRebased(base, a + b) == AllRebased(base, a) + AllRebased(base, b)
  {
  }

  // ---------------------------------------------------------------------------------------------
  // Each reader on what its sender printed

  lemma {:induction false} FileReadsWord(dir: string, buf: string, w: string, t: string)
    requires Plain(w)
    ensures FileRun(dir, buf, w + t) == FileRun(dir, buf + w, t)
    decreases |w|
  {
    if w == "" {
      assert w + t == t && buf + w == buf;
    } else {
      assert w[0] in w;
      assert (w + t)[1..] == w[1..] + t;
      FileReadsWord(dir, buf + [w[0]], w[1..], t);
      assert buf + [w[0]] + w[1..] == buf + w;
    }
  }

  lemma {:induction false} FilesBelowRoot(dir: string, buf: string, bytes: string)
    requires Resolve(dir) != []
    ensures forall m :: m in FileRun(dir, buf, bytes).msgs ==> m.path != []
    decreases |bytes|
  {
    hide Resolve, UpdRun;
    if bytes != "" {
      var c, rest := bytes[0], bytes[1..];
      ResolveNonEmpty(dir, CStr(buf));
      FilesBelowRoot(dir, buf, rest);
      FilesBelowRoot(dir, buf + [c], rest);
    }
  }

  lemma FileReadsPath(dir: string, r: string, t: string)
    requires PathText(r) && |dir + r| <= PATH_LIMIT
    ensures FileRun(dir, "", Marker(r) + t) ==
            var u := UpdRun(UpdStart, t); Parsed([Update(Resolve(dir + r), u.out)], u.rest)
  {
    hide UpdRun, CStr;
    PathIsNoKeyword(r);
    assert Marker(r) + t == "{" + (r + ("}" + t));
    assert ("{" + (r + ("}" + t)))[1..] == r + ("}" + t);
    FileReadsWord(dir, "", r, "}" + t);
    assert "" + r == r;
    assert ("}" + t)[1..] == t;
  }

  /** An update whose path is over the limit swallows the rest of the stream: it, and all that follows, is lost. */
  lemma {:induction false} LongUpdateSwallows(dir: string, buf: string, bytes: string)
    requires PathText(buf) && |dir + buf| > PATH_LIMIT && NUL !in buf
    ensures FileRun(dir, buf, bytes) == Parsed([], "")
    decreases |bytes|
  {
    if bytes != "" {
      var c := bytes[0];
      assert "SYNC_UPDATE_DONE"[0] == 'S';
      if c == '{' || c == NUL || c == '}' {
        LongUpdateSwallows(dir, buf, bytes[1..]);
      } else {
        LongUpdateSwallows(dir, buf + [c], bytes[1..]);
      }
    }
  }

  /**
   * One update is performed with exactly its content, and exactly its bytes are consumed, if and only if its full path is
   * within the limit and its content is one the reader reproduces.
   */
  lemma {:induction false} UpdateCommandExact(dir: string, r: string, c: string, t: string)
    requires PathText(r)
    ensures (FileRun(dir, "", Marker(r) + (FileBytes(c) + Marker("SYNC_DONE") + t)) ==
             Parsed([Update(Resolve(dir + r), c)], t)) <==>
            (|dir + r| <= 254 && UpdateOk(c))
  {
    var t2 := FileBytes(c) + Marker("SYNC_DONE") + t;
    if |dir + r| <= PATH_LIMIT {
      hide FileRun, UpdRun, FileBytes, CStr;
      FileReadsPath(dir, r, t2);
      UpdateExact(c, t);
    } else {
      MarkerSplit(r, t2);
      FileReadsWord(dir, "", r, "}" + t2);
      LongUpdateSwallows(dir, r, "}" + t2);
    }
  }

  lemma {:induction false} TopReadsWord(dn: string, rn: string, buf: string, w: string, t: string)
    requires Plain(w)
    ensures TopRun(dn, rn, buf, w + t) == TopRun(dn, rn, buf + w, t)
    decreases |w|
  {
    hide Section;
    if w == "" {
      assert w + t == t && buf + w == buf;
    } else {
      assert w[0] in w;
      assert (w + t)[1..] == w[1..] + t;
      TopReadsWord(dn, rn, buf + [w[0]], w[1..], t);
      assert buf + [w[0]] + w[1..] == buf + w;
    }
  }

  lemma TopReadsMarker(dn: string, rn: string, w: string, t: string)
    requires Plain(w)
    ensures w == "DONE_CONTROL" ==> TopRun(dn, rn, "", Marker(w) + t) == Parsed([], t)
    ensures w == "SYNC_UPDATE_DONE" || w == "SYNC_DELETE_DONE" || w == "SYNC_CREATE_DONE" ==>
              TopRun(dn, rn, "", Marker(w) + t) == TopRun(dn, rn, "", t)
    ensures IsSection(w) ==>
              TopRun(dn, rn, "", Marker(w) + t) ==
              var s := Section(dn, rn, w, t); Prepend(s.msgs, TopRun(dn, rn, "", s.rest))
  {
    hide Section, CStr;
    assert Marker(w) + t == "{" + (w + ("}" + t));
    assert ("{" + (w + ("}" + t)))[1..] == w + ("}" + t);
    TopReadsWord(dn, rn, "", w, "}" + t);
    assert "" + w == w;
    assert ("}" + t)[1..] == t;
  }

  lemma PrintedPath(dir: string, p: Path)
    requires p != [] && GoodPath(p)
    ensures PathText(Render(p)) && Resolve(dir + Render(p)) == Resolve(dir) + p
  {
    RenderPlain(p);
    ResolveRendered(dir, p);
  }

  lemma {:induction false} UpdateArrives(dn: string, rn: string, m: Msg, t: string)
    requires SendableUpdate(UpdateDir(dn, rn), m)
    ensures TopRun(dn, rn, "", Bytes(m) + t) ==
            Prepend([Rebased(Resolve(UpdateDir(dn, rn)), m)], TopRun(dn, rn, "", t))
  {
    hide TopRun, UpdRun, FileRun, CStr, Marker;
    var dir, r := UpdateDir(dn, rn), Render(m.path);
    PrintedPath(dir, m.path);
    var t2 := FileBytes(m.content) + Marker("SYNC_DONE") + t;
    assert Bytes(m) + t == Marker("SYNC_FILE") + (Marker(r) + t2);
    TopReadsMarker(dn, rn, "SYNC_FILE", Marker(r) + t2);
    FileReadsPath(dir, r, t2);
    UpdateExact(m.content, t);
  }

  lemma {:induction false} UpdatesArrive(dn: string, rn: string, ups: seq<Msg>, t: string)
    requires forall m :: m in ups ==> SendableUpdate(UpdateDir(dn, rn), m)
    ensures TopRun(dn, rn, "", AllBytes(ups) + t) ==
            Prepend(AllRebased(Resolve(UpdateDir(dn, rn)), ups), TopRun(dn, rn, "", t))
    decreases |ups|
  {
    hide TopRun, Bytes, UpdateDir, Resolve, SendableUpdate, Rebased;
    if ups == [] {
      assert AllBytes(ups) + t == t;
      assert Prepend([], TopRun(dn, rn, "", t)) == TopRun(dn, rn, "", t);
    } else {
      assert AllBytes(ups) + t == Bytes(ups[0]) + (AllBytes(ups[1..]) + t);
      UpdateArrives(dn, rn, ups[0], AllBytes(ups[1..]) + t);
      UpdatesArrive(dn, rn, ups[1..], t);
    }
  }

  lemma {:induction false} DeletesArrive(dir: string, dels: seq<Msg>, t: string)
    requires forall m :: m in dels ==> SendableDelete(dir, m)
    ensures DelRun(dir, "", AllBytes(dels) + (Marker("SYNC_DELETE_DONE") + t)) ==
            Parsed(AllRebased(Resolve(dir), dels), t)
    decreases |dels|
  {
    hide DelRun, CStr, Resolve, Render, Marker;
    if dels == [] {
      assert AllBytes(dels) + (Marker("SYNC_DELETE_DONE") + t) == Marker("SYNC_DELETE_DONE") + t;
      DeleteReader.ReadsMarker(dir, "SYNC_DELETE_DONE", t);
    } else {
      var p := dels[0].path;
      assert dels[0] in dels;
      var t1 := AllBytes(dels[1..]) + (Marker("SYNC_DELETE_DONE") + t);
      assert AllBytes(dels) + (Marker("SYNC_DELETE_DONE") + t) == Marker(Render(p)) + t1;
      PrintedPath(dir, p);
      PathIsNoKeyword(Render(p));
      DeleteReader.ReadsMarker(dir, Render(p), t1);
      DeletesArrive(dir, dels[1..], t);
    }
  }

  lemma {:induction false} CreateArrives(dir: string, pb: string, m: Msg, t: string)
    requires SendableCreate(m)
    ensures exists pb' ::
              CreRun(dir, Idle(pb), Bytes(m) + t) ==
              Prepend([Rebased(Resolve(dir), m)], CreRun(dir, Idle(pb'), t))
  {
    hide CreRun, Resolve, Render, FileCommand, FolderCommand;
    PrintedPath(dir, m.path);
    if m.MkDir? {
      FolderCreated(dir, pb, Render(m.path), t);
    } else {
      FileCreated(dir, pb, Render(m.path), m.content, t);
    }
  }

  lemma {:induction false} CreatesArrive(dir: string, pb: string, news: seq<Msg>, t: string)
    requires forall m :: m in news ==> SendableCreate(m)
    ensures CreRun(dir, Idle(pb), AllBytes(news) + (Marker("SYNC_CREATE_DONE") + t)) ==
            Parsed(AllRebased(Resolve(dir), news), t)
    decreases |news|
  {
    hide CreRun, Resolve, Bytes, SendableCreate, Marker, Idle;
    if news == [] {
      assert AllBytes(news) + (Marker("SYNC_CREATE_DONE") + t) == Marker("SYNC_CREATE_DONE") + t;
      SectionEnds(dir, pb, t);
    } else {
      assert news[0] in news;
      var t1 := AllBytes(news[1..]) + (Marker("SYNC_CREATE_DONE") + t);
      assert AllBytes(news) + (Marker("SYNC_CREATE_DONE") + t) == Bytes(news[0]) + t1;
      CreateArrives(dir, pb, news[0], t1);
      var pb' :| CreRun(dir, Idle(pb), Bytes(news[0]) + t1) ==
                 Prepend([Rebased(Resolve(dir), news[0])], CreRun(dir, Idle(pb'), t1));
      CreatesArrive(dir, pb', news[1..], t);
    }
  }

  lemma DeletePhase(dn: string, rn: string, dels: seq<Msg>, t: string)
    requires dn != "" && GoodName(rn)
    requires forall m :: m in dels ==> SendableDelete(UpdateDir(dn, rn), m)
    ensures TopRun(dn, rn, "", Marker("SYNC_DELETE") + (AllBytes(dels) + (Marker("SYNC_DELETE_DONE") + t))) ==
            Prepend(AllRebased(Resolve(dn) + [rn], dels), TopRun(dn, rn, "", t))
  {
    hide TopRun, AllBytes, DelRun, Resolve, Marker, GoodName, PlainDir, UpdateDir, Render, GoodPath;
    DirsAgree(dn, rn);
    DeletesArrive(PlainDir(dn, rn), dels, t);
    TopReadsMarker(dn, rn, "SYNC_DELETE", AllBytes(dels) + (Marker("SYNC_DELETE_DONE") + t));
  }

  lemma CreatePhase(dn: string, rn: string, news: seq<Msg>, t: string)
    requires dn != "" && GoodName(rn)
    requires forall m :: m in news ==> SendableCreate(m)
    ensures TopRun(dn, rn, "", Marker("SYNC_CREATE") + (AllBytes(news) + (Marker("SYNC_CREATE_DONE") + t))) ==
            Prepend(AllRebased(Resolve(dn) + [rn], news), TopRun(dn, rn, "", t))
  {
    hide TopRun, AllBytes, CreRun, Resolve, Marker, GoodName, SendableCreate;
    DirsAgree(dn, rn);
    CreatesArrive(PlainDir(dn, rn), "", news, t);
    TopReadsMarker(dn, rn, "SYNC_CREATE", AllBytes(news) + (Marker("SYNC_CREATE_DONE") + t));
  }

  lemma PhasesConcat(base: Path, ups: seq<Msg>, dels: seq<Msg>, news: seq<Msg>)
    ensures AllRebased(base, ups) + (AllRebased(base, dels) + (AllRebased(base, news) + [])) ==
            AllRebased(base, ups + dels + news)
  {
    AllRebasedConcat(base, ups, dels);
    AllRebasedConcat(base, ups + dels, news);
    hide AllRebased;
    var u, d, n := AllRebased(base, ups), AllRebased(base, dels), AllRebased(base, news);
    assert n + [] == n;
    assert u + (d + n) == (u + d) + n;
  }

  /**
   * The stream refines the message list: run on the bytes of any diff, followed by the closing DONE_CONTROL and
   * anything else, the nested readers perform exactly its messages in order and leave exactly what follows.
   */
  lemma {:induction false} StreamRefinement(
      dn: string, rn: string, ups: seq<Msg>, dels: seq<Msg>, news: seq<Msg>, t: string)
    requires dn != "" && GoodName(rn)
    requires forall m :: m in ups ==> SendableUpdate(UpdateDir(dn, rn), m)
    requires forall m :: m in dels ==> SendableDelete(UpdateDir(dn, rn), m)
    requires forall m :: m in news ==> SendableCreate(m)
    ensures TopRun(dn, rn, "", DiffBytes(ups, dels, news) + (Marker("DONE_CONTROL") + t)) ==
            Parsed(AllRebased(Resolve(dn) + [rn], ups + dels + news), t)
  {
    hide TopRun, AllBytes, Resolve, Marker, GoodName, SendableUpdate, SendableDelete, SendableCreate, UpdateDir;
    hide AllRebased;
    var t1 := Marker("DONE_CONTROL") + t;
    var t2 := Marker("SYNC_CREATE") + (AllBytes(news) + (Marker("SYNC_CREATE_DONE") + t1));
    var t3 := Marker("SYNC_DELETE") + (AllBytes(dels) + (Marker("SYNC_DELETE_DONE") + t2));
    assert DiffBytes(ups, dels, news) + t1 == AllBytes(ups) + (Marker("SYNC_UPDATE_DONE") + t3);
    DirsAgree(dn, rn);
    UpdatesArrive(dn, rn, ups, Marker("SYNC_UPDATE_DONE") + t3);
    TopReadsMarker(dn, rn, "SYNC_UPDATE_DONE", t3);
    DeletePhase(dn, rn, dels, t2);
    CreatePhase(dn, rn, news, t1);
    TopReadsMarker(dn, rn, "DONE_CONTROL", t);
    PhasesConcat(Resolve(dn) + [rn], ups, dels, news);
  }

  // ---------------------------------------------------------------------------------------------
  // What arrives unchanged is all that can

  lemma {:induction false} FilesOnlyUpdate(dir: string, buf: string, bytes: string)
    ensures forall m :: m in FileRun(dir, buf, bytes).msgs ==> m.Update?
    decreases |bytes|
  {
    hide Resolve, UpdRun, CStr;
    if bytes != "" {
      FilesOnlyUpdate(dir, buf, bytes[1..]);
      FilesOnlyUpdate(dir, buf + [bytes[0]], bytes[1..]);
    }
  }

  lemma {:induction false} DeletesOnly(dir: string, buf: string, bytes: string)
    ensures forall m :: m in DelRun(dir, buf, bytes).msgs ==> m.Delete?
    decreases |bytes|
  {
    hide Resolve, CStr;
    if bytes != "" {
      DeletesOnly(dir, buf, bytes[1..]);
      DeletesOnly(dir, buf + [bytes[0]], bytes[1..]);
      DeletesOnly(dir, "", bytes[1..]);
    }
  }

  /** Whatever arrives, every file it creates holds a content of the kind a create transfers. */
  lemma {:induction false} TopCreatesOk(dn: string, rn: string, buf: string, bytes: string)
    ensures forall m :: m in TopRun(dn, rn, buf, bytes).msgs && m.Create? ==> CreateOk(m.content)
    decreases |bytes|
  {
    hide CStr, IsSection, CreateOk;
    if bytes != "" {
      var c, rest, w := bytes[0], bytes[1..], CStr(buf);
      TopCreatesOk(dn, rn, buf, rest);
      TopCreatesOk(dn, rn, buf + [c], rest);
      TopCreatesOk(dn, rn, "", rest);
      SectionCreatesOk(dn, rn, w, rest);
      hide Section;
      TopCreatesOk(dn, rn, "", Section(dn, rn, w, rest).rest);
    }
  }

  lemma SectionCreatesOk(dn: string, rn: string, w: string, bytes: string)
    ensures forall m :: m in Section(dn, rn, w, bytes).msgs && m.Create? ==> CreateOk(m.content)
  {
    hide FileRun, DelRun, CreRun, CreateOk;
    FilesOnlyUpdate(UpdateDir(dn, rn), "", bytes);
    DeletesOnly(PlainDir(dn, rn), "", bytes);
    CreatesPlain(PlainDir(dn, rn), Idle(""), bytes);
  }

  /** An update whose path fits is performed on its file, with its own content exactly if the reader reproduces that. */
  lemma {:induction false} UpdateShows(dn: string, rn: string, m: Msg, t: string) returns (m': Msg, t': string)
    requires m.Update? && Sendable(UpdateDir(dn, rn), m.path)
    ensures TopRun(dn, rn, "", Bytes(m) + t) == Prepend([m'], TopRun(dn, rn, "", t'))
    ensures m' == Rebased(Resolve(UpdateDir(dn, rn)), m) <==> UpdateOk(m.content)
    ensures UpdateOk(m.content) ==> t' == t
  {
    hide TopRun, UpdRun, FileRun, CStr, Marker;
    var dir, r := UpdateDir(dn, rn), Render(m.path);
    PrintedPath(dir, m.path);
    var t2 := FileBytes(m.content) + Marker("SYNC_DONE") + t;
    assert Bytes(m) + t == Marker("SYNC_FILE") + (Marker(r) + t2);
    TopReadsMarker(dn, rn, "SYNC_FILE", Marker(r) + t2);
    FileReadsPath(dir, r, t2);
    UpdateExact(m.content, t);
    UpdateOutExact(m.content, t);
    var u := UpdRun(UpdStart, t2);
    m', t' := Update(Resolve(dir + r), u.out), u.rest;
  }

  /** One content an update cannot transfer makes the messages performed differ from those sent, whatever follows. */
  lemma {:induction false} BadUpdateShows(dn: string, rn: string, ups: seq<Msg>, x: Msg, t: string, more: seq<Msg>)
    requires forall m :: m in ups ==> m.Update? && Sendable(UpdateDir(dn, rn), m.path)
    requires x in ups && !UpdateOk(x.content)
    ensures TopRun(dn, rn, "", AllBytes(ups) + t).msgs != AllRebased(Resolve(UpdateDir(dn, rn)), ups) + more
    decreases |ups|
  {
    hide TopRun, Bytes, UpdateDir, Resolve, Sendable, Rebased, UpdateOk;
    var base := Resolve(UpdateDir(dn, rn));
    FirstBytes(ups, t);
    var m', t' := UpdateShows(dn, rn, ups[0], AllBytes(ups[1..]) + t);
    if UpdateOk(ups[0].content) {
      assert x in ups[1..];
      BadUpdateShows(dn, rn, ups[1..], x, t, more);
    }
    hide AllBytes, AllRebased;
    FirstDiffers(base, ups, m', TopRun(dn, rn, "", t'), more);
  }

  lemma FirstBytes(ms: seq<Msg>, t: string)
    requires ms != []
    ensures AllBytes(ms) + t == Bytes(ms[0]) + (AllBytes(ms[1..]) + t)
  {
    Assoc(Bytes(ms[0]), AllBytes(ms[1..]), t);
  }

  lemma FirstDiffers(base: Path, ms: seq<Msg>, m: Msg, r: Parsed, more: seq<Msg>)
    requires ms != [] && (m != Rebased(base, ms[0]) || r.msgs != AllRebased(base, ms[1..]) + more)
    ensures Prepend([m], r).msgs != AllRebased(base, ms) + more
  {
    var performed, sent := Prepend([m], r).msgs, AllRebased(base, ms) + more;
    assert performed[0] == m && performed[1..] == r.msgs;
    assert sent[0] == Rebased(base, ms[0]) && sent[1..] == AllRebased(base, ms[1..]) + more;
  }

  /**
   * The stream performs exactly the messages of a diff, and leaves exactly what follows, if and only if every content is one
   * that its command transfers.
   */
  lemma {:induction false} StreamExact(
      dn: string, rn: string, ups: seq<Msg>, dels: seq<Msg>, news: seq<Msg>, t: string)
    requires dn != "" && GoodName(rn)
    requires forall m :: m in ups ==> m.Update? && Sendable(UpdateDir(dn, rn), m.path)
    requires forall m :: m in dels ==> SendableDelete(UpdateDir(dn, rn), m)
    requires forall m :: m in news ==> (m.MkDir? || m.Create?) && m.path != [] && GoodPath(m.path)
    ensures (TopRun(dn, rn, "", DiffBytes(ups, dels, news) + (Marker("DONE_CONTROL") + t)) ==
             Parsed(AllRebased(Resolve(dn) + [rn], ups + dels + news), t)) <==>
            ((forall m :: m in ups ==> UpdateOk(m.content)) &&
             (forall m :: m in news && m.Create? ==> CreateOk(m.content)))
  {
    hide TopRun, AllBytes, Resolve, Marker, GoodName, GoodPath, UpdateDir, UpdateOk, CreateOk, AllRebased, Rebased, DiffBytes;
    var base, ms := Resolve(dn) + [rn], ups + dels + news;
    var bytes := DiffBytes(ups, dels, news) + (Marker("DONE_CONTROL") + t);
    if x :| x in ups && !UpdateOk(x.content) {
      BadDiffShows(dn, rn, ups, dels, news, x, Marker("DONE_CONTROL") + t);
    } else if x :| x in news && x.Create? && !CreateOk(x.content) {
      assert x in ms;
      var i :| 0 <= i < |ms| && ms[i] == x;
      RebasedKeeps(base, x);
      TopCreatesOk(dn, rn, "", bytes);
      assert AllRebased(base, ms)[i] in AllRebased(base, ms);
    } else {
      StreamRefinement(dn, rn, ups, dels, news, t);
    }
  }

  lemma RebasedKeeps(base: Path, m: Msg)
    ensures Rebased(base, m).Create? <==> m.Create?
    ensures m.Create? ==> Rebased(base, m).content == m.content
  {
  }

  lemma BadDiffShows(dn: string, rn: string, ups: seq<Msg>, dels: seq<Msg>, news: seq<Msg>, x: Msg, t: string)
    requires dn != "" && GoodName(rn)
    requires forall m :: m in ups ==> m.Update? && Sendable(UpdateDir(dn, rn), m.path)
    requires x in ups && !UpdateOk(x.content)
    ensures TopRun(dn, rn, "", DiffBytes(ups, dels, news) + t).msgs !=
            AllRebased(Resolve(dn) + [rn], ups + dels + news)
  {
    hide TopRun, AllBytes, Resolve, Marker, GoodName, Sendable, UpdateOk, UpdateDir, AllRebased;
    var base := Resolve(dn) + [rn];
    var t2 := Marker("SYNC_CREATE") + (AllBytes(news) + (Marker("SYNC_CREATE_DONE") + t));
    var t3 := Marker("SYNC_DELETE") + (AllBytes(dels) + (Marker("SYNC_DELETE_DONE") + t2));
    assert DiffBytes(ups, dels, news) + t == AllBytes(ups) + (Marker("SYNC_UPDATE_DONE") + t3);
    DirsAgree(dn, rn);
    AllRebasedConcat(base, ups, dels + news);
    assert ups + dels + news == ups + (dels + news);
    BadUpdateShows(dn, rn, ups, x, Marker("SYNC_UPDATE_DONE") + t3, AllRebased(base, dels + news));
  }

  // ---------------------------------------------------------------------------------------------
  // The loops

  /** syncReceiveFile. The process exits when the file cannot be opened. */
  method SyncReceiveFile(ch: Channel, disk: Disk, dir: string) returns (exited: bool)
    modifies ch, disk
    ensures var r := FileRun(dir, "", old(ch.data));
            && Replay(old(disk.fs), r.msgs, disk.clock) == (if exited then None else Some(disk.fs))
            && (!exited ==> ch.data == r.rest)
            && |ch.data| <= |old(ch.data)|
  {
    var b := new Buffer();
    exited := false;
    while true
      invariant b.Valid() && fresh(b) && fresh(b.mem) && !exited
      invariant disk.fs == old(disk.fs)
      invariant FileRun(dir, b.Chars(), ch.data) == FileRun(dir, "", old(ch.data))
      invariant |ch.data| <= |old(ch.data)|
      decreases |ch.data|
    {
      var ok, c := ch.ReadChar();
      if !ok { return; }
      if c == '{' {
        continue;
      } else if c == '}' {
        var text := b.Text();
        if text == "SYNC_UPDATE_DONE" { return; }
        var filePath := dir + text;
        if |filePath| > PATH_LIMIT { continue; }
        var opened_ := disk.OpenTruncated(Resolve(filePath));
        ghost var m := Update(Resolve(filePath), UpdRun(UpdStart, ch.data).out);
        assert FileRun(dir, "", old(ch.data)).msgs == [m];
        ReplayOne(old(disk.fs), m, disk.clock);
        if !opened_ { return true; }
        ReadSocketWriteFile(ch, disk, Resolve(filePath));
        assert disk.fs == old(disk.fs)[m.path := File(m.content, disk.clock(m.path))];
        return;
      } else {
        if c == NUL { continue; }
        b.Append(c);
      }
    }
  }

  /** syncCheckReceive: the stream up to DONE_CONTROL, performed on the disk. */
  method SyncCheckReceive(ch: Channel, disk: Disk, dn: string, rn: string) returns (exited: bool)
    requires dn != "" && GoodName(rn) && Closed(disk.fs)
    modifies ch, disk
    ensures var r := TopRun(dn, rn, "", old(ch.data));
            && Replay(old(disk.fs), r.msgs, disk.clock) == (if exited then None else Some(disk.fs))
            && (!exited ==> ch.data == r.rest)
  {
    DirsAgree(dn, rn);
    var b := new Buffer();
    exited := false;
    while true
      invariant b.Valid() && fresh(b) && fresh(b.mem) && Closed(disk.fs) && !exited
      invariant TopRun(dn, rn, b.Chars(), ch.data).rest == TopRun(dn, rn, "", old(ch.data)).rest
      invariant Replay(disk.fs, TopRun(dn, rn, b.Chars(), ch.data).msgs, disk.clock) ==
                Replay(old(disk.fs), TopRun(dn, rn, "", old(ch.data)).msgs, disk.clock)
      decreases |ch.data|
    {
      var ok, c := ch.ReadChar();
      if !ok { return; }
      if c == '{' {
        continue;
      } else if c == '}' {
        var w := b.Text();
        if w == "DONE_CONTROL" {
          return;
        } else if w == "SYNC_UPDATE_DONE" || w == "SYNC_DELETE_DONE" || w == "SYNC_CREATE_DONE" {
          b.Reset();
        } else if IsSection(w) {
          exited := ReceiveSection(ch, disk, dn, rn, w);
          if exited { return; }
          b.Reset();
        }
      } else {
        b.Append(c);
      }
    }
  }

  /** The nested reader a keyword starts, with what remains to be performed after it. */
  method ReceiveSection(ch: Channel, disk: Disk, dn: string, rn: string, w: string) returns (exited: bool)
    requires dn != "" && GoodName(rn) && Closed(disk.fs) && IsSection(w)
    modifies ch, disk
    ensures !exited ==> Closed(disk.fs)
    ensures |ch.data| <= |old(ch.data)|
    ensures var s := Section(dn, rn, w, old(ch.data));
            var after := TopRun(dn, rn, "", s.rest);
            && (!exited ==> ch.data == s.rest)
            && Replay(old(disk.fs), s.msgs + after.msgs, disk.clock) ==
               (if exited then None else Replay(disk.fs, after.msgs, disk.clock))
  {
    DirsAgree(dn, rn);
    ghost var fs0 := disk.fs;
    ghost var s := Section(dn, rn, w, ch.data);
    ReplayConcat(fs0, s.msgs, TopRun(dn, rn, "", s.rest).msgs, disk.clock);
    if w == "SYNC_FILE" {
      FilesBelowRoot(UpdateDir(dn, rn), "", ch.data);
      exited := SyncReceiveFile(ch, disk, UpdateDir(dn, rn));
      ReplayShape(fs0, s.msgs, disk.clock);
    } else if w == "SYNC_DELETE" {
      DeleteReceiveFile(ch, disk, PlainDir(dn, rn));
      exited := false;
    } else {
      CreateReceiveFile(ch, disk, PlainDir(dn, rn));
      exited := false;
      CreatesBelowRoot(PlainDir(dn, rn), Idle(""), old(ch.data));
      ReplayShape(fs0, s.msgs, disk.clock);
    }
  }
}
