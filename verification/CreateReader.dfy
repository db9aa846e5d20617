/** The create section of the stream: new folders, and new files with their content. */
module CreateReader {
  import opened Text
  import opened FileSystem
  import opened Runtime
  import opened UpdateReader
  import opened DeleteReader

  datatype CreState = CreState(buf: string, pathBuf: string, folderFlag: bool, fileFlag: bool, contentCount: bool)

  /** Between two commands; the path buffer keeps whatever was there. */
  function Idle(pathBuf: string): CreState {
    CreState("", pathBuf, false, false, false)
  }

  /** The file created when an opening brace ends a content. */
  function Flushed(dir: string, st: CreState): seq<Msg> {
    if st.contentCount && CStr(st.buf) != "EMPTY_FILE" && CStr(st.pathBuf) != "EMPTY_FILE"
    then [Create(Resolve(dir + CStr(st.pathBuf)), CStr(st.buf))] else []
  }

  function AfterOpenBrace(st: CreState): CreState {
    if st.contentCount then st.(contentCount := false, buf := "") else st
  }

  function Made(dir: string, st: CreState): seq<Msg> {
    var w := CStr(st.buf);
    if w != "SYNC_FOLDER" && st.folderFlag && w != "SYNC_DONE" then [MkDir(Resolve(dir + w))] else []
  }

  function AfterCloseBrace(st: CreState): CreState {
    var w := CStr(st.buf);
    var st' :=
      if w == "SYNC_FOLDER" then st.(folderFlag := true)
      else if w == "SYNC_DONE" && st.folderFlag then st.(folderFlag := false)
      else if st.folderFlag then st
      else if w == "SYNC_FILE" then st.(fileFlag := true)
      else if w == "SYNC_DONE" && st.fileFlag then st.(fileFlag := false)
      else if st.fileFlag && !st.contentCount then st.(pathBuf := w, contentCount := true)
      else st;
    st'.(buf := "")
  }

  predicate EndsSection(st: CreState) {
    CStr(st.buf) == "SYNC_CREATE_DONE" && !st.folderFlag && !st.fileFlag
  }

  function Prepend(ms: seq<Msg>, r: Parsed): Parsed {
    Parsed(ms + r.msgs, r.rest)
  }

  /** The messages the create section performs from a given state on, and what it leaves unread. */
  function CreRun(dir: string, st: CreState, bytes: string): (r: Parsed)
    ensures |r.rest| <= |bytes|
    decreases |bytes|
  {
    if bytes == "" then Parsed([], "")
    else
      var c, rest := bytes[0], bytes[1..];
      if c == '{' then Prepend(Flushed(dir, st), CreRun(dir, AfterOpenBrace(st), rest))
      else if c == NUL then CreRun(dir, st, rest)
      else if c != '}' then CreRun(dir, st.(buf := st.buf + [c]), rest)
      else if EndsSection(st) then Parsed([], rest)
      else Prepend(Made(dir, st), CreRun(dir, AfterCloseBrace(st), rest))
  }

  // ---------------------------------------------------------------------------------------------
  // Reading one command

  lemma {:induction false} CollectsWord(dir: string, st: CreState, w: string, t: string)
    requires Plain(w)
    ensures CreRun(dir, st, w + t) == CreRun(dir, st.(buf := st.buf + w), t)
    decreases |w|
  {
    if w == "" {
      assert w + t == t && st.buf + w == st.buf;
    } else {
      assert w[0] in w;
      assert (w + t)[1..] == w[1..] + t;
      CollectsWord(dir, st.(buf := st.buf + [w[0]]), w[1..], t);
      assert st.buf + [w[0]] + w[1..] == st.buf + w;
    }
  }

  lemma OpensCreate(dir: string, st: CreState, t: string)
    ensures CreRun(dir, st, "{" + t) == Prepend(Flushed(dir, st), CreRun(dir, AfterOpenBrace(st), t))
  {
    assert ("{" + t)[1..] == t;
  }

  lemma ClosesCreate(dir: string, st: CreState, t: string)
    ensures CreRun(dir, st, "}" + t) ==
            if EndsSection(st) then Parsed([], t)
            else Prepend(Made(dir, st), CreRun(dir, AfterCloseBrace(st), t))
  {
    assert ("}" + t)[1..] == t;
  }

  /** A marker read while the buffer is empty or holds a content to flush. */
  lemma ReadsCreateMarker(dir: string, st: CreState, w: string, t: string)
    requires Plain(w) && (st.buf == "" || st.contentCount)
    ensures var st1 := st.(buf := w, contentCount := false);
            CreRun(dir, st, Marker(w) + t) ==
            Prepend(Flushed(dir, st),
                    if EndsSection(st1) then Parsed([], t)
                    else Prepend(Made(dir, st1), CreRun(dir, AfterCloseBrace(st1), t)))
  {
    assert Marker(w) + t == "{" + (w + ("}" + t));
    OpensCreate(dir, st, w + ("}" + t));
    CollectsWord(dir, AfterOpenBrace(st), w, "}" + t);
    assert "" + w == w;
    ClosesCreate(dir, st.(buf := w, contentCount := false), t);
  }

  function FolderCommand(r: string): string {
    Marker("SYNC_FOLDER") + Marker(r) + Marker("SYNC_DONE")
  }

  function FileCommand(r: string, c: string): string {
    Marker("SYNC_FILE") + Marker(r) + FileBytes(c) + Marker("SYNC_DONE")
  }

  /** A printed path: plain, and no keyword because keywords do not start with a slash. */
  predicate PathText(r: string) {
    Plain(r) && r != "" && r[0] == '/'
  }

  lemma PathIsNoKeyword(r: string)
    requires PathText(r)
    ensures r != "SYNC_FOLDER" && r != "SYNC_DONE" && r != "SYNC_FILE" && r != "SYNC_CREATE_DONE"
    ensures r != "EMPTY_FILE" && r != "SYNC_UPDATE_DONE" && r != "SYNC_DELETE_DONE"
  {
    assert "SYNC_FOLDER"[0] == 'S' && "SYNC_DONE"[0] == 'S' && "SYNC_FILE"[0] == 'S' && "SYNC_CREATE_DONE"[0] == 'S';
    assert "EMPTY_FILE"[0] == 'E' && "SYNC_UPDATE_DONE"[0] == 'S' && "SYNC_DELETE_DONE"[0] == 'S';
  }

  lemma {:induction false} FolderCreated(dir: string, pb: string, r: string, t: string)
    requires PathText(r)
    ensures CreRun(dir, Idle(pb), FolderCommand(r) + t) ==
            Prepend([MkDir(Resolve(dir + r))], CreRun(dir, Idle(pb), t))
  {
    hide CreRun, CStr;
    PathIsNoKeyword(r);
    var t2 := Marker("SYNC_DONE") + t;
    var t1 := Marker(r) + t2;
    assert FolderCommand(r) + t == Marker("SYNC_FOLDER") + t1;
    ReadsCreateMarker(dir, Idle(pb), "SYNC_FOLDER", t1);
    var st := Idle(pb).(folderFlag := true);
    ReadsCreateMarker(dir, st, r, t2);
    ReadsCreateMarker(dir, st, "SYNC_DONE", t);
  }

  /** The contents a create transfers unchanged. */
  predicate CreateOk(c: string) {
    Plain(c) && c != "EMPTY_FILE"
  }

  /** After the path the machine waits for the content. */
  function Awaiting(r: string): CreState {
    CreState("", r, false, true, true)
  }

  lemma {:induction false} ReadsPath(dir: string, pb: string, r: string, t: string)
    requires PathText(r)
    ensures CreRun(dir, Idle(pb), Marker("SYNC_FILE") + (Marker(r) + t)) == CreRun(dir, Awaiting(r), t)
  {
    hide CreRun, CStr;
    PathIsNoKeyword(r);
    ReadsCreateMarker(dir, Idle(pb), "SYNC_FILE", Marker(r) + t);
    ReadsCreateMarker(dir, Idle(pb).(fileFlag := true), r, t);
  }

  /** The content, then the end marker: what was collected is created and the machine is idle again. */
  lemma ContentThenDone'(dir: string, r: string, c: string, t: string)
    requires PathText(r) && Plain(c)
    ensures CreRun(dir, Awaiting(r), c + (Marker("SYNC_DONE") + t)) ==
            Prepend(if c == "EMPTY_FILE" then [] else [Create(Resolve(dir + r), c)], CreRun(dir, Idle(r), t))
  {
    hide CreRun, CStr;
    PathIsNoKeyword(r);
    CollectsWord(dir, Awaiting(r), c, Marker("SYNC_DONE") + t);
    assert "" + c == c;
    ReadsCreateMarker(dir, Awaiting(r).(buf := c), "SYNC_DONE", t);
  }

  /** The sentinel is read as one more path and then dropped. */
  lemma SentinelDropped(dir: string, r: string, c: string, t: string)
    requires PathText(r) && Plain(c) && c != "EMPTY_FILE"
    ensures exists pb ::
              CreRun(dir, Awaiting(r), c + (Marker("EMPTY_FILE") + (Marker("SYNC_DONE") + t))) ==
              Prepend([Create(Resolve(dir + r), c)], CreRun(dir, Idle(pb), t))
  {
    hide CreRun, CStr;
    PathIsNoKeyword(r);
    var t1 := Marker("SYNC_DONE") + t;
    CollectsWord(dir, Awaiting(r), c, Marker("EMPTY_FILE") + t1);
    assert "" + c == c;
    assert "EMPTY_FILE"[0] == 'E' && "SYNC_DONE"[0] == 'S' && "SYNC_FILE"[0] == 'S' && "SYNC_FOLDER"[0] == 'S';
    assert "SYNC_CREATE_DONE"[0] == 'S';
    ReadsCreateMarker(dir, Awaiting(r).(buf := c), "EMPTY_FILE", t1);
    ReadsCreateMarker(dir, Awaiting("EMPTY_FILE"), "SYNC_DONE", t);
    assert CreRun(dir, Awaiting(r), c + (Marker("EMPTY_FILE") + t1)) ==
           Prepend([Create(Resolve(dir + r), c)], CreRun(dir, Idle("EMPTY_FILE"), t));
  }

  /** Any content free of braces and NUL other than the sentinel's own text, of any length, is created exactly once. */
  lemma {:induction false} FileCreated(dir: string, pb: string, r: string, c: string, t: string)
    requires PathText(r) && CreateOk(c)
    ensures exists pb' ::
              CreRun(dir, Idle(pb), FileCommand(r, c) + t) ==
              Prepend([Create(Resolve(dir + r), c)], CreRun(dir, Idle(pb'), t))
  {
    var t1 := Marker("SYNC_DONE") + t;
    if |c| % BLOCK == 0 {
      assert FileCommand(r, c) + t == Marker("SYNC_FILE") + (Marker(r) + (c + (Marker("EMPTY_FILE") + t1)));
      ReadsPath(dir, pb, r, c + (Marker("EMPTY_FILE") + t1));
      SentinelDropped(dir, r, c, t);
    } else {
      assert FileCommand(r, c) + t == Marker("SYNC_FILE") + (Marker(r) + (c + t1));
      ReadsPath(dir, pb, r, c + t1);
      ContentThenDone'(dir, r, c, t);
    }
  }

  /** No file is ever created with a brace or a NUL in it, or with the sentinel's own text. */
  lemma {:induction false} CreatesPlain(dir: string, st: CreState, bytes: string)
    requires Plain(st.buf)
    ensures forall m :: m in CreRun(dir, st, bytes).msgs && m.Create? ==> CreateOk(m.content)
    decreases |bytes|
  {
    if bytes != "" {
      var c, rest := bytes[0], bytes[1..];
      if c == '{' {
        CreatesPlain(dir, AfterOpenBrace(st), rest);
      } else if c == '}' {
        CreatesPlain(dir, AfterCloseBrace(st), rest);
      } else if c != NUL {
        CreatesPlain(dir, st.(buf := st.buf + [c]), rest);
      } else {
        CreatesPlain(dir, st, rest);
      }
    }
  }

  lemma {:induction false} CreatesBelowRoot(dir: string, st: CreState, bytes: string)
    requires Resolve(dir) != []
    ensures forall m :: m in CreRun(dir, st, bytes).msgs ==> m.path != []
    decreases |bytes|
  {
    hide Resolve;
    if bytes != "" {
      var c, rest := bytes[0], bytes[1..];
      if c == '{' {
        ResolveNonEmpty(dir, CStr(st.pathBuf));
        CreatesBelowRoot(dir, AfterOpenBrace(st), rest);
      } else if c == '}' {
        ResolveNonEmpty(dir, CStr(st.buf));
        CreatesBelowRoot(dir, AfterCloseBrace(st), rest);
      } else if c != NUL {
        CreatesBelowRoot(dir, st.(buf := st.buf + [c]), rest);
      } else {
        CreatesBelowRoot(dir, st, rest);
      }
    }
  }

  lemma SectionEnds(dir: string, pb: string, t: string)
    ensures CreRun(dir, Idle(pb), Marker("SYNC_CREATE_DONE") + t) == Parsed([], t)
  {
    ReadsCreateMarker(dir, Idle(pb), "SYNC_CREATE_DONE", t);
  }

  lemma CreateOkArrives(dir: string, pb: string, r: string, c: string, t: string)
    requires PathText(r) && CreateOk(c)
    ensures CreRun(dir, Idle(pb), FileCommand(r, c) + (Marker("SYNC_CREATE_DONE") + t)) ==
            Parsed([Create(Resolve(dir + r), c)], t)
  {
    hide CreRun, CStr, FileCommand;
    var end := Marker("SYNC_CREATE_DONE") + t;
    FileCreated(dir, pb, r, c, end);
    var pb' :| CreRun(dir, Idle(pb), FileCommand(r, c) + end) ==
               Prepend([Create(Resolve(dir + r), c)], CreRun(dir, Idle(pb'), end));
    SectionEnds(dir, pb', t);
  }

  /** A file whose content is the sentinel's own text is silently not created. */
  lemma SentinelTextLost(dir: string, pb: string, r: string, t: string)
    requires PathText(r)
    ensures CreRun(dir, Idle(pb), FileCommand(r, "EMPTY_FILE") + (Marker("SYNC_CREATE_DONE") + t)) == Parsed([], t)
  {
    hide CreRun, CStr;
    var end := Marker("SYNC_CREATE_DONE") + t;
    var c := "EMPTY_FILE";
    var t1 := Marker("SYNC_DONE") + end;
    assert FileCommand(r, c) + end == Marker("SYNC_FILE") + (Marker(r) + (c + t1));
    ReadsPath(dir, pb, r, c + t1);
    ContentThenDone'(dir, r, c, end);
    SectionEnds(dir, r, t);
  }

  /** A content that ends in an opening brace arrives without it, over whatever was at the path. */
  lemma BraceCut(dir: string, pb: string, r: string, a: string, t: string)
    requires PathText(r) && CreateOk(a) && |a + "{"| % BLOCK != 0
    ensures CreRun(dir, Idle(pb), FileCommand(r, a + "{") + (Marker("SYNC_CREATE_DONE") + t)) ==
            Parsed([Create(Resolve(dir + r), a)], t)
  {
    hide CreRun, CStr, Marker;
    PathIsNoKeyword(r);
    var end := Marker("SYNC_CREATE_DONE") + t;
    var t1 := Marker("SYNC_DONE") + end;
    assert FileCommand(r, a + "{") + end == Marker("SYNC_FILE") + (Marker(r) + (a + ("{" + t1)));
    ReadsPath(dir, pb, r, a + ("{" + t1));
    CollectsWord(dir, Awaiting(r), a, "{" + t1);
    assert "" + a == a;
    OpensCreate(dir, Awaiting(r).(buf := a), t1);
    var st := CreState("", r, false, true, false);
    ReadsCreateMarker(dir, st, "SYNC_DONE", end);
    SectionEnds(dir, r, t);
  }

  /**
   * A created file arrives as it was sent, and nothing else happens, if and only if its content has no brace and
   * no NUL and is not the text EMPTY_FILE.
   */
  lemma {:induction false} CreateExact(dir: string, pb: string, r: string, c: string, t: string)
    requires PathText(r)
    ensures (CreRun(dir, Idle(pb), FileCommand(r, c) + (Marker("SYNC_CREATE_DONE") + t)) ==
             Parsed([Create(Resolve(dir + r), c)], t)) <==> CreateOk(c)
    ensures CreateOk(c) <==> (forall x :: x in c ==> x != '{' && x != '}' && x != '\0') && c != "EMPTY_FILE"
  {
    hide CreRun, CStr, FileCommand;
    var bytes := FileCommand(r, c) + (Marker("SYNC_CREATE_DONE") + t);
    if CreateOk(c) {
      CreateOkArrives(dir, pb, r, c, t);
    } else if c == "EMPTY_FILE" {
      SentinelTextLost(dir, pb, r, t);
    } else {
      CreatesPlain(dir, Idle(pb), bytes);
      var m := Create(Resolve(dir + r), c);
      assert m in [m];
    }
  }

  // ---------------------------------------------------------------------------------------------
  // The loop

  /** Creates or overwrites one file; nothing happens when it cannot be opened. */
  method CreateFile(disk: Disk, p: Path, content: string)
    modifies disk
    ensures Some(disk.fs) == Step(old(disk.fs), Create(p, content), disk.clock)
  {
    var ok := disk.OpenCreated(p);
    if ok && content != "" {
      disk.Append(p, content);
      assert disk.fs == old(disk.fs)[p := File("" + content, disk.clock(p))];
      assert "" + content == content;
    }
  }

  method CreateFolder(disk: Disk, p: Path)
    modifies disk
    ensures Some(disk.fs) == Step(old(disk.fs), MkDir(p), disk.clock)
  {
    var exists_ := disk.FolderExists(p);
    if !exists_ {
      disk.Mkdir(p);
    }
  }

  /** Creates the file whose content has been collected, unless it is the sentinel. */
  method FlushContent(disk: Disk, dir: string, b: Buffer, pathBuffer: string)
    requires b.Valid() && CStr(pathBuffer) == pathBuffer
    modifies disk, b, b.mem
    ensures b.Valid() && b.Chars() == "" && b.mem == old(b.mem)
    ensures Some(disk.fs) == Replay(old(disk.fs),
                                    Flushed(dir, CreState(old(b.Chars()), pathBuffer, false, true, true)), disk.clock)
  {
    var text := b.Text();
    if text != "EMPTY_FILE" && pathBuffer != "EMPTY_FILE" {
      CreateFile(disk, Resolve(dir + pathBuffer), text);
    }
    b.Reset();
  }

  /** createReceiveFile */
  method CreateReceiveFile(ch: Channel, disk: Disk, dir: string)
    modifies ch, disk
    ensures var r := CreRun(dir, Idle(""), old(ch.data));
            Some(disk.fs) == Replay(old(disk.fs), r.msgs, disk.clock) && ch.data == r.rest
  {
    var b := new Buffer();
    var pathBuffer, folderFlag, fileFlag, contentCount := "", false, false, 0;
    ghost var st := Idle("");
    hide CStr, Resolve;
    while true
      invariant b.Valid() && fresh(b) && fresh(b.mem)
      invariant st == CreState(b.Chars(), pathBuffer, folderFlag, fileFlag, contentCount == 1)
      invariant CreRun(dir, st, ch.data).rest == CreRun(dir, Idle(""), old(ch.data)).rest
      invariant Replay(disk.fs, CreRun(dir, st, ch.data).msgs, disk.clock) ==
                Replay(old(disk.fs), CreRun(dir, Idle(""), old(ch.data)).msgs, disk.clock)
      invariant CStr(pathBuffer) == pathBuffer && 0 <= contentCount <= 1
      decreases |ch.data|
    {
      var ok, c := ch.ReadChar();
      if !ok { return; }
      if c == '{' {
        ghost var flushed := Flushed(dir, st);
        ghost var fs1 := disk.fs;
        if contentCount == 1 {
          FlushContent(disk, dir, b, pathBuffer);
          contentCount := 0;
        }
        ReplayConcat(fs1, flushed, CreRun(dir, AfterOpenBrace(st), ch.data).msgs, disk.clock);
        st := AfterOpenBrace(st);
      } else if c == '}' {
        ghost var made := Made(dir, st);
        ghost var fs1 := disk.fs;
        var text := b.Text();
        if text == "SYNC_FOLDER" {
          folderFlag := true;
        } else if text == "SYNC_DONE" && folderFlag {
          folderFlag := false;
        } else if folderFlag {
          CreateFolder(disk, Resolve(dir + text));
        } else if text == "SYNC_FILE" {
          fileFlag := true;
        } else if text == "SYNC_DONE" && fileFlag {
          fileFlag := false;
        } else if fileFlag {
          if contentCount == 0 {
            pathBuffer := text;
            contentCount := 1;
          }
        } else if text == "SYNC_CREATE_DONE" {
          return;
        }
        ReplayConcat(fs1, made, CreRun(dir, AfterCloseBrace(st), ch.data).msgs, disk.clock);
        st := AfterCloseBrace(st);
        b.Reset();
      } else {
        if c == NUL { continue; }
        st := st.(buf := st.buf + [c]);
        b.Append(c);
      }
    }
  }
}
