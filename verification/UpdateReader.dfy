/** The content of an updated file: how it is sent, how it is read back, and when the two agree. */
module UpdateReader {
  import opened Text
  import opened FileSystem
  import opened Runtime

  const BLOCK := 2048

  /** The bytes a sender writes for a file: its content, and a sentinel when the last read comes back empty. */
  function FileBytes(c: string): string {
    if |c| % BLOCK == 0 then c + "{EMPTY_FILE}" else c
  }

  datatype UpdState = UpdState(buf: string, flag: bool, out: string)
  datatype UpdResult = UpdResult(out: string, rest: string)

  const UpdStart := UpdState("", false, "")

  /** The state after an opening brace: everything pending has been written. */
  function AfterOpen(st: UpdState): UpdState {
    var out := if st.flag then st.out + "{" else st.out;
    if st.buf == "" then UpdState("", false, out) else UpdState("", true, out + CStr(st.buf))
  }

  /** The state after a closing brace that does not end the content. */
  function AfterClose(st: UpdState): UpdState {
    UpdState("", st.flag, st.out + CStr(st.buf))
  }

  /** What the reader writes to the file, and what it leaves unread, from a given state on. */
  function UpdRun(st: UpdState, bytes: string): (r: UpdResult)
    ensures |r.rest| <= |bytes|
    decreases |bytes|
  {
    if bytes == "" then UpdResult(st.out, "")
    else
      var c, rest := bytes[0], bytes[1..];
      if c == '{' then UpdRun(AfterOpen(st), rest)
      else if c != '}' then UpdRun(st.(buf := st.buf + [c]), rest)
      else if CStr(st.buf) == "SYNC_DONE" then UpdResult(st.out, rest)
      else UpdRun(AfterClose(st), rest)
  }

  /** Content with leading braces dropped and every run of braces collapsed to one. */
  function Squeeze(c: string): (n: string)
    ensures |n| <= |c|
    ensures forall x :: x in n ==> x in c
  {
    if c == "" then ""
    else
      var n, x := Squeeze(c[..|c| - 1]), c[|c| - 1];
      if x == '{' && (n == "" || n[|n| - 1] == '{') then n else n + [x]
  }

  /** No brace at the start and no two in a row. */
  predicate Squeezed(c: string) {
    (c != "" ==> c[0] != '{') &&
    forall i :: 0 < i < |c| ==> !(c[i - 1] == '{' && c[i] == '{')
  }

  /** The contents an update transfers unchanged. */
  predicate UpdateOk(c: string) {
    '}' !in c && NUL !in c && Squeezed(c) && |c| % BLOCK != 0
  }

  lemma {:induction false} SqueezeSqueezes(c: string)
    ensures Squeezed(Squeeze(c))
  {
    if c != "" {
      SqueezeSqueezes(c[..|c| - 1]);
    }
  }

  lemma {:induction false} SqueezeFixes(c: string)
    ensures Squeeze(c) == c <==> Squeezed(c)
  {
    SqueezeSqueezes(c);
    if c != "" && Squeezed(c) {
      SqueezeFixes(c[..|c| - 1]);
    }
  }

  /** The pending-brace invariant: output, pending brace and buffer together are the squeezed prefix read so far. */
  predicate Pending(st: UpdState, read: string) {
    Plain(st.buf) &&
    Squeeze(read) == st.out + (if st.flag then "{" else "") + st.buf &&
    (st.buf == "" && !st.flag ==> st.out == "" || st.out[|st.out| - 1] == '{')
  }

  /** The state after one character of content. */
  function AfterChar(st: UpdState, x: char): UpdState {
    if x == '{' then AfterOpen(st) else st.(buf := st.buf + [x])
  }

  lemma PendingStep(st: UpdState, read: string, x: char)
    requires Pending(st, read) && x != '}' && x != NUL
    ensures Pending(AfterChar(st, x), read + [x])
  {
    hide CStr;
    assert (read + [x])[..|read|] == read;
  }

  lemma {:induction false} ReadsContent(st: UpdState, read: string, c: string, t: string) returns (st': UpdState)
    requires Pending(st, read) && '}' !in c && NUL !in c
    ensures UpdRun(st, c + t) == UpdRun(st', t)
    ensures Pending(st', read + c)
    decreases |c|
  {
    if c == "" {
      assert c + t == t && read + c == read;
      return st;
    }
    var x := c[0];
    assert x in c;
    PendingStep(st, read, x);
    hide Pending, CStr, AfterOpen;
    assert (c + t)[0] == x && (c + t)[1..] == c[1..] + t;
    assert read + [x] + c[1..] == read + c;
    st' := ReadsContent(AfterChar(st, x), read + [x], c[1..], t);
  }

  /** A plain word is collected in the buffer. */
  lemma {:induction false} ReadsWord(st: UpdState, w: string, t: string)
    requires Plain(w)
    ensures UpdRun(st, w + t) == UpdRun(st.(buf := st.buf + w), t)
    decreases |w|
  {
    if w == "" {
      assert w + t == t && st.buf + w == st.buf;
    } else {
      assert w[0] in w;
      assert (w + t)[1..] == w[1..] + t;
      ReadsWord(st.(buf := st.buf + [w[0]]), w[1..], t);
      assert st.buf + [w[0]] + w[1..] == st.buf + w;
    }
  }

  lemma Opens(st: UpdState, t: string)
    ensures UpdRun(st, "{" + t) == UpdRun(AfterOpen(st), t)
  {
    assert ("{" + t)[1..] == t;
  }

  lemma Closes(st: UpdState, t: string)
    ensures UpdRun(st, "}" + t) ==
            if CStr(st.buf) == "SYNC_DONE" then UpdResult(st.out, t)
            else UpdRun(AfterClose(st), t)
  {
    assert ("}" + t)[1..] == t;
  }

  /** At a marker everything pending is written; the end marker ends the content, any other one is written as text. */
  lemma FlushesAtMarker(st: UpdState, w: string, t: string)
    requires Plain(w) && Plain(st.buf)
    ensures UpdRun(st, Marker(w) + t) ==
            var out := st.out + (if st.flag then "{" else "") + st.buf;
            if w == "SYNC_DONE" then UpdResult(out, t)
            else UpdRun(UpdState("", st.buf != "", out + w), t)
  {
    hide UpdRun, CStr, Marker;
    MarkerSplit(w, t);
    var open := AfterOpen(st);
    Opens(st, w + ("}" + t));
    ReadsWord(open, w, "}" + t);
    assert open.buf + w == w;
    Closes(open.(buf := w), t);
    var out := st.out + (if st.flag then "{" else "");
    assert out + "" == out && st.out + "" == st.out;
  }

  /** A readable content, followed by the end marker, arrives in its normal form, and exactly its bytes are consumed. */
  lemma {:induction false} ContentThenDone(c: string, t: string)
    requires '}' !in c && NUL !in c
    ensures UpdRun(UpdStart, c + (Marker("SYNC_DONE") + t)) == UpdResult(Squeeze(c), t)
  {
    var st := ReadsContent(UpdStart, "", c, Marker("SYNC_DONE") + t);
    assert "" + c == c;
    FlushesAtMarker(st, "SYNC_DONE", t);
  }

  lemma {:induction false} UpdateTransfer(c: string, t: string)
    requires '}' !in c && NUL !in c && |c| % 2048 != 0
    ensures UpdRun(UpdStart, FileBytes(c) + Marker("SYNC_DONE") + t) == UpdResult(Squeeze(c), t)
  {
    assert FileBytes(c) + Marker("SYNC_DONE") + t == c + (Marker("SYNC_DONE") + t);
    ContentThenDone(c, t);
  }

  /** When the length is a multiple of the block size the sentinel's text ends up in the file. */
  lemma {:induction false} UpdateTransferSentinel(c: string, t: string) returns (tail: string)
    requires '}' !in c && NUL !in c && |c| % 2048 == 0
    ensures tail == "" || tail == "{"
    ensures UpdRun(UpdStart, FileBytes(c) + Marker("SYNC_DONE") + t) ==
            UpdResult(Squeeze(c) + "EMPTY_FILE" + tail, t)
  {
    var m := Marker("SYNC_DONE") + t;
    var e := Marker("EMPTY_FILE") + m;
    SentinelBytes(c, t);
    hide UpdRun, Marker, FileBytes, CStr, Squeeze;
    var st := ReadsContent(UpdStart, "", c, e);
    assert "" + c == c;
    SentinelIsNoEnd();
    FlushesAtMarker(st, "EMPTY_FILE", m);
    tail := if st.buf != "" then "{" else "";
    DoneAfterSentinel(UpdState("", st.buf != "", Squeeze(c) + "EMPTY_FILE"), t);
  }

  lemma SentinelIsNoEnd()
    ensures Plain("EMPTY_FILE") && "EMPTY_FILE" != "SYNC_DONE"
  {
    assert |"EMPTY_FILE"| != |"SYNC_DONE"|;
  }

  lemma SentinelBytes(c: string, t: string)
    requires |c| % BLOCK == 0
    ensures FileBytes(c) + Marker("SYNC_DONE") + t == c + (Marker("EMPTY_FILE") + (Marker("SYNC_DONE") + t))
  {
    assert "{EMPTY_FILE}" == Marker("EMPTY_FILE");
  }

  lemma DoneAfterSentinel(st: UpdState, t: string)
    requires st.buf == ""
    ensures UpdRun(st, Marker("SYNC_DONE") + t) == UpdResult(st.out + if st.flag then "{" else "", t)
  {
    FlushesAtMarker(st, "SYNC_DONE", t);
    var out := st.out + if st.flag then "{" else "";
    assert out + "" == out;
  }

  /** Whatever is sent, the reader never writes a closing brace or a NUL. */
  lemma {:induction false} NeverWritesMarkers(st: UpdState, bytes: string)
    requires '}' !in st.out && NUL !in st.out && '}' !in st.buf
    ensures '}' !in UpdRun(st, bytes).out && NUL !in UpdRun(st, bytes).out
    decreases |bytes|
  {
    if bytes != "" {
      var c, rest := bytes[0], bytes[1..];
      if c == '{' {
        NeverWritesMarkers(AfterOpen(st), rest);
      } else if c != '}' {
        NeverWritesMarkers(st.(buf := st.buf + [c]), rest);
      } else if CStr(st.buf) != "SYNC_DONE" {
        NeverWritesMarkers(AfterClose(st), rest);
      }
    }
  }

  /**
   * An update reproduces the content if and only if the content has no closing brace, no NUL, no leading or doubled
   * opening brace, and a length that is not a multiple of the block size.
   */
  lemma {:induction false} UpdateExact(c: string, t: string)
    ensures UpdRun(UpdStart, FileBytes(c) + Marker("SYNC_DONE") + t) == UpdResult(c, t) <==> UpdateOk(c)
    ensures UpdateOk(c) <==>
            && (forall x :: x in c ==> x != '}' && x != '\0')
            && (c != "" ==> c[0] != '{')
            && (forall i :: 0 < i < |c| ==> !(c[i - 1] == '{' && c[i] == '{'))
            && |c| % 2048 != 0
  {
    if '}' in c || NUL in c {
      NeverWritesMarkers(UpdStart, FileBytes(c) + Marker("SYNC_DONE") + t);
    } else if |c| % BLOCK != 0 {
      UpdateTransfer(c, t);
      SqueezeFixes(c);
    } else {
      var tail := UpdateTransferSentinel(c, t);
      SentinelShows(c, tail);
    }
  }

  /** Already what is written to the file tells: it is the content exactly for the contents an update transfers. */
  lemma {:induction false} UpdateOutExact(c: string, t: string)
    ensures UpdRun(UpdStart, FileBytes(c) + Marker("SYNC_DONE") + t).out == c <==> UpdateOk(c)
  {
    if '}' in c || NUL in c {
      NeverWritesMarkers(UpdStart, FileBytes(c) + Marker("SYNC_DONE") + t);
    } else if |c| % BLOCK != 0 {
      UpdateTransfer(c, t);
      SqueezeFixes(c);
    } else {
      var tail := UpdateTransferSentinel(c, t);
      SentinelShows(c, tail);
    }
  }

  lemma SentinelShows(c: string, tail: string)
    requires tail == "" || tail == "{"
    ensures Squeeze(c) + "EMPTY_FILE" + tail != c
  {
    var s := Squeeze(c) + "EMPTY_FILE" + tail;
    SqueezeSqueezes(c);
    assert s[|Squeeze(c)|] == 'E';
    assert Squeezed(s) by {
      var n := |Squeeze(c)|;
      assert forall i :: n <= i < n + 10 ==> s[i] == "EMPTY_FILE"[i - n];
      assert forall i :: 0 <= i < n ==> s[i] == Squeeze(c)[i];
      assert "EMPTY_FILE"[9] == 'E';
      forall i | 0 < i < |s| ensures !(s[i - 1] == '{' && s[i] == '{') {
        if i >= n + 10 { assert s[i - 1] == 'E'; }
        else if i >= n { assert s[i] != '{'; }
      }
    }
    if s == c {
      SqueezeFixes(c);
    }
  }

  /** A file emptied by an update is not empty on the other side. */
  lemma UpdateOfEmptyFile(t: string)
    ensures UpdRun(UpdStart, FileBytes("") + Marker("SYNC_DONE") + t).out != ""
  {
    UpdateExact("", t);
    var tail := UpdateTransferSentinel("", t);
  }

  // ---------------------------------------------------------------------------------------------
  // The loops

  /**
   * readFromFileWriteToSocket: the file goes out in blocks until a short or empty read, which adds the sentinel exactly
   * when the length is a multiple of 2048.
   */
  method SendFile(ch: Channel, content: string)
    modifies ch
    ensures ch.data == old(ch.data) + FileBytes(content)
    ensures |content| % 2048 != 0 ==> ch.data == old(ch.data) + content
    ensures |content| % 2048 == 0 ==> ch.data == old(ch.data) + (content + "{EMPTY_FILE}")
  {
    var pos := 0;
    while true
      invariant 0 <= pos <= |content| && pos % BLOCK == 0
      invariant ch.data == old(ch.data) + content[..pos]
      decreases |content| - pos
    {
      var readSize := if |content| - pos < BLOCK then |content| - pos else BLOCK;
      if readSize == 0 {
        ch.Write("{EMPTY_FILE}");
        assert content[..pos] == content;
        return;
      }
      ch.Write(content[pos..pos + readSize]);
      assert content[..pos] + content[pos..pos + readSize] == content[..pos + readSize];
      pos := pos + readSize;
      if readSize < BLOCK {
        assert content[..pos] == content;
        return;
      }
    }
  }

  lemma UpdRunStep(st: UpdState, bytes: string)
    ensures UpdRun(st, bytes) ==
            if bytes == "" then UpdResult(st.out, "")
            else if bytes[0] == '{' then UpdRun(AfterOpen(st), bytes[1..])
            else if bytes[0] != '}' then UpdRun(st.(buf := st.buf + [bytes[0]]), bytes[1..])
            else if CStr(st.buf) == "SYNC_DONE" then UpdResult(st.out, bytes[1..])
            else UpdRun(AfterClose(st), bytes[1..])
  {
  }

  /** readSocketWriteFile: reads one content from the stream into an already truncated file. */
  method ReadSocketWriteFile(ch: Channel, disk: Disk, p: Path)
    requires disk.fs.Keys >= {p} && disk.fs[p] == File("", disk.clock(p))
    modifies ch, disk
    ensures var r := UpdRun(UpdStart, old(ch.data));
            disk.fs == old(disk.fs)[p := File(r.out, disk.clock(p))] && ch.data == r.rest
  {
    var b := new Buffer();
    var flag := false;
    ghost var st := UpdStart;
    ghost var fs0 := disk.fs;
    hide CStr, UpdRun, Written;
    WrittenFirst(disk.fs, p);
    while true
      invariant b.Valid() && fresh(b) && fresh(b.mem)
      invariant st.buf == b.Chars() && st.flag == flag
      invariant Written(disk.fs, fs0, p, File(st.out, disk.clock(p)))
      invariant UpdRun(st, ch.data) == UpdRun(UpdStart, old(ch.data))
      decreases |ch.data|
    {
      ghost var bytes, out := ch.data, st.out;
      var ok, c := ch.ReadChar();
      UpdRunStep(st, bytes);
      WrittenAt(disk.fs, fs0, p, st.out, disk.clock(p));
      if !ok { return; }
      if c == '{' {
        st := AfterOpen(st);
        if flag {
          disk.Append(p, "{");
          WrittenAt(disk.fs, fs0, p, out + "{", disk.clock(p));
          flag := false;
        }
        if b.index == 0 { continue; }
        FlushBuffer(disk, p, b);
        flag := true;
      } else if c == '}' {
        var text := b.Text();
        if text == "SYNC_DONE" { return; }
        st := AfterClose(st);
        FlushBuffer(disk, p, b);
      } else {
        st := st.(buf := st.buf + [c]);
        b.Append(c);
      }
    }
  }

  /** Writes the buffer to the file and empties it. */
  method FlushBuffer(disk: Disk, p: Path, b: Buffer)
    requires b.Valid() && HasFile(disk.fs, p)
    modifies disk, b, b.mem
    ensures b.Valid() && b.Chars() == "" && b.mem == old(b.mem)
    ensures disk.fs == old(disk.fs)[p := File(old(disk.fs[p].content) + CStr(old(b.Chars())), disk.clock(p))]
  {
    var text := b.Text();
    disk.Append(p, text);
    b.Reset();
  }

  /** `fs` is `fs0` with `e` at `p`. */
  ghost predicate Written(fs: Tree, fs0: Tree, p: Path, e: Entry) {
    fs == fs0[p := e]
  }

  lemma WrittenFirst(fs: Tree, p: Path)
    requires p in fs
    ensures Written(fs, fs, p, fs[p])
  {
  }

  /** More can be written, and then more is written. */
  lemma WrittenAt(fs: Tree, fs0: Tree, p: Path, out: string, mtime: int)
    requires Written(fs, fs0, p, File(out, mtime))
    ensures p in fs && fs[p] == File(out, mtime) && fs == fs0[p := File(out, mtime)]
    ensures forall s :: Written(fs[p := File(s, mtime)], fs0, p, File(s, mtime))
  {
  }
}
