/** The two ends of a pull: one side asks for a path and writes what comes back, the other answers from its disk. */
module PullServer {
  import opened Text
  import opened FileSystem
  import opened Runtime
  import opened UpdateReader
  import opened DeleteReader
  import opened CreateReader
  import opened Transfer
  import opened Handshake
  import opened Manifest

  datatype Status = Ended | Waiting | Exited

  datatype Served = Served(out: string, rest: string, status: Status)

  /** handleSyncGetRequests: the answers to the requests read from a given buffer on. */
  function GetRun(fs: Tree, dir: string, buf: string, bytes: string): (r: Served)
    decreases |bytes|
  {
    if bytes == "" then Served("", "", Waiting)
    else
      var c, rest := bytes[0], bytes[1..];
      if c == '{' || c == NUL then GetRun(fs, dir, buf, rest)
      else if c != '}' then GetRun(fs, dir, buf + [c], rest)
      else if CStr(buf) == "SYNC_WRITE_DONE" then Served("", rest, Ended)
      else if |dir + CStr(buf)| > PATH_LIMIT then GetRun(fs, dir, buf, rest)
      else if !HasFile(fs, Resolve(dir + CStr(buf))) then Served("", rest, Exited)
      else
        var r := GetRun(fs, dir, "", rest);
        r.(out := FileBytes(fs[Resolve(dir + CStr(buf))].content) + r.out)
  }

  lemma {:induction false} GetReadsWord(fs: Tree, dir: string, buf: string, w: string, t: string)
    requires Plain(w)
    ensures GetRun(fs, dir, buf, w + t) == GetRun(fs, dir, buf + w, t)
    decreases |w|
  {
    if w == "" {
      assert w + t == t && buf + w == buf;
    } else {
      assert w[0] in w;
      assert (w + t)[1..] == w[1..] + t;
      GetReadsWord(fs, dir, buf + [w[0]], w[1..], t);
      assert buf + [w[0]] + w[1..] == buf + w;
    }
  }

  /** One request for a file that is there is answered with that file's bytes and nothing else. */
  lemma RequestAnswered(fs: Tree, dir: string, r: string, t: string)
    requires PathText(r) && |dir + r| <= PATH_LIMIT && HasFile(fs, Resolve(dir + r))
    ensures GetRun(fs, dir, "", Marker(r) + t) ==
            var s := GetRun(fs, dir, "", t); s.(out := FileBytes(fs[Resolve(dir + r)].content) + s.out)
  {
    hide CStr, FileBytes, Resolve;
    KeywordsApart(r);
    assert Marker(r) + t == "{" + (r + ("}" + t));
    assert ("{" + (r + ("}" + t)))[1..] == r + ("}" + t);
    GetReadsWord(fs, dir, "", r, "}" + t);
    assert "" + r == r;
    assert ("}" + t)[1..] == t;
  }

  lemma KeywordsApart(r: string)
    requires PathText(r)
    ensures r != "SYNC_WRITE_DONE"
  {
    assert "SYNC_WRITE_DONE"[0] == 'S';
  }

  /** A request over the limit is never answered, nor is any later one, nor the end of the requests seen. */
  lemma {:induction false} LongRequestSwallows(fs: Tree, dir: string, buf: string, bytes: string)
    requires buf != "" && buf[0] == '/' && NUL !in buf && |dir + buf| > PATH_LIMIT
    ensures GetRun(fs, dir, buf, bytes) == Served("", "", Waiting)
    decreases |bytes|
  {
    if bytes != "" {
      var c := bytes[0];
      assert "SYNC_WRITE_DONE"[0] == 'S';
      if c == '{' || c == NUL || c == '}' {
        LongRequestSwallows(fs, dir, buf, bytes[1..]);
      } else {
        LongRequestSwallows(fs, dir, buf + [c], bytes[1..]);
      }
    }
  }

  /**
   * One request followed by the end of the requests is answered with exactly the file's bytes and the end seen, if and only
   * if the full path is within the limit and names a file.
   */
  lemma {:induction false} RequestExact(fs: Tree, dir: string, r: string, t: string)
    requires PathText(r)
    ensures var s := GetRun(fs, dir, "", Marker(r) + (Marker("SYNC_WRITE_DONE") + t));
            && (s.status == Ended <==> |dir + r| <= 254 && HasFile(fs, Resolve(dir + r)))
            && (s.status == Ended ==> s == Served(FileBytes(fs[Resolve(dir + r)].content), t, Ended))
  {
    hide FileBytes, Resolve, CStr;
    var t1 := Marker("SYNC_WRITE_DONE") + t;
    if |dir + r| <= PATH_LIMIT && HasFile(fs, Resolve(dir + r)) {
      hide GetRun, Marker;
      RequestAnswered(fs, dir, r, t1);
      WriteDoneEnds(fs, dir, t);
      Units(FileBytes(fs[Resolve(dir + r)].content));
    } else {
      RequestRead(fs, dir, r, t1);
      if |dir + r| > PATH_LIMIT { LongRequestSwallows(fs, dir, r, "}" + t1); }
    }
  }

  lemma RequestRead(fs: Tree, dir: string, r: string, t: string)
    requires PathText(r)
    ensures GetRun(fs, dir, "", Marker(r) + t) == GetRun(fs, dir, r, "}" + t)
    ensures |dir + r| <= PATH_LIMIT && !HasFile(fs, Resolve(dir + r)) ==>
              GetRun(fs, dir, "", Marker(r) + t).status == Exited
  {
    hide FileBytes, Resolve, CStr;
    KeywordsApart(r);
    MarkerSplit(r, t);
    GetReadsWord(fs, dir, "", r, "}" + t);
  }

  lemma AnswerAppended(before: string, sent: string, answer: string, next: string)
    ensures sent + (answer + next) == (sent + answer) + next
    ensures (before + sent) + answer == before + (sent + answer)
  {
  }

  /** handleSyncGetRequests on the requests available. */
  method HandleSyncGetRequests(req: Channel, resp: Channel, disk: Disk, dir: string) returns (status: Status)
    requires req != resp
    modifies req, resp
    ensures var r := GetRun(disk.fs, dir, "", old(req.data));
            resp.data == old(resp.data) + r.out && req.data == r.rest && status == r.status
  {
    var b := new Buffer();
    ghost var sent := "";
    hide FileBytes, Resolve;
    while true
      invariant b.Valid() && fresh(b) && fresh(b.mem)
      invariant resp.data == old(resp.data) + sent
      invariant var now := GetRun(disk.fs, dir, b.Chars(), req.data);
                GetRun(disk.fs, dir, "", old(req.data)) == now.(out := sent + now.out)
      decreases |req.data|
    {
      var ok, c := req.ReadChar();
      if !ok { return Waiting; }
      if c == '{' {
        continue;
      } else if c == '}' {
        var text := b.Text();
        if text == "SYNC_WRITE_DONE" { return Ended; }
        var filePath := dir + text;
        if |filePath| > PATH_LIMIT { continue; }
        if !HasFile(disk.fs, Resolve(filePath)) { return Exited; }
        var content := disk.fs[Resolve(filePath)].content;
        SendFile(resp, content);
        ghost var next := GetRun(disk.fs, dir, "", req.data).out;
        AnswerAppended(old(resp.data), sent, FileBytes(content), next);
        sent := sent + FileBytes(content);
        b.Reset();
      } else {
        if c == NUL { continue; }
        b.Append(c);
      }
    }
  }

  /** syncFile's file case once the path is free: create the file, ask the peer for it, copy the answer. */
  method FetchFile(disk: Disk, p: Path, path: string, req: Channel, resp: Channel, peer: Disk, peerDir: string)
      returns (ok: bool)
    requires req != resp && disk != peer && req.data == "" && resp.data == ""
    requires PathText(path) && |peerDir + path| <= PATH_LIMIT && HasFile(peer.fs, Resolve(peerDir + path))
    modifies disk, req, resp
    ensures var content := peer.fs[Resolve(peerDir + path)].content;
            var r := Fetch(old(disk.fs), p, content, disk.clock);
            && ok == r.Some?
            && (ok ==> disk.fs == r.value && req.data == "")
            && (ok && TransferOk(content) ==> resp.data == "")
  {
    ghost var fs0 := disk.fs;
    ghost var content := peer.fs[Resolve(peerDir + path)].content;
    ok := disk.OpenExclusive(p);
    if !ok { return; }
    req.Write(Marker(path));
    assert req.data == Marker(path) + "";
    RequestAnswered(peer.fs, peerDir, path, "");
    var status := HandleSyncGetRequests(req, resp, peer, peerDir);
    assert resp.data == FileBytes(content);
    var waiting := ReceiveFile(resp, disk, p);
    Arrives(content);
    ok := !waiting;
    assert disk.fs == fs0[p := File(Receive(FileBytes(content), "").out, disk.clock(p))];
  }

  /** The path on this side, without a doubled slash. */
  function ServerFilePath(dir: string, path: string): string {
    (if dir != "" && dir[|dir| - 1] == '/' then dir[..|dir| - 1] else dir) + path
  }

  /** What the peer has at a manifest entry. */
  function Offered(fs: Tree, peerDir: string, path: string, kind: int): Entry {
    if kind == FILE_NODE && HasFile(fs, Resolve(peerDir + path))
    then fs[Resolve(peerDir + path)] else Folder
  }

  lemma BackupPath(file: string, stamp: string)
    requires file != "" && file[|file| - 1] != '/' && '/' !in stamp
    ensures Resolve(file) != [] && Resolve(file + "_" + stamp) == Backup(Resolve(file), stamp)
  {
    assert file + "_" + stamp == file + ("_" + stamp);
    ResolveExtended(file, "_" + stamp);
    var c := Resolve(file);
    assert c[|c| - 1] + ("_" + stamp) == c[|c| - 1] + "_" + stamp;
  }

  /** syncFile: one manifest entry, on either side. */
  method SyncFile(
      disk: Disk, dir: string, path: string, kind: int, isClient: bool, stamp: string,
      req: Channel, resp: Channel, peer: Disk, peerDir: string) returns (ok: bool)
    requires req != resp && disk != peer && req.data == "" && resp.data == ""
    requires PathText(path) && path[|path| - 1] != '/' && '/' !in stamp && |peerDir + path| <= PATH_LIMIT
    requires kind == FILE_NODE ==> HasFile(peer.fs, Resolve(peerDir + path))
    modifies disk, req, resp
    ensures var p := Resolve(ServerFilePath(dir, path));
            var e := Offered(peer.fs, peerDir, path, kind);
            var r := if isClient then ClientStep(old(disk.fs), p, e, disk.clock)
                     else ServerStep(old(disk.fs), p, e, stamp, disk.clock);
            && ok == r.Some?
            && (ok ==> disk.fs == r.value && req.data == "")
            && (ok && (e.File? ==> TransferOk(e.content)) ==> resp.data == "")
  {
    var file := ServerFilePath(dir, path);
    var p := Resolve(file);
    BackupPath(file, stamp);
    if kind == FILE_NODE {
      var there := disk.FileExists(p);
      if there {
        if isClient { return true; }
        disk.Rename(p, Resolve(file + "_" + stamp));
      }
      ok := FetchFile(disk, p, path, req, resp, peer, peerDir);
    } else {
      ok := true;
      var there := disk.FolderExists(p);
      if !there { disk.Mkdir(p); }
    }
  }

  // ---------------------------------------------------------------------------------------------
  // A whole manifest

  /** The effect of one entry on this side's disk. */
  function PullItem(fs: Tree, dir: string, i: Item, isClient: bool, stamp: string, peer: Tree, peerDir: string,
                    clock: Clock)
    : Option<Tree>
  {
    var p, e := Resolve(ServerFilePath(dir, i.path)), Offered(peer, peerDir, i.path, i.kind);
    if isClient then ClientStep(fs, p, e, clock) else ServerStep(fs, p, e, stamp, clock)
  }

  /** The timestamp a renaming of the file at a path text would get. */
  type StampOf = string -> string

  function PullItems(fs: Tree, dir: string, items: seq<Item>, isClient: bool, stampOf: StampOf, peer: Tree,
                     peerDir: string,
                     clock: Clock): Option<Tree>
    decreases |items|
  {
    if items == [] then Some(fs)
    else
      var r := PullItem(fs, dir, items[0], isClient, stampOf(items[0].path), peer, peerDir, clock);
      if r.None? then None else PullItems(r.value, dir, items[1..], isClient, stampOf, peer, peerDir, clock)
  }

  /** The peer has what the entry promises, within the limits of the transfer. */
  predicate Pullable(peer: Tree, peerDir: string, i: Item) {
    && PathText(i.path) && i.path[|i.path| - 1] != '/' && |peerDir + i.path| <= PATH_LIMIT
    && (i.kind == FILE_NODE ==>
          HasFile(peer, Resolve(peerDir + i.path)) && TransferOk(peer[Resolve(peerDir + i.path)].content))
  }

  /** The marker that ends the pulls ends the peer's answering. */
  lemma WriteDoneEnds(fs: Tree, dir: string, t: string)
    ensures GetRun(fs, dir, "", Marker("SYNC_WRITE_DONE") + t) == Served("", t, Ended)
  {
    MarkerSplit("SYNC_WRITE_DONE", t);
    GetReadsWord(fs, dir, "", "SYNC_WRITE_DONE", "}" + t);
  }

  /** syncServerWithfd: every entry in order, then SYNC_WRITE_DONE. */
  method SyncServerWithFd(disk: Disk, dir: string, list: ItemList, isClient: bool, stampOf: StampOf,
                          req: Channel, resp: Channel, peer: Disk, peerDir: string) returns (ok: bool)
    requires list.Valid() && req != resp && disk != peer && req.data == "" && resp.data == ""
    requires forall i :: i in list.Contents() ==> Pullable(peer.fs, peerDir, i) && '/' !in stampOf(i.path)
    modifies disk, req, resp
    ensures var r := PullItems(old(disk.fs), dir, list.Contents(), isClient, stampOf, peer.fs, peerDir, disk.clock);
            && ok == r.Some?
            && (ok ==> disk.fs == r.value && req.data == Marker("SYNC_WRITE_DONE") && resp.data == "")
  {
    hide Marker, PathText, TransferOk, Resolve, ClientStep, ServerStep, Offered, ServerFilePath;
    ghost var items := list.Contents();
    ghost var all := PullItems(disk.fs, dir, items, isClient, stampOf, peer.fs, peerDir, disk.clock);
    assert items[0..] == items;
    var i := 0;
    while i < list.currentIndex
      invariant 0 <= i <= list.currentIndex == |items| && items == list.Contents()
      invariant req.data == "" && resp.data == ""
      invariant PullItems(disk.fs, dir, items[i..], isClient, stampOf, peer.fs, peerDir, disk.clock) == all
    {
      var item := list.list[i];
      assert item == items[i] && item in items && items[i..][1..] == items[i + 1..];
      assert Pullable(peer.fs, peerDir, item);
      OfferedFits(peer.fs, peerDir, item);
      ok := SyncFile(disk, dir, item.path, item.kind, isClient, stampOf(item.path), req, resp, peer, peerDir);
      if !ok { return; }
      i := i + 1;
    }
    req.Write(Marker("SYNC_WRITE_DONE"));
    assert "" + Marker("SYNC_WRITE_DONE") == Marker("SYNC_WRITE_DONE");
    ok := true;
  }

  lemma OfferedFits(peer: Tree, peerDir: string, i: Item)
    requires Pullable(peer, peerDir, i)
    ensures var e := Offered(peer, peerDir, i.path, i.kind); e.File? ==> TransferOk(e.content)
  {
  }
}
