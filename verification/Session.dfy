/**
 * The conversation between one client and its server worker, at the level of tokens: handshake, then any number of
 * rounds. Each direction is a FIFO channel; a token remembers which reader it was written for, and no reader looks at
 * that memory.
 */
module Session {

  /** The reading loops of the two programs. */
  datatype Reader =
    | NameReader       // setFileName
    | CommandReader    // handleRequest
    | ManifestReader   // receiveSyncFiles
    | TransferReader   // readAndWriteFileFromFd
    | RequestReader    // handleSyncGetRequests
    | SyncReader       // the six bytes {SYNC} in receiveSyncFilesWrapper
    | StreamReader     // syncCheckReceive and its nested readers

  datatype Kind = Name | Sync | Entry | SyncDone | Request | Response | WriteDone | DiffPart | DoneControl

  datatype Token = Token(kind: Kind, to: Reader)

  datatype ClientPc =
    | CName | CSync | CManifest                    // sending
    | CServe | CAnswer                             // handleSyncGetRequests
    | CAwaitSync | CReadManifest                   // receiveSyncFilesWrapper
    | CPull | CAwaitFile                           // syncServerWithfd
    | CStart                                       // the first DONE_CONTROL
    | CReceive | CDiff | CEnd                      // the round loop

  datatype ServerPc =
    | SName | SCommand
    | SReadManifest | SPull | SAwaitFile           // syncServer, first half
    | SSync | SManifest | SServe | SAnswer         // syncServer, second half
    | SDiff | SReceive                             // a round

  datatype State = State(c: ClientPc, s: ServerPc, up: seq<Token>, down: seq<Token>)

  const Start := State(CName, SName, [], [])

  function SentUp(st: State, k: Kind, to: Reader, c: ClientPc): State {
    st.(c := c, up := st.up + [Token(k, to)])
  }

  function SentDown(st: State, k: Kind, to: Reader, s: ServerPc): State {
    st.(s := s, down := st.down + [Token(k, to)])
  }

  /** The reader a party is in, if it is reading. */
  function ClientReads(c: ClientPc): (r: set<Reader>) {
    match c
    case CServe => {RequestReader}
    case CAwaitSync => {SyncReader}
    case CReadManifest => {ManifestReader}
    case CAwaitFile => {TransferReader}
    case CReceive => {StreamReader}
    case _ => {}
  }

  function ServerReads(s: ServerPc): (r: set<Reader>) {
    match s
    case SName => {NameReader}
    case SCommand => {CommandReader}
    case SReadManifest => {ManifestReader}
    case SAwaitFile => {TransferReader}
    case SServe => {RequestReader}
    case SReceive => {StreamReader}
    case _ => {}
  }

  /** One step of the client. Choices that depend on data (another entry, another pull, another diff part) are free. */
  ghost predicate ClientStep(st: State, r: State) {
    match st.c
    case CName => r == SentUp(st, Name, NameReader, CSync)
    case CSync => r == SentUp(st, Sync, CommandReader, CManifest)
    case CManifest =>
      r == SentUp(st, Entry, ManifestReader, CManifest) || r == SentUp(st, SyncDone, ManifestReader, CServe)
    case CAnswer => r == SentUp(st, Response, TransferReader, CServe)
    case CPull =>
      r == SentUp(st, Request, RequestReader, CAwaitFile) || r == SentUp(st, WriteDone, RequestReader, CStart)
    case CStart => r == SentUp(st, DoneControl, CommandReader, CReceive)
    case CDiff =>
      r == SentUp(st, DiffPart, StreamReader, CDiff) || r == SentUp(st, DoneControl, StreamReader, CEnd)
    case CEnd => r == SentUp(st, DoneControl, CommandReader, CReceive)
    case _ =>
      && st.down != []
      && r == st.(down := st.down[1..], c := ClientAfter(st.c, st.down[0].kind))
  }

  /** Where a reading client goes on a token; a token that means nothing there is skipped. */
  function ClientAfter(c: ClientPc, k: Kind): ClientPc {
    match (c, k)
    case (CServe, Request) => CAnswer
    case (CServe, WriteDone) => CAwaitSync
    case (CAwaitSync, Sync) => CReadManifest
    case (CReadManifest, SyncDone) => CPull
    case (CAwaitFile, _) => CPull
    case (CReceive, DoneControl) => CDiff
    case _ => c
  }

  ghost predicate ServerStep(st: State, r: State) {
    match st.s
    case SPull =>
      r == SentDown(st, Request, RequestReader, SAwaitFile) || r == SentDown(st, WriteDone, RequestReader, SSync)
    case SSync => r == SentDown(st, Sync, SyncReader, SManifest)
    case SManifest =>
      r == SentDown(st, Entry, ManifestReader, SManifest) || r == SentDown(st, SyncDone, ManifestReader, SServe)
    case SAnswer => r == SentDown(st, Response, TransferReader, SServe)
    case SDiff =>
      r == SentDown(st, DiffPart, StreamReader, SDiff) || r == SentDown(st, DoneControl, StreamReader, SReceive)
    case _ =>
      && st.up != []
      && r == st.(up := st.up[1..], s := ServerAfter(st.s, st.up[0].kind))
  }

  function ServerAfter(s: ServerPc, k: Kind): ServerPc {
    match (s, k)
    case (SName, _) => SCommand
    case (SCommand, Sync) => SReadManifest
    case (SCommand, DoneControl) => SDiff
    case (SReadManifest, SyncDone) => SPull
    case (SAwaitFile, _) => SPull
    case (SServe, Request) => SAnswer
    case (SServe, WriteDone) => SCommand
    case (SReceive, DoneControl) => SCommand
    case _ => s
  }

  ghost predicate Step(st: State, r: State) {
    ClientStep(st, r) || ServerStep(st, r)
  }

  // ---------------------------------------------------------------------------------------------
  // What may be on the channels

  /** `q` is any number of copies of `t` followed by `tail`. */
  ghost predicate RepeatThen(q: seq<Token>, t: Token, tail: seq<Token>) {
    && |q| >= |tail|
    && (forall i :: 0 <= i < |q| - |tail| ==> q[i] == t)
    && q[|q| - |tail|..] == tail
  }

  ghost predicate EntriesThen(q: seq<Token>, tail: seq<Token>) {
    RepeatThen(q, ENTRY, tail)
  }

  ghost predicate PartsThen(q: seq<Token>, tail: seq<Token>) {
    RepeatThen(q, PART, tail)
  }

  const ENTRY := Token(Entry, ManifestReader)
  const PART := Token(DiffPart, StreamReader)
  const NAME := Token(Name, NameReader)
  const SYNC_UP := Token(Sync, CommandReader)
  const SYNC_DOWN := Token(Sync, SyncReader)
  const LISTED := Token(SyncDone, ManifestReader)
  const REQUEST := Token(Request, RequestReader)
  const RESPONSE := Token(Response, TransferReader)
  const WRITTEN := Token(WriteDone, RequestReader)
  const BEGIN := Token(DoneControl, CommandReader)   // starts a round
  const FINISH := Token(DoneControl, StreamReader)   // ends a receive

  /** The client's manifest on its way to the server, `sent` being what it has sent after the entries. */
  ghost predicate Uploading(s: ServerPc, up: seq<Token>, tail: seq<Token>) {
    || (s == SName && |up| >= 2 && up[0] == NAME && up[1] == SYNC_UP && EntriesThen(up[2..], tail))
    || (s == SCommand && |up| >= 1 && up[0] == SYNC_UP && EntriesThen(up[1..], tail))
    || (s == SReadManifest && EntriesThen(up, tail))
  }

  /** The server's manifest on its way to the client. */
  ghost predicate Downloading(c: ClientPc, down: seq<Token>, tail: seq<Token>) {
    || (c == CServe && |down| >= 2 && down[0] == WRITTEN && down[1] == SYNC_DOWN && EntriesThen(down[2..], tail))
    || (c == CAwaitSync && |down| >= 1 && down[0] == SYNC_DOWN && EntriesThen(down[1..], tail))
    || (c == CReadManifest && EntriesThen(down, tail))
  }

  /** The reachable combinations of positions and channel contents. */
  ghost predicate Inv(st: State) {
    var up, down := st.up, st.down;
    match st.c
    case CName => st.s == SName && up == [] && down == []
    case CSync => down == [] && ((st.s == SName && up == [NAME]) || (st.s == SCommand && up == []))
    case CManifest => down == [] && Uploading(st.s, up, [])
    case CServe =>
      || (down == [] && Uploading(st.s, up, [LISTED]))
      || (st.s == SPull && up == [] && down == [])
      || (st.s == SAwaitFile && up == [] && down == [REQUEST])
      || (st.s == SAwaitFile && up == [RESPONSE] && down == [])
      || (st.s == SSync && up == [] && down == [WRITTEN])
      || (st.s == SManifest && up == [] && Downloading(st.c, down, []))
      || (st.s == SServe && up == [] && Downloading(st.c, down, [LISTED]))
    case CAnswer => st.s == SAwaitFile && up == [] && down == []
    case CAwaitSync =>
      up == [] &&
      (|| (st.s == SSync && down == [])
       || (st.s == SManifest && Downloading(st.c, down, []))
       || (st.s == SServe && Downloading(st.c, down, [LISTED])))
    case CReadManifest =>
      up == [] &&
      ((st.s == SManifest && Downloading(st.c, down, [])) || (st.s == SServe && Downloading(st.c, down, [LISTED])))
    case CPull => st.s == SServe && up == [] && down == []
    case CAwaitFile =>
      || (st.s == SServe && up == [REQUEST] && down == [])
      || (st.s == SAnswer && up == [] && down == [])
      || (st.s == SServe && up == [] && down == [RESPONSE])
    case CStart => down == [] && ((st.s == SServe && up == [WRITTEN]) || (st.s == SCommand && up == []))
    case CReceive =>
      || (st.s == SServe && up == [WRITTEN, BEGIN] && down == [])
      || (st.s == SCommand && up == [BEGIN] && down == [])
      || (st.s == SReceive && PartsThen(up, [FINISH, BEGIN]) && down == [])
      || (st.s == SDiff && up == [] && PartsThen(down, []))
      || (st.s == SReceive && up == [] && PartsThen(down, [FINISH]))
    case CDiff => st.s == SReceive && PartsThen(up, []) && down == []
    case CEnd => down == [] && ((st.s == SReceive && PartsThen(up, [FINISH])) || (st.s == SCommand && up == []))
  }

  lemma RepeatSend(q: seq<Token>, t: Token, tail: seq<Token>, x: Token)
    requires RepeatThen(q, t, tail)
    ensures RepeatThen(q + [x], t, tail + [x])
  {
    assert (q + [x])[|q| - |tail|..] == tail + [x];
  }

  /** Sending after any number of copies: one more copy, or the first token of a tail. */
  lemma RepeatEnd(q: seq<Token>, t: Token, x: Token)
    requires RepeatThen(q, t, [])
    ensures RepeatThen(q + [x], t, [x])
    ensures x == t ==> RepeatThen(q + [x], t, [])
  {
    assert (q + [x])[|q|..] == [x];
  }

  lemma RepeatRead(q: seq<Token>, t: Token, tail: seq<Token>)
    requires RepeatThen(q, t, tail) && q != []
    ensures |q| > |tail| ==> q[0] == t && RepeatThen(q[1..], t, tail)
    ensures |q| == |tail| ==> q == tail
  {
    if |q| > |tail| {
      assert q[1..][|q| - 1 - |tail|..] == tail;
    }
  }

  lemma RepeatReadAll(q: seq<Token>, t: Token)
    requires RepeatThen(q, t, []) && q != []
    ensures q[0] == t && RepeatThen(q[1..], t, [])
  {
    RepeatRead(q, t, []);
  }

  lemma RepeatLength(q: seq<Token>, t: Token, tail: seq<Token>)
    requires RepeatThen(q, t, tail)
    ensures |q| >= |tail|
  {
  }

  lemma RepeatFresh(t: Token, tail: seq<Token>)
    ensures RepeatThen(tail, t, tail)
  {
  }

  lemma ClientOpens(st: State, r: State)
    requires Inv(st) && ClientStep(st, r) && (st.c == CName || st.c == CSync || st.c == CAnswer)
    ensures Inv(r)
  {
    assert st.c == CSync ==> r.up == st.up + [SYNC_UP];
    RepeatFresh(ENTRY, []);
  }

  lemma UploadGrows(s: ServerPc, up: seq<Token>, x: Token)
    requires Uploading(s, up, [])
    ensures Uploading(s, up + [x], [x])
    ensures x == ENTRY ==> Uploading(s, up + [x], [])
  {
    hide RepeatThen;
    match s
    case SName =>
      assert (up + [x])[2..] == up[2..] + [x];
      RepeatEnd(up[2..], ENTRY, x);
    case SCommand =>
      assert (up + [x])[1..] == up[1..] + [x];
      RepeatEnd(up[1..], ENTRY, x);
    case SReadManifest =>
      RepeatEnd(up, ENTRY, x);
    case _ =>
  }

  lemma ClientUploads(st: State, r: State)
    requires Inv(st) && ClientStep(st, r) && st.c == CManifest
    ensures Inv(r)
  {
    hide Uploading;
    UploadGrows(st.s, st.up, ENTRY);
    UploadGrows(st.s, st.up, LISTED);
  }

  lemma ClientPullsOrStarts(st: State, r: State)
    requires Inv(st) && ClientStep(st, r) && (st.c == CPull || st.c == CStart)
    ensures Inv(r)
  {
  }

  lemma ClientSendsDiff(st: State, r: State)
    requires Inv(st) && ClientStep(st, r) && (st.c == CDiff || st.c == CEnd)
    ensures Inv(r)
  {
    var x := r.up[|st.up|];
    if st.c == CDiff {
      RepeatEnd(st.up, PART, x);
      } else if st.s == SReceive {
      RepeatSend(st.up, PART, [FINISH], x);
      assert [FINISH] + [BEGIN] == [FINISH, BEGIN];
    } else {
      assert r.up == [BEGIN];
    }
  }

  lemma ClientServes(st: State, r: State)
    requires Inv(st) && ClientStep(st, r) && (st.c == CServe || st.c == CAwaitFile)
    ensures Inv(r)
  {
    assert r.down == st.down[1..];
  }

  lemma ClientReadsManifest(st: State, r: State)
    requires Inv(st) && ClientStep(st, r) && (st.c == CAwaitSync || st.c == CReadManifest)
    ensures Inv(r)
  {
    if st.c == CReadManifest {
      RepeatRead(st.down, ENTRY, if st.s == SServe then [LISTED] else []);
    }
  }

  lemma ClientReceives(st: State, r: State)
    requires Inv(st) && ClientStep(st, r) && st.c == CReceive
    ensures Inv(r)
  {
    hide RepeatThen;
    RepeatFresh(PART, []);
    if st.s == SDiff {
      RepeatReadAll(st.down, PART);
    } else {
      RepeatRead(st.down, PART, [FINISH]);
      RepeatLength(st.down, PART, [FINISH]);
      assert |st.down| == 1 ==> r.down == [];
    }
  }

  lemma ClientKeepsInv(st: State, r: State)
    requires Inv(st) && ClientStep(st, r)
    ensures Inv(r)
  {
    hide Inv, ClientStep;
    match st.c
    case CName => ClientOpens(st, r);
    case CSync => ClientOpens(st, r);
    case CAnswer => ClientOpens(st, r);
    case CManifest => ClientUploads(st, r);
    case CPull => ClientPullsOrStarts(st, r);
    case CStart => ClientPullsOrStarts(st, r);
    case CDiff => ClientSendsDiff(st, r);
    case CEnd => ClientSendsDiff(st, r);
    case CServe => ClientServes(st, r);
    case CAwaitFile => ClientServes(st, r);
    case CAwaitSync => ClientReadsManifest(st, r);
    case CReadManifest => ClientReadsManifest(st, r);
    case CReceive => ClientReceives(st, r);
  }

  lemma ServerReadsName(st: State, r: State)
    requires Inv(st) && ServerStep(st, r) && (st.s == SName || st.s == SReadManifest)
    ensures Inv(r)
  {
    var tail := if st.c == CServe then [LISTED] else [];
    if st.s == SName {
      if st.c != CSync { assert r.up[1..] == st.up[2..]; }
    } else {
      RepeatRead(st.up, ENTRY, tail);
    }
  }

  lemma ServerReadsCommand(st: State, r: State)
    requires Inv(st) && ServerStep(st, r) && st.s == SCommand
    ensures Inv(r)
  {
    RepeatFresh(PART, []);
  }

  lemma ServerPullsFiles(st: State, r: State)
    requires Inv(st) && ServerStep(st, r) && (st.s == SPull || st.s == SAwaitFile || st.s == SAnswer)
    ensures Inv(r)
  {
  }

  lemma DownloadGrows(c: ClientPc, down: seq<Token>, x: Token)
    requires Downloading(c, down, [])
    ensures Downloading(c, down + [x], [x])
    ensures x == ENTRY ==> Downloading(c, down + [x], [])
  {
    hide RepeatThen;
    match c
    case CServe =>
      assert (down + [x])[2..] == down[2..] + [x];
      RepeatEnd(down[2..], ENTRY, x);
    case CAwaitSync =>
      assert (down + [x])[1..] == down[1..] + [x];
      RepeatEnd(down[1..], ENTRY, x);
    case _ =>
      RepeatEnd(down, ENTRY, x);
  }

  lemma ServerOpensManifest(st: State, r: State)
    requires Inv(st) && ServerStep(st, r) && st.s == SSync
    ensures Inv(r)
  {
    RepeatFresh(ENTRY, []);
    assert r.down == st.down + [SYNC_DOWN];
    assert st.c == CServe ==> r.down == [WRITTEN, SYNC_DOWN] && r.down[2..] == [];
    assert st.c != CServe ==> r.down == [SYNC_DOWN] && r.down[1..] == [];
  }

  lemma ServerSendsManifest(st: State, r: State)
    requires Inv(st) && ServerStep(st, r) && st.s == SManifest
    ensures Inv(r)
  {
    DownloadGrows(st.c, st.down, ENTRY);
    DownloadGrows(st.c, st.down, LISTED);
    assert r.down == st.down + [ENTRY] || r.down == st.down + [LISTED];
  }

  lemma ServerServes(st: State, r: State)
    requires Inv(st) && ServerStep(st, r) && st.s == SServe
    ensures Inv(r)
  {
  }

  lemma ServerSendsDiff(st: State, r: State)
    requires Inv(st) && ServerStep(st, r) && st.s == SDiff
    ensures Inv(r)
  {
    RepeatEnd(st.down, PART, PART);
    RepeatEnd(st.down, PART, FINISH);
    assert r.down == st.down + [PART] || r.down == st.down + [FINISH];
  }

  lemma ServerReceives(st: State, r: State)
    requires Inv(st) && ServerStep(st, r) && st.s == SReceive
    ensures Inv(r)
  {
    match st.c
    case CReceive => RepeatRead(st.up, PART, [FINISH, BEGIN]);
    case CEnd => RepeatRead(st.up, PART, [FINISH]);
    case _ => RepeatRead(st.up, PART, []);
  }

  lemma ServerKeepsInv(st: State, r: State)
    requires Inv(st) && ServerStep(st, r)
    ensures Inv(r)
  {
    hide Inv, ServerStep;
    match st.s
    case SName => ServerReadsName(st, r);
    case SReadManifest => ServerReadsName(st, r);
    case SCommand => ServerReadsCommand(st, r);
    case SPull => ServerPullsFiles(st, r);
    case SAwaitFile => ServerPullsFiles(st, r);
    case SAnswer => ServerPullsFiles(st, r);
    case SSync => ServerOpensManifest(st, r);
    case SManifest => ServerSendsManifest(st, r);
    case SServe => ServerServes(st, r);
    case SDiff => ServerSendsDiff(st, r);
    case SReceive => ServerReceives(st, r);
  }

  // ---------------------------------------------------------------------------------------------
  // Runs

  /** A run: each state is one step of one party after the one before. */
  ghost predicate IsRun(run: seq<State>) {
    && run != [] && run[0] == Start
    && forall i :: 0 <= i < |run| - 1 ==> Step(run[i], run[i + 1])
  }

  lemma {:induction false} RunInv(run: seq<State>, k: nat)
    requires IsRun(run) && k < |run|
    ensures Inv(run[k])
    decreases k
  {
    hide Inv, ClientStep, ServerStep;
    if k == 0 {
      StartInv();
    } else {
      RunInv(run, k - 1);
      assert Step(run[k - 1], run[k]);
      if ClientStep(run[k - 1], run[k]) {
        ClientKeepsInv(run[k - 1], run[k]);
      } else {
        ServerKeepsInv(run[k - 1], run[k]);
      }
    }
  }

  lemma StartInv()
    ensures Inv(Start)
  {
  }

  /** In every state of every run, the token a party is about to read was written for the reader it is in. */
  lemma {:induction false} TokensReachTheirReaders(run: seq<State>, k: nat)
    requires IsRun(run) && k < |run|
    ensures var st := run[k];
            && (ClientReads(st.c) != {} && st.down != [] ==> st.down[0].to in ClientReads(st.c))
            && (ServerReads(st.s) != {} && st.up != [] ==> st.up[0].to in ServerReads(st.s))
  {
    RunInv(run, k);
    HeadsFit(run[k]);
  }

  lemma HeadsFit(st: State)
    requires Inv(st)
    ensures ClientReads(st.c) != {} && st.down != [] ==> st.down[0].to in ClientReads(st.c)
    ensures ServerReads(st.s) != {} && st.up != [] ==> st.up[0].to in ServerReads(st.s)
  {
    ClientHeadFits(st);
    ServerHeadFits(st);
  }

  lemma ClientHeadFits(st: State)
    requires Inv(st)
    ensures ClientReads(st.c) != {} && st.down != [] ==> st.down[0].to in ClientReads(st.c)
  {
    if st.down != [] {
      if st.c == CReadManifest { RepeatRead(st.down, ENTRY, if st.s == SServe then [LISTED] else []); }
      if st.c == CReceive { RepeatRead(st.down, PART, if st.s == SReceive then [FINISH] else []); }
    }
  }

  lemma ServerHeadFits(st: State)
    requires Inv(st)
    ensures ServerReads(st.s) != {} && st.up != [] ==> st.up[0].to in ServerReads(st.s)
  {
    if st.up != [] {
      if st.s == SReadManifest { RepeatRead(st.up, ENTRY, if st.c == CServe then [LISTED] else []); }
      if st.s == SReceive {
        RepeatRead(st.up, PART,
                   if st.c == CReceive then [FINISH, BEGIN] else if st.c == CEnd then [FINISH] else []);
      }
    }
  }

  /** The two parties are never both waiting on empty channels: some step is always possible. */
  lemma {:induction false} NeverBothBlocked(run: seq<State>, k: nat)
    requires IsRun(run) && k < |run|
    ensures exists r :: Step(run[k], r)
    ensures ClientReads(run[k].c) == {} || ServerReads(run[k].s) == {} || run[k].down != [] || run[k].up != []
  {
    RunInv(run, k);
    var st := run[k];
    SomebodyMoves(st);
  }

  lemma SomebodyMoves(st: State)
    requires Inv(st)
    ensures ClientReads(st.c) == {} || ServerReads(st.s) == {} || st.down != [] || st.up != []
    ensures exists r :: Step(st, r)
  {
    if ClientReads(st.c) != {} && st.down != [] {
      var r := st.(down := st.down[1..], c := ClientAfter(st.c, st.down[0].kind));
      assert ClientStep(st, r) && Step(st, r);
    } else if ServerReads(st.s) != {} && st.up != [] {
      var r := st.(up := st.up[1..], s := ServerAfter(st.s, st.up[0].kind));
      assert ServerStep(st, r) && Step(st, r);
    } else if ClientReads(st.c) == {} {
      ClientCanSend(st);
    } else {
      ServerCanSend(st);
    }
  }

  lemma ClientCanSend(st: State)
    requires ClientReads(st.c) == {}
    ensures exists r :: Step(st, r)
  {
    var r :=
      match st.c
      case CName => SentUp(st, Name, NameReader, CSync)
      case CSync => SentUp(st, Sync, CommandReader, CManifest)
      case CManifest => SentUp(st, SyncDone, ManifestReader, CServe)
      case CAnswer => SentUp(st, Response, TransferReader, CServe)
      case CPull => SentUp(st, WriteDone, RequestReader, CStart)
      case CStart => SentUp(st, DoneControl, CommandReader, CReceive)
      case CDiff => SentUp(st, DoneControl, StreamReader, CEnd)
      case _ => SentUp(st, DoneControl, CommandReader, CReceive);
    assert ClientStep(st, r) && Step(st, r);
  }

  lemma ServerCanSend(st: State)
    requires Inv(st) && ClientReads(st.c) != {} && st.down == [] && (ServerReads(st.s) == {} || st.up == [])
    ensures exists r :: Step(st, r)
  {
    assert ServerReads(st.s) == {};
    var r :=
      match st.s
      case SPull => SentDown(st, WriteDone, RequestReader, SSync)
      case SSync => SentDown(st, Sync, SyncReader, SManifest)
      case SManifest => SentDown(st, SyncDone, ManifestReader, SServe)
      case SAnswer => SentDown(st, Response, TransferReader, SServe)
      case _ => SentDown(st, DoneControl, StreamReader, SReceive);
    assert ServerStep(st, r) && Step(st, r);
  }

  /**
   * Of the client's paired DONE_CONTROL messages the first ends the server's receive and the second starts the next
   * round; and a party that waits for a file finds nothing on its channel but that file.
   */
  lemma {:induction false} MarkersAndTransfers(run: seq<State>, k: nat)
    requires IsRun(run) && k < |run|
    ensures var st := run[k];
            && (st.s == SReceive && st.up != [] && st.up[0].kind == DoneControl ==> st.up[0] == FINISH)
            && (st.s == SCommand && st.up != [] && st.up[0].kind == DoneControl ==> st.up == [BEGIN] && st.c == CReceive)
            && (st.s == SAwaitFile ==> st.up == [] || st.up == [RESPONSE])
            && (st.c == CAwaitFile ==> st.down == [] || st.down == [RESPONSE])
  {
    RunInv(run, k);
    HeadsFit(run[k]);
    Waits(run[k]);
  }

  lemma Waits(st: State)
    requires Inv(st)
    ensures st.s == SCommand && st.up != [] && st.up[0].kind == DoneControl ==> st.up == [BEGIN] && st.c == CReceive
    ensures st.s == SAwaitFile ==> st.up == [] || st.up == [RESPONSE]
    ensures st.c == CAwaitFile ==> st.down == [] || st.down == [RESPONSE]
  {
  }

  // ---------------------------------------------------------------------------------------------
  // Every conversation the two programs are meant to have can happen

  /** A stretch of a run between two states. */
  ghost predicate Leads(a: State, run: seq<State>, b: State) {
    && run != [] && run[0] == a && run[|run| - 1] == b
    && forall i :: 0 <= i < |run| - 1 ==> Step(run[i], run[i + 1])
  }

  /** The token a step put on a channel, if it did. */
  function SentIn(a: State, b: State): seq<Token> {
    if |b.up| > |a.up| then [b.up[|b.up| - 1]]
    else if |b.down| > |a.down| then [b.down[|b.down| - 1]]
    else []
  }

  /** All that is sent during a stretch, in either direction. */
  function Traffic(run: seq<State>): seq<Token> {
    if |run| < 2 then [] else SentIn(run[0], run[1]) + Traffic(run[1..])
  }

  function Times(n: nat, w: seq<Token>): seq<Token> {
    if n == 0 then [] else w + Times(n - 1, w)
  }

  /** A stretch from `a` to `b` on which exactly `w` is sent. */
  ghost predicate Says(a: State, w: seq<Token>, b: State) {
    exists run :: Leads(a, run, b) && Traffic(run) == w
  }

  lemma {:induction false} TrafficThen(r: seq<State>, q: seq<State>)
    requires r != [] && q != [] && r[|r| - 1] == q[0]
    ensures Traffic(r + q[1..]) == Traffic(r) + Traffic(q)
    decreases |r|
  {
    if |r| == 1 {
      assert r + q[1..] == q;
    } else {
      assert (r + q[1..])[1..] == r[1..] + q[1..];
      TrafficThen(r[1..], q);
    }
  }

  lemma SaysThen(a: State, v: seq<Token>, b: State, w: seq<Token>, c: State)
    requires Says(a, v, b) && Says(b, w, c)
    ensures Says(a, v + w, c)
  {
    hide Step, Traffic;
    var r :| Leads(a, r, b) && Traffic(r) == v;
    var q :| Leads(b, q, c) && Traffic(q) == w;
    var run := r + q[1..];
    TrafficThen(r, q);
    forall i | 0 <= i < |run| - 1 ensures Step(run[i], run[i + 1]) {
      if i >= |r| - 1 { assert run[i] == q[i - |r| + 1] && run[i + 1] == q[i - |r| + 2]; }
    }
    assert Leads(a, run, c);
  }

  lemma SaysNothing(a: State)
    ensures Says(a, [], a)
  {
    assert Leads(a, [a], a) && Traffic([a]) == [];
  }

  /** One step in which a token is sent and one in which it is read. */
  lemma SendsAndReads(a: State, b: State, c: State, t: Token)
    requires Step(a, b) && Step(b, c) && SentIn(a, b) == [t] && SentIn(b, c) == []
    ensures Says(a, [t], c)
  {
    var run := [a, b, c];
    hide Step;
    assert run[1..] == [b, c] && run[1..][1..] == [c];
    assert Traffic([c]) == [] && Traffic([b, c]) == [];
    assert Leads(a, run, c) && Traffic(run) == [t];
  }

  lemma {:induction false} Repeatedly(a: State, w: seq<Token>, n: nat)
    requires Says(a, w, a)
    ensures Says(a, Times(n, w), a)
  {
    hide Says;
    if n == 0 {
      SaysNothing(a);
    } else {
      Repeatedly(a, w, n - 1);
      SaysThen(a, w, a, Times(n - 1, w), a);
    }
  }

  /** The client says `t` and the server reads it. */
  lemma Up(c: ClientPc, s: ServerPc, t: Token, c': ClientPc, s': ServerPc)
    requires ServerReads(s) != {} && s' == ServerAfter(s, t.kind)
    requires ClientStep(State(c, s, [], []), SentUp(State(c, s, [], []), t.kind, t.to, c'))
    ensures Says(State(c, s, [], []), [t], State(c', s', [], []))
  {
    assert [] + [t] == [t] && [t][1..] == [];
    SendsAndReads(State(c, s, [], []), State(c', s, [t], []), State(c', s', [], []), t);
  }

  /** The server says `t` and the client reads it. */
  lemma Down(c: ClientPc, s: ServerPc, t: Token, c': ClientPc, s': ServerPc)
    requires ClientReads(c) != {} && c' == ClientAfter(c, t.kind)
    requires ServerStep(State(c, s, [], []), SentDown(State(c, s, [], []), t.kind, t.to, s'))
    ensures Says(State(c, s, [], []), [t], State(c', s', [], []))
  {
    assert [] + [t] == [t] && [t][1..] == [];
    SendsAndReads(State(c, s, [], []), State(c, s', [], [t]), State(c', s', [], []), t);
  }

  const ServerTurn := State(CServe, SPull, [], [])
  const ClientTurn := State(CPull, SServe, [], [])
  const AtRound := State(CReceive, SDiff, [], [])

  /** Any manifest of the client's can be sent. */
  lemma SaysUpload(n: nat)
    ensures Says(Start, [NAME, SYNC_UP] + Times(n, [ENTRY]) + [LISTED], ServerTurn)
  {
    hide Says, Times;
    var m := State(CManifest, SReadManifest, [], []);
    Up(CName, SName, NAME, CSync, SCommand);
    Up(CSync, SCommand, SYNC_UP, CManifest, SReadManifest);
    Up(CManifest, SReadManifest, ENTRY, CManifest, SReadManifest);
    Up(CManifest, SReadManifest, LISTED, CServe, SPull);
    hide SentUp, SentDown;
    SaysThen(Start, [NAME], State(CSync, SCommand, [], []), [SYNC_UP], m);
    assert [NAME] + [SYNC_UP] == [NAME, SYNC_UP];
    Repeatedly(m, [ENTRY], n);
    SaysThen(Start, [NAME, SYNC_UP], m, Times(n, [ENTRY]), m);
    SaysThen(Start, [NAME, SYNC_UP] + Times(n, [ENTRY]), m, [LISTED], ServerTurn);
  }

  /** Any number of files can be pulled by the server, and then any manifest of its own be sent. */
  lemma SaysServerTurn(p: nat, n: nat)
    ensures Says(ServerTurn, Times(p, [REQUEST, RESPONSE]) + [WRITTEN, SYNC_DOWN] + Times(n, [ENTRY]) + [LISTED], ClientTurn)
  {
    hide Says, Times;
    var m := State(CReadManifest, SManifest, [], []);
    Down(CServe, SPull, REQUEST, CAnswer, SAwaitFile);
    Up(CAnswer, SAwaitFile, RESPONSE, CServe, SPull);
    Down(CServe, SPull, WRITTEN, CAwaitSync, SSync);
    Down(CAwaitSync, SSync, SYNC_DOWN, CReadManifest, SManifest);
    Down(CReadManifest, SManifest, ENTRY, CReadManifest, SManifest);
    Down(CReadManifest, SManifest, LISTED, CPull, SServe);
    hide SentUp, SentDown;
    SaysThen(ServerTurn, [REQUEST], State(CAnswer, SAwaitFile, [], []), [RESPONSE], ServerTurn);
    SaysThen(ServerTurn, [WRITTEN], State(CAwaitSync, SSync, [], []), [SYNC_DOWN], m);
    assert [REQUEST] + [RESPONSE] == [REQUEST, RESPONSE] && [WRITTEN] + [SYNC_DOWN] == [WRITTEN, SYNC_DOWN];
    Repeatedly(ServerTurn, [REQUEST, RESPONSE], p);
    Repeatedly(m, [ENTRY], n);
    var w := Times(p, [REQUEST, RESPONSE]);
    SaysThen(ServerTurn, w, ServerTurn, [WRITTEN, SYNC_DOWN], m);
    SaysThen(ServerTurn, w + [WRITTEN, SYNC_DOWN], m, Times(n, [ENTRY]), m);
    SaysThen(ServerTurn, w + [WRITTEN, SYNC_DOWN] + Times(n, [ENTRY]), m, [LISTED], ClientTurn);
  }

  /** Any number of files can be pulled by the client, and then the first round begins. */
  lemma SaysClientTurn(p: nat)
    ensures Says(ClientTurn, Times(p, [REQUEST, RESPONSE]) + [WRITTEN, BEGIN], AtRound)
  {
    hide Says, Times;
    Up(CPull, SServe, REQUEST, CAwaitFile, SAnswer);
    Down(CAwaitFile, SAnswer, RESPONSE, CPull, SServe);
    Up(CPull, SServe, WRITTEN, CStart, SCommand);
    Up(CStart, SCommand, BEGIN, CReceive, SDiff);
    hide SentUp, SentDown;
    SaysThen(ClientTurn, [REQUEST], State(CAwaitFile, SAnswer, [], []), [RESPONSE], ClientTurn);
    SaysThen(ClientTurn, [WRITTEN], State(CStart, SCommand, [], []), [BEGIN], AtRound);
    assert [REQUEST] + [RESPONSE] == [REQUEST, RESPONSE] && [WRITTEN] + [BEGIN] == [WRITTEN, BEGIN];
    Repeatedly(ClientTurn, [REQUEST, RESPONSE], p);
    SaysThen(ClientTurn, Times(p, [REQUEST, RESPONSE]), ClientTurn, [WRITTEN, BEGIN], AtRound);
  }

  /**
   * Every handshake can happen: whatever the sizes of the manifests and however many files each side pulls, there is a run
   * on which exactly those tokens are exchanged and the first round begins.
   */
  lemma {:induction false} AnyHandshake(n: nat, p: nat, n': nat, p': nat)
    ensures Says(Start,
                 ([NAME, SYNC_UP] + Times(n, [ENTRY]) + [LISTED])
                 + (Times(p, [REQUEST, RESPONSE]) + [WRITTEN, SYNC_DOWN] + Times(n', [ENTRY]) + [LISTED])
                 + (Times(p', [REQUEST, RESPONSE]) + [WRITTEN, BEGIN]),
                 AtRound)
  {
    hide Says, Times;
    SaysUpload(n);
    SaysServerTurn(p, n');
    SaysClientTurn(p');
    var u := [NAME, SYNC_UP] + Times(n, [ENTRY]) + [LISTED];
    var v := Times(p, [REQUEST, RESPONSE]) + [WRITTEN, SYNC_DOWN] + Times(n', [ENTRY]) + [LISTED];
    var w := Times(p', [REQUEST, RESPONSE]) + [WRITTEN, BEGIN];
    SaysThen(Start, u, ServerTurn, v, ClientTurn);
    SaysThen(Start, u + v, ClientTurn, w, AtRound);
  }

  /** So can every round: any number of diff parts down, then any number up, and the next round begins. */
  lemma {:induction false} AnyRound(k: nat, l: nat)
    ensures Says(AtRound, Times(k, [PART]) + [FINISH] + Times(l, [PART]) + [FINISH, BEGIN], AtRound)
  {
    hide Says, Times;
    var m := State(CDiff, SReceive, [], []);
    Down(CReceive, SDiff, PART, CReceive, SDiff);
    Down(CReceive, SDiff, FINISH, CDiff, SReceive);
    Up(CDiff, SReceive, PART, CDiff, SReceive);
    Up(CDiff, SReceive, FINISH, CEnd, SCommand);
    Up(CEnd, SCommand, BEGIN, CReceive, SDiff);
    hide SentUp, SentDown;
    SaysThen(m, [FINISH], State(CEnd, SCommand, [], []), [BEGIN], AtRound);
    assert [FINISH] + [BEGIN] == [FINISH, BEGIN];
    Repeatedly(AtRound, [PART], k);
    Repeatedly(m, [PART], l);
    var w := Times(k, [PART]);
    SaysThen(AtRound, w, AtRound, [FINISH], m);
    SaysThen(AtRound, w + [FINISH], m, Times(l, [PART]), m);
    SaysThen(AtRound, w + [FINISH] + Times(l, [PART]), m, [FINISH, BEGIN], AtRound);
  }

  /** Any number of rounds after any handshake is a run. */
  lemma {:induction false} AnySession(n: nat, p: nat, n': nat, p': nat, k: nat, l: nat, rounds: nat)
    ensures exists run :: IsRun(run) && run[|run| - 1] == AtRound &&
              Traffic(run) == ([NAME, SYNC_UP] + Times(n, [ENTRY]) + [LISTED])
                              + (Times(p, [REQUEST, RESPONSE]) + [WRITTEN, SYNC_DOWN] + Times(n', [ENTRY]) + [LISTED])
                              + (Times(p', [REQUEST, RESPONSE]) + [WRITTEN, BEGIN])
                              + Times(rounds, Times(k, [PART]) + [FINISH] + Times(l, [PART]) + [FINISH, BEGIN])
  {
    hide Times, Traffic, Step;
    AnyHandshake(n, p, n', p');
    AnyRound(k, l);
    var h := ([NAME, SYNC_UP] + Times(n, [ENTRY]) + [LISTED])
             + (Times(p, [REQUEST, RESPONSE]) + [WRITTEN, SYNC_DOWN] + Times(n', [ENTRY]) + [LISTED])
             + (Times(p', [REQUEST, RESPONSE]) + [WRITTEN, BEGIN]);
    var r := Times(k, [PART]) + [FINISH] + Times(l, [PART]) + [FINISH, BEGIN];
    Repeatedly(AtRound, r, rounds);
    SaysThen(Start, h, AtRound, Times(rounds, r), AtRound);
    var run :| Leads(Start, run, AtRound) && Traffic(run) == h + Times(rounds, r);
    assert IsRun(run);
  }
}
