# BibakBOX in Dafny

BibakBOX keeps a directory on a server and a directory on a client in agreement. This project models the parts of it in
which that promise is kept or lost, and proves what holds.

## The parts

**Incremental synchronisation.** A check scans a directory against the tree remembered from the last check, flags nodes of
both trees in place, and sends updates, then deletes, then creates as a brace-delimited byte stream. The peer's five nested
readers turn the bytes back into changes of its files. Three layers are modelled, each proved to refine the next.

| layer | modules |
|---|---|
| nodes flagged in place, byte loops over growing buffers, a mutable disk | `FileTree`, `MarkedDiff`, `Receiver`, `UpdateReader`, `DeleteReader`, `CreateReader`, `Runtime`, `RoundLoop` |
| messages `Update`, `Delete`, `MkDir`, `Create`, and what a scan and its walks say on values | `Diff`, `Journal`, `Replica`, `Text`, `Listings` |
| a directory tree as a finite map from paths to entries | `FileSystem`, `Patch`, `Convergence`, `Rounds` |

The top of it is `Rounds.RunConverges`: whatever independent edits the users make on both sides, every round leaves both
replicas equal to the three-way merge, for any number of rounds. `RoundLoop.PlayRound` says that the imperative programs compute
exactly those rounds.

**Initial handshake.** The client sends a manifest of its tree, the server pulls every file and moves its own conflicting
files aside; then the server sends the merged manifest and the client pulls what it lacks. `Manifest` is the codec,
`Transfer` the chunked copy, `PullServer` the two ends of a pull, `Handshake` the effect on trees, `Pulls` the effect on
disks, and `HandshakeRun` the whole exchange between two disks, which ends in a state from which `RunConverges` applies.

**Concurrency.** `Session` is the conversation of one client and its server worker over two channels, `ThreadPool` the
dispatcher and its workers, `LockTable` the growing table of per-path locks. Each is a state machine over single steps with a
program counter per thread or party; the results speak about every reachable state of every interleaving.

## What is assumed of the environment

- Opens, writes and allocations succeed. A read returns the smaller of what was asked for and what was sent, in order.
- Names are not empty and contain no NUL, `/`, `{`, `}` or `,`; full paths have at most 254 characters; siblings have
  different names. No client entry is named `log.txt` (a conjunct of `Rounds.LegalMoves` and of `Handshake.Ready`). The server's
  folder has one: buildTree and the server's scan pass over it in the raw listing (`Diff.Kept`), and what is left is the
  server's replica (`FileSystem.Shown`, `Rounds.KeptLists`). That it stays where it is is proved (`Rounds.LogStays`).
- A path never changes between file and folder from one check to the next. A user's edit that changes a file's content
  changes its modification time. Nobody edits during a round.
- Edits of one round are independent: no path touched on one side equals, contains or lies below one touched on the other.
- A content lies in the exact domain of the command that carries it (see below): a new file in that of creates, an edited one
  in that of updates, a file either side pulls in that of the chunked transfer (`Rounds.EditsFit`, `EchoesFit`, `Handshake.Ready`).
- Buffers have one slot more than their text. Condition variables do not wake up spuriously. There is at least one worker and
  all workers are parked at first. Timestamps of renamed files have a fixed width, and backup names are free.
- A directory is read in any order, and a listing is given raw, as readdir and stat present it; a file is stamped with any time
  when it is written. Both are parameters.

## Where the code does not do what it is for

Each of these is kept as the code has it, with the exact condition proved for all inputs.

- An updated file whose length is a multiple of 2048, an emptied file among them, gets the text `EMPTY_FILE` appended on the
  other side; leading and doubled `{` are dropped (`UpdateReader.UpdateExact`, `UpdateTransferSentinel`, `UpdateOfEmptyFile`).
- A created file with a brace in it does not arrive, and one with the content `EMPTY_FILE` is silently lost
  (`CreateReader.CreateExact`, `SentinelTextLost`). For a whole stream `Receiver.StreamExact` says the same of all its contents.
- The client keeps the tree it built before it pulled. A pulled file that nobody has touched since goes back to the server as a
  create in the first round. The server performs exactly the client's diff if and only if all those files are in the domain of
  creates (`Rounds.EchoesExact`); a file that ends in `{`, pulled unharmed, is cut on the server (`CreateReader.BraceCut`).
- For the same reason a pulled file that the client deletes before the first round stays on the server (`Convergence.LostDelete`).
  A round merges if and only if the client's snapshot knows every path deleted there or a deleted folder above it
  (`Rounds.DeletesExact`).
- The chunked transfer leaves the receiver waiting for lengths that are multiples of 512 but not of 2048, 512 plain characters
  among them (`Transfer.TransferExact`, `TransferWaits`, `OneChunkWaits`). A last chunk that happens to be the text `{EMPTY_FILE}` is
  lost.
- A path over the length limit is skipped without emptying the buffer. From then on the buffer only grows, and the reader takes
  neither a later path nor the end of its section: one long path swallows the rest of the stream (`DeleteReader.DeleteExact`,
  `LongPathSwallows`, `Receiver.UpdateCommandExact`, `LongUpdateSwallows`, `PullServer.RequestExact`, `LongRequestSwallows`).
- An update of a file that is missing ends the receiving process (`FileSystem.Step` gives `None`); in legal rounds it cannot
  happen (`Rounds.RoundTheorem`).
- The log's UPDATED lines also list every created node (`MarkedDiff.CheckLog`).

## Model

| member | source | states |
|---|---|---|
| Rounds.RunConverges | src/BibakBOXClient.c:113-133 | whole-run convergence: from a synchronised state, after any number of rounds of legal edits on both sides no process has exited, every round has left both replicas equal to the three-way merge of its edits, and both snapshots agree with them |
| Rounds.RoundTheorem | src/serverThread.c:240-277 | one round, bytes included: both disks end with exactly the three-way merge of the edits, the rest of both disks is untouched, the state is synchronised again with exact snapshots, and only the marker that starts the next round is left unread |
| Rounds.LogStays | src/syncCheckSendServer.c:124-129 | the log file stays on the server: in a legal round no message of the server's check and no path of the client's folder has log.txt in it, and the server's own such entries are exactly as they were, except in folders the client deleted |
| Rounds.LogNotSent | src/syncCheckSendServer.c:115-184 | for every raw listing, no message of the server's check and no node it remembers has log.txt in its path |
| Rounds.FirstHalf | src/serverThread.c:252-261 | the server's check is delivered to the client: exactly the diff is performed below the client's folder, no path with log.txt in it appears there, and the stream is read to its end |
| Rounds.SecondHalf | src/BibakBOXClient.c:118-132 | the client's check, echoes of the server's own changes included, is delivered to the server; its log.txt entries stay as they were but for those in deleted folders, and the second DONE_CONTROL stays for the command reader |
| Rounds.CheckDelivers | src/syncCheckSendClient.c:67-105 | the bytes of any check, read by the peer's five nested readers, change its replica by exactly the diff, leave everything outside alone and consume exactly those bytes |
| Rounds.CheckExact | src/syncCheckSendClient.c:67-105 | the peer performs exactly the messages of a check, and consumes exactly its bytes, if and only if every updated content is in the update domain and every created one in the create domain |
| Rounds.SecondLegFits | src/syncCheckSendClient.c:67-105 | of legal edits, the client's diff carries only paths that arrive, and only contents that do if and only if the echoes of the handshake fit |
| Rounds.RoundSettles | src/BibakBOXClient.c:113-133 | after one round both replicas equal the merge and the client's snapshot, stale after the handshake, is exact |
| Rounds.HandshakeSyncs | src/BibakBOXClient.c:139-165 | the handshake leaves a synchronised state although the client keeps the tree it built before pulling |
| Rounds.LegalPossible | src/serverThread.c:240-277 | every pair of legal edits can be played as a round: the directory listings a legal round asks for always exist |
| Rounds.FreshStart | src/BibakBOXClient.c:139-165 | two empty replicas at any pair of paths are synchronised |
| Rounds.PutsArrive | src/BibakBOXClient.c:113-133 | from a settled state any two independent files, one put into each folder, new ones with contents a create carries or changed ones with contents an update carries, are on both sides after one round, beside all else that was there |
| Rounds.FirstFilesArrive | src/BibakBOXClient.c:113-133 | from two empty replicas, with every condition on names, lengths and contents spelled out, two first files, one on each side, are on both after one round |
| Rounds.QuietCheck | src/syncCheckSendClient.c:67-105 | a check of a directory, read in any order, against any snapshot that agrees with it sends the five phase markers and nothing else |
| Rounds.QuietRecheck | src/syncCheckSendClient.c:67-105 | after any check, a second one of the unchanged directory, read in whatever order, sends the five phase markers and nothing else |
| Rounds.QuietRound | src/BibakBOXClient.c:113-133 | a round without edits from a settled state: only markers go both ways, neither disk changes and the state stays settled |
| Rounds.EchoesExact | src/BibakBOXClient.c:139-165 | first round after a handshake: the server performs exactly the client's diff, and leaves exactly the next round's marker, if and only if every pulled and since untouched file holds a content a create transfers |
| Rounds.DeletesExact | src/BibakBOXClient.c:139-165 | a round never exits, and merges if and only if the client's snapshot knows every path the client deleted or a deleted folder above it |
| RoundLoop.PlayRound | src/BibakBOXClient.c:113-133 | the imperative round of both programs, run against each other, computes exactly `Rounds.Round` (exits included), and leaves on the channels exactly what the two streams leave unread |
| RoundLoop.ClientRound | src/BibakBOXClient.c:113-133 | one turn of the client's loop: the received stream is performed, the check runs on a deep copy, and no field of any node of the remembered tree changes |
| RoundLoop.ClientSends | src/BibakBOXClient.c:119-132 | the client's check followed by DONE_CONTROL twice; the tree returned is fit for the next round |
| RoundLoop.ServerSends | src/serverThread.c:252-261 | the server's check followed by DONE_CONTROL, with the log lines of exactly its messages |
| RoundLoop.ServerReceives | src/serverThread.c:265-275 | the client's stream performed on the server's disk, then the tree built anew |
| Convergence.RoundMerges | src/serverThread.c:240-277 | for independent edits the server's diff leaves the client at the three-way merge, and the client's diff then brings the server there, whatever times the writes are stamped with, if and only if the client's snapshot notices all its deletions |
| Convergence.FirstLeg | src/serverThread.c:252-261 | after the server's diff the client holds the merge, and its own entry, times included, wherever the server touched nothing |
| Convergence.SecondLeg | src/BibakBOXClient.c:118-120 | the client's diff against its pre-round snapshot brings the server to the client's tree if and only if it tells every deletion |
| Convergence.LostDelete | src/BibakBOXClient.c:139-165 | the smallest failure: one file pulled in the handshake and deleted on the client stays on the server |
| Convergence.BothCreate | src/serverThread.c:240-277 | the smallest round with edits on both sides: each side creates a file and both end with both |
| Convergence.ClientReceives | src/serverThread.c:252-261 | in a round the client always satisfies what the server's diff needs: updated files exist, parents are there, kinds agree |
| Convergence.ServerReceives | src/BibakBOXClient.c:118-120 | so does the server for the client's diff |
| Convergence.PatchCorrect | src/syncCheckSendClient.c:67-105 | patch correctness in general form: a replica that agrees wherever the diff is silent, and has nothing extra but what it deletes, becomes exactly the sender's tree |
| Convergence.DiffEffect | src/syncCheckSendClient.c:67-105 | replaying any listing of the differences with parents first never makes the receiver exit and leaves the closed form |
| Patch.PatchEffect | src/syncCheckReceive.c:28-119 | updates, then deletes, then creates, of any number, leave exactly the tree given entry by entry in closed form |
| Patch.ReplayUpdates | src/syncCheckReceive.c:121-203 | updates change exactly the named files |
| Patch.ReplayDeletes | src/syncCheckReceive.c:262-377 | a delete list leaves exactly the nodes not at or below any deleted path; descendants of a removed folder are no-ops |
| Patch.ReplayCreates | src/syncCheckReceive.c:417-535 | creates with parents first add exactly the named nodes |
| Patch.DeleteIsRemoveTree | src/syncCheckReceive.c:300-361 | one delete removes exactly the path and what lies below it, whether or not it is there |
| FileSystem.ReplayShape | src/syncCheckReceive.c:28-119 | no list of messages breaks the tree: every node keeps sitting in a folder |
| FileSystem.ReplayConcat | src/syncCheckReceive.c:28-119 | performing two lists one after the other is performing their concatenation |
| FileSystem.ReplayKeepsLog | src/serverThread.c:113-148 | messages about paths without log.txt in them keep every entry that has it in its path, except below a deleted folder |
| FileSystem.RenamedFile | src/fileOperations.c:138-151 | renaming a file to a name that is free, or another file's, moves that entry there and changes nothing else |
| Replica.ReplayOnView | src/syncCheckReceive.c:43-101 | performing messages below a folder of the disk is performing them on the folder as a tree of its own, and nothing outside changes |
| Replica.ViewClosed | src/syncCheckReceive.c:43-101 | the folder seen as a tree of its own is well formed |
| Receiver.StreamRefinement | src/syncCheckReceive.c:28-119 | the nested readers, run on the bytes of any updates, deletes and creates followed by DONE_CONTROL and anything else, perform exactly those messages in order and leave exactly what follows |
| Receiver.StreamExact | src/syncCheckReceive.c:28-119 | the converse: exactly the messages are performed and exactly the tail is left only if every update and every create holds a content its command transfers |
| Receiver.TopCreatesOk | src/syncCheckReceive.c:28-119 | whatever bytes arrive, every file they create holds a content a create transfers |
| Receiver.DirsAgree | src/syncCheckReceive.c:43-101 | the two ways of putting directory and root name together name the same folder, and differ in length exactly when the directory ends in a slash |
| Receiver.UpdateArrives | src/syncCheckReceive.c:121-203 | one update command is performed once and the top-level reader is back at the next command |
| Receiver.DeletesArrive | src/syncCheckReceive.c:262-377 | the delete section performs exactly the printed paths and ends after its marker |
| Receiver.CreatesArrive | src/syncCheckReceive.c:417-535 | the create section performs exactly the printed commands and ends after its marker |
| Receiver.SyncCheckReceive | src/syncCheckReceive.c:28-119 | the reading loop leaves the disk and the channel as its specification function says, or exits exactly when an updated file is missing |
| Receiver.ReceiveSection | src/syncCheckReceive.c:43-101 | the branch of one keyword runs the reader that belongs to it |
| Receiver.SyncReceiveFile | src/syncCheckReceive.c:121-203 | reads one path and its content, skips paths over the limit without emptying the buffer, exits when the file cannot be opened |
| Receiver.UpdateCommandExact | src/syncCheckReceive.c:121-203 | one update is performed with exactly its content, and exactly its bytes are consumed, if and only if its full path is within the limit and its content is in the exact domain |
| Receiver.LongUpdateSwallows | src/syncCheckReceive.c:143-148 | an update whose path is over the limit swallows everything that follows |
| Text.ResolveRendered | src/syncCheckReceive.c:139-141 | a printed relative path glued to any directory string names exactly that path below the directory |
| Text.RenderInjective | src/syncCheckSendCommon.c:188-189 | different paths print differently |
| Text.CStrStops | src/syncCheckReceive.c:226-231 | what is written of a buffer is its longest prefix without a NUL |
| UpdateReader.UpdateExact | src/syncCheckReceive.c:206-260 | an update reproduces a content if and only if it has no closing brace, no NUL, no leading or doubled opening brace and a length that is no multiple of 2048 |
| UpdateReader.UpdateOutExact | src/syncCheckReceive.c:206-260 | already what is written to the file equals the content only for those contents |
| UpdateReader.UpdateTransfer | src/syncCheckReceive.c:206-260 | any other NUL-free, `}`-free content of such a length arrives with leading braces dropped and runs of braces collapsed to one |
| UpdateReader.UpdateTransferSentinel | src/syncCheckSendCommon.c:291-302 | at a multiple of 2048 the sentinel's text is appended to the file |
| UpdateReader.UpdateOfEmptyFile | src/syncCheckSendCommon.c:291-302 | a file emptied by an edit is not empty on the other side |
| UpdateReader.ReadsContent | src/syncCheckReceive.c:206-260 | the pending-brace invariant: output, pending brace and buffer together are the normal form of the prefix read so far |
| UpdateReader.SqueezeFixes | src/syncCheckReceive.c:214-234 | the normal form of a content is the content exactly when it has no leading and no doubled brace |
| UpdateReader.NeverWritesMarkers | src/syncCheckReceive.c:206-260 | whatever is sent, no closing brace and no NUL ever reaches the file |
| UpdateReader.ReadSocketWriteFile | src/syncCheckReceive.c:206-260 | the byte loop over buffer and `flag` writes what the specification function says and consumes exactly up to SYNC_DONE |
| UpdateReader.SendFile | src/syncCheckSendCommon.c:280-313 | the block loop sends exactly the content, and after it {EMPTY_FILE} exactly when the length is a multiple of 2048 |
| CreateReader.CreateExact | src/syncCheckReceive.c:417-535 | a created file arrives as sent and nothing else happens if and only if its content has no brace and no NUL and is not the text EMPTY_FILE, whatever its length |
| CreateReader.FileCreated | src/syncCheckReceive.c:417-535 | the `fileFlag`/`contentCount` machine creates such a file exactly once and is idle again |
| CreateReader.FolderCreated | src/syncCheckReceive.c:482-503 | a folder command makes exactly one folder and the machine is idle again |
| CreateReader.SentinelTextLost | src/syncCheckReceive.c:433-478 | a file whose content is EMPTY_FILE is silently not created |
| CreateReader.BraceCut | src/syncCheckReceive.c:433-478 | a content that ends in an opening brace is created without it |
| CreateReader.CreatesPlain | src/syncCheckReceive.c:417-535 | from any state, on any bytes, no file is created with a brace or a NUL in it or with the text EMPTY_FILE |
| CreateReader.PathIsNoKeyword | src/syncCheckSendCommon.c:260-266 | a printed path starts with a slash and so is never taken for a keyword |
| CreateReader.CreateReceiveFile | src/syncCheckReceive.c:417-535 | the loop over the flags performs the messages its specification function lists and leaves what that leaves |
| DeleteReader.RemoveDirectory | src/syncCheckReceive.c:379-415 | the recursive removal terminates, succeeds, and removes exactly the nodes at or below its path, whatever order the entries come in |
| DeleteReader.DeletePath | src/syncCheckReceive.c:300-361 | a received path that is a folder, a file or absent has exactly the effect of the delete message |
| DeleteReader.DeleteReceiveFile | src/syncCheckReceive.c:262-377 | the loop performs the delete messages its specification function lists, paths over the limit skipped |
| DeleteReader.DeleteExact | src/syncCheckReceive.c:262-377 | a delete section with one path performs exactly that delete and ends if and only if the full path has at most 254 characters |
| DeleteReader.LongPathSwallows | src/syncCheckReceive.c:296-299 | after a path over the limit no later path and not even the end marker is seen, whatever follows |
| Diff.ScanExact | src/syncCheckSendCommon.c:172-241 | exact diff from marks that are all down: updates, deletes and creates list exactly the changed files, the vanished and the new paths, each once, a folder before its contents |
| Diff.ScanMarks | src/syncCheckSendCommon.c:215-228 | the scan raises exactly the flags of remembered paths that are still there and changes nothing else of any node |
| Diff.ScanMirrors | src/syncCheckSendCommon.c:209-237 | the new tree has exactly the directory's paths, each node with its entry's kind, time and size, and a node is flagged exactly when its path was not remembered |
| Diff.ScanSendsOnlyDue | src/syncCheckSendCommon.c:221-225 | every update sent is due: a file on both sides whose modification time differs, with its content on disk |
| Diff.ScanSendsDue | src/syncCheckSendCommon.c:221-225 | every due update is sent |
| Diff.ScanSendsOnce | src/syncCheckSendCommon.c:221-225 | no update is sent twice |
| Diff.SelectExact | src/syncCheckSendCommon.c:126-142 | a walk visits exactly the paths whose flag it looks for |
| Diff.SelectOnce | src/syncCheckSendCommon.c:126-142 | a walk visits no path twice |
| Diff.SelectParentFirst | src/syncCheckSendCommon.c:87-102 | a walk visits a selected folder before its selected contents |
| Diff.ScanCoherent | src/syncCheckSendCommon.c:87-102 | once the create walk has lowered the flags the new tree is what buildTree produces from the same directory, whatever was remembered |
| Diff.BuildIsExact | src/fileTree.c:32-76 | the tree built from a directory remembers exactly that directory |
| Diff.BuildMirrors | src/fileTree.c:50-68 | the tree built from a directory has a node exactly where there is an entry, with its kind, its time and the size stat gives, for a file the length of its content |
| Diff.KeptTree | src/fileTree.c:40-44 | of a raw listing the loops look at exactly the paths without log.txt in them |
| Diff.LogNotBuilt | src/fileTree.c:40-44 | for every raw listing, the tree built has a node exactly at the paths without log.txt in them |
| Diff.Quiescent | src/syncCheckSendClient.c:67-105 | a scan of a directory, in any order, against any snapshot that agrees with it finds nothing to send |
| Diff.TreeOfClosed | src/fileTree.c:32-76 | every directory listing with distinct names denotes a well-formed tree |
| Listings.ListingExists | src/fileTree.c:32-76 | and every well-formed tree has such a listing |
| FileTree.CopyFileTree | src/fileTree.c:113-140 | deep copy isolation: the copy is equal at every depth, shares no node with its source, and the source is untouched |
| FileTree.FileNode.AddChild | src/fileTree.c:78-82 | the children grow by one slot holding a copy of the node's fields |
| FileTree.BuildTree | src/fileTree.c:32-76 | the tree grown in place from a raw listing, log.txt passed over, slot before contents, is the value the directory denotes |
| MarkedDiff.SyncCheck | src/syncCheckSendServer.c:71-113 | the whole check on nodes marked in place, client and server version, the server's passing over log.txt in the raw listing: its bytes are those of the exact diff, the log gets the lines of exactly its messages, the tree returned is the one to remember, and the old one is left marked |
| MarkedDiff.BuildTreeForCheck | src/syncCheckSendCommon.c:172-241 | the in-place scan of a raw listing, children arrays growing by value copy during the recursion and log.txt passed over on the server, computes what `Diff.Scan` says: new nodes, marks, updates sent |
| MarkedDiff.MarkMatches | src/syncCheckSendCommon.c:215-228 | the loop over the remembered children flags exactly the one with the entry's name and sends it exactly when it is due |
| MarkedDiff.ScanMatched | src/syncCheckSendCommon.c:234-236 | the recursion marks below the matched child only |
| MarkedDiff.SendDeletedFilesAndFree | src/syncCheckSendCommon.c:126-142 | the delete walk sends exactly the unmarked paths, parents first |
| MarkedDiff.SendCreateFiles | src/syncCheckSendCommon.c:87-102 | the create walk sends exactly the marked nodes, parents first, and lowers every flag |
| MarkedDiff.UpdateNode | src/syncCheckSendServer.c:186-236 | one command with its content, and its UPDATED line |
| MarkedDiff.CheckLog | src/syncCheckSendServer.c:115-355 | the logged diff: DELETED lines are the deletes, CREATED lines the creates, UPDATED lines the updates followed by the creates, in the order sent |
| Journal.DiffLog | src/syncCheckSendServer.c:186-347 | the same for any list of updates, deletes and creates |
| Manifest.ManifestRoundTrip | src/commonSyncFile.c:128-177 | the manifest of any tree with good names is parsed back as exactly the preorder list of (path, size, type), up to its end marker |
| Manifest.ItemsRoundTrip | src/commonSyncFile.c:128-177 | so is any list of entries with plain, comma-free paths, whatever the scan variables held before |
| Manifest.ItemScanStops | src/commonSyncFile.c:150-160 | an entry that ends early, or whose size or type is no number, keeps the values of the entry before it |
| Manifest.NumberRoundTrip | src/commonSyncFile.c:157-157 | a printed decimal, negative or not, is read back and the scan stops at the next non-digit |
| Manifest.NumberScanned | src/commonSyncFile.c:157-157 | so is one after white space or with a plus sign |
| Manifest.ItemsFollowWalk | src/commonSyncFile.c:195-217 | the printed paths are those of the walk over the tree, so a folder comes before its contents |
| Manifest.ReceiveSyncFiles | src/commonSyncFile.c:128-177 | the parsing loop with its doubling list returns exactly the entries, or exits when the stream ends early |
| Manifest.ItemList.Add | src/commonSyncFile.c:161-166 | the list grows by the new entry, across the doubling of its array |
| Manifest.SendSyncFile | src/commonSyncFile.c:195-217 | the recursion prints the preorder list of the subtree |
| Manifest.SendSyncFileWrapper | src/commonSyncFile.c:26-38 | the manifest between {SYNC} and {SYNC_DONE} |
| Transfer.TransferExact | src/fileOperations.c:83-113 | a chunked transfer ends with an exact copy and an empty channel if and only if the content has no NUL, its length is a multiple of 2048 or no multiple of 512, and its last chunk is not the sentinel's text |
| Transfer.TransferWaits | src/fileOperations.c:97-113 | the receiver is left waiting exactly for lengths that are multiples of 512 but not of 2048 |
| Transfer.OneChunkWaits | src/fileOperations.c:97-113 | for 512 plain characters the receiver has them all and waits for more |
| Transfer.TransferOutcome | src/fileOperations.c:83-113 | what the receiver has written, has left and waits for, for every NUL-free content |
| Transfer.ReceiveFile | src/fileOperations.c:97-113 | the copy loop over a 512-byte buffer computes that outcome on the file and the channel |
| Handshake.HandshakeConverges | src/syncFileServer.c:37-80 | convergence without loss: both sides end with the same tree but for the log file, every client entry is untouched, every server-only entry is untouched, every conflicting server file survives at its backup name; the client gets no path with log.txt in it and the server keeps exactly its own |
| Handshake.BackupInjective | src/fileOperations.c:138-151 | with fixed-width timestamps different files never get the same backup name |
| Handshake.ServerStepPulls | src/fileOperations.c:30-80 | pulling one entry keeps the invariant of the server's half: pulled, moved aside or unchanged |
| Handshake.ClientPullsAll | src/commonSyncFile.c:180-193 | the client's pulls never fail, keep all it had and add exactly what it lacked |
| Handshake.ServerPullsAll | src/commonSyncFile.c:180-193 | the server's pulls never fail, because every parent precedes its contents and every backup name is free |
| Handshake.ManifestOfListing | src/commonSyncFile.c:195-217 | the manifest of a directory lists every path once, parents first, in whatever order the directory is read |
| Pulls.ServerPullsOnDisk | src/fileOperations.c:30-80 | on the server's disk the pulls do to its replica what they do to a tree, and nothing elsewhere |
| Pulls.ClientPullsOnDisk | src/fileOperations.c:30-80 | the same on the client's disk |
| Pulls.ManifestAbout | src/commonSyncFile.c:195-217 | the entries of a directory's manifest are the root's and then one about each path of the tree: its kind, 0 for a file and 1 for a folder, and for a file the length of its content as size |
| Pulls.ManifestTells | src/commonSyncFile.c:128-217 | what the other side reads off the manifest of a directory: for every path its name and kind, and for every file the length of its content, up to the end marker |
| PullServer.RequestAnswered | src/commonSyncFile.c:40-126 | a request for a file that is there is answered with that file's bytes and nothing else |
| PullServer.RequestExact | src/commonSyncFile.c:40-126 | one request and the end marker are served and the serving ends if and only if the full path is within the limit and a file is there |
| PullServer.LongRequestSwallows | src/commonSyncFile.c:68-71 | a request over the limit is never answered, nor any later one, nor is the end of the requests seen |
| PullServer.HandleSyncGetRequests | src/commonSyncFile.c:40-126 | the serving loop answers the requests in order and ends, waits or exits as its specification function says |
| PullServer.SyncFile | src/fileOperations.c:30-80 | one manifest entry on either side: skipped, moved aside, fetched or made, as the step function says, with the channel empty afterwards |
| PullServer.BackupPath | src/fileOperations.c:138-151 | the text of the new name resolves to the backup path beside the file |
| PullServer.SyncServerWithFd | src/commonSyncFile.c:180-193 | the loop over the received list pulls every entry in order and then sends SYNC_WRITE_DONE |
| HandshakeRun.PlayHandshake | src/BibakBOXClient.c:139-165 | the whole handshake byte by byte between two disks: nobody exits or waits for ever, both channels end empty, nothing is lost, log.txt stays on the server, nothing outside changes, and the state is one from which rounds converge |
| HandshakeRun.FreshDisks | src/BibakBOXClient.c:139-165 | disks that hold nothing but the empty shared folder satisfy what the handshake theorem asks for |
| HandshakeRun.Exchange | src/syncFileServer.c:37-80 | one side prints its manifest, the other parses it and pulls, the first answers until SYNC_WRITE_DONE |
| HandshakeRun.TakeManifest | src/BibakBOXClient.c:167-183 | skipping {SYNC}, receiving the list and pulling it performs exactly the pulls of the printed entries |
| HandshakeRun.EndsSynced | src/syncFileServer.c:75-78 | the disks after both exchanges, with the server's rebuilt tree and the client's old one, are synchronised |
| Session.TokensReachTheirReaders | src/serverThread.c:170-282 | in every state of every two-party run the token a party is about to read was written for the reader it is in |
| Session.NeverBothBlocked | src/serverThread.c:170-282 | the two parties are never both waiting on empty channels: some step is always possible |
| Session.AnyHandshake | src/serverThread.c:226-239 | every handshake is possible: for any two manifest lengths and any two numbers of pulls there is a run that exchanges exactly those tokens and ends where the first round begins |
| Session.AnyRound | src/serverThread.c:240-277 | so is every round, with any number of diff parts down and any number up |
| Session.AnySession | src/serverThread.c:170-282 | any number of such rounds after any such handshake is a run from the start |
| Session.MarkersAndTransfers | src/BibakBOXClient.c:122-132 | of the client's paired DONE_CONTROL the first ends the server's receive and the second starts the next round; a party waiting for a file finds nothing but that file |
| Session.RunInv | src/serverThread.c:170-282 | every reachable pair of positions and channel contents is one of those listed |
| ThreadPool.PoolSafety | src/BibakBOXServer.c:99-168 | over all interleavings, whenever the mutex is free: `busyThreads` is the number of raised `isBusy` flags, a worker is parked exactly when its flag is down, and main is parked only if all workers are busy |
| ThreadPool.SearchSucceeds | src/BibakBOXServer.c:143-168 | when main resumes a free worker exists, and the slot its search ends at is parked and not busy |
| ThreadPool.EachConnectionOnce | src/BibakBOXServer.c:143-168 | each accepted connection is with main or handed to exactly one worker, for ever, and no serving worker is reassigned |
| ThreadPool.NoDeadlock | src/BibakBOXServer.c:99-168 | in every reachable state somebody can step; main can step whenever it is at accept, and a serving worker always |
| ThreadPool.MainComesBack | src/serverThread.c:159-166 | no wakeup is lost: from every reachable state main can still hand over every accepted connection and then accept again |
| ThreadPool.AlwaysAccepts | src/BibakBOXServer.c:99-108 | whatever the workers do, main at accept takes the next connection and goes for the mutex, and nothing else changes |
| ThreadPool.HandsOverAlone | src/BibakBOXServer.c:143-168 | with a free worker and a free mutex main hands the next connection to a parked one by its own steps alone, whatever the others serve |
| ThreadPool.AllServe | src/BibakBOXServer.c:99-168 | a pool of any size can have all its workers serving at once, each its own connection |
| ThreadPool.StepKeepsInv | src/serverThread.c:65-166 | every step of main and of every worker keeps the pool invariant |
| LockTable.MutualExclusion | src/lockManager.c:13-30 | in every reachable state, of the threads whose last takeLock named one path at most one is between takeLock and unlockLock |
| LockTable.LocksAskedPath | src/lockManager.c:13-30 | takeLock locks the path it was called with: in every reachable state a busy thread works on the path of its last call, and after takeLock it owns the one item of exactly that path |
| LockTable.TakeLockReturns | src/lockManager.c:13-30 | with the list mutex free and nobody on its path's item, a thread in takeLock gets the item by its own steps alone, whatever other items are held |
| LockTable.UnlockLockReturns | src/lockManager.c:69-77 | unlockLock frees exactly that item by the thread's own steps alone |
| LockTable.UnlockFindsItem | src/lockManager.c:69-77 | unlockLock, scanning without the list mutex, always finds its path, at the very item the thread locked |
| LockTable.ListHolderMoves | src/lockManager.c:46-67 | a thread holding the list mutex is never blocked: the item it has just added is free |
| LockTable.NoDeadlock | src/lockManager.c:13-77 | in every reachable state with a thread some thread can step |
| LockTable.WaitsForMover | src/lockManager.c:19-25 | a thread blocked on an item waits for a holder that called takeLock with the same path and is not blocked itself |
| LockTable.TableGrows | src/lockManager.c:46-57 | the table only grows: an index keeps naming its path, paths stay distinct, the array doubles exactly when one slot is left, and it always has room |
| LockTable.StepKeepsInv | src/lockManager.c:13-77 | every step of every thread keeps the table invariant |
| Runtime.Buffer.Append | src/common.c:65-71 | a reader's buffer keeps its characters across every doubling |

## Left out

- Socket set-up, accept and connect, argument parsing, printing, failing system calls: plumbing without a property to prove.
- SIGINT, thread cancellation and process teardown: they depend on signal delivery. The EXIT command belongs to them.
- malloc and free, the address of a moved array element, one-slot overruns of terminators: nodes and table entries keep their
  identity when an array grows, and the arrays of the model are large enough. `free` in the delete walk has no effect here.
- The race of unlockLock with a realloc by another thread: the scan of the model sees the table, not the memory it lies in.
- Clock time, its formatting and the 10-second sleep. A log line is its kind and its path.
- The receiver's own log lines ("Client: ..."), which do not influence anything else.
- The log file does not grow on the model's disk: a session's lines are kept apart, in `Journal.Log`.
- The entries `.` and `..`, which every loop over a directory passes over: a listing does not have them.
- Symbolic links, permissions, partial reads of a socket, mistakes in the six bytes before the client's manifest.
- The order of the two programs' steps inside `RoundLoop.PlayRound` and `HandshakeRun.PlayHandshake` is the one in which each
  waits for the other; that no other order leads a reader astray is the subject of `Session`, on tokens instead of bytes.
- The locks taken around the phases of the server's check are not part of `MarkedDiff.SyncCheck`; `LockTable` treats them.
- getNameFromPath, the freeing routines of src/common.c and code in comments: easy or unused.
- Edits that conflict, and files that become folders: excluded by the preconditions of a legal round.
- Patch.PatchEffect: modification times on the receiving side are whatever its clock says, so replicas are compared by name,
  kind and content.
- Session.NeverBothBlocked: on tokens; that a file transfer inside the conversation ends is `Transfer.TransferExact`.
- FileTree.CopyFileTree: requires that only folders have children, which every tree built or scanned satisfies; for a file with
  children the code would copy their number without them.
