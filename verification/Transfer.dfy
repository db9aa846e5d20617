/** The handshake's file transfer: the sender writes blocks of 2048 bytes, the receiver reads blocks of 512. */
module Transfer {
  import opened Text
  import opened FileSystem
  import opened Runtime
  import opened UpdateReader

  const CHUNK := 512
  const SENTINEL := "{EMPTY_FILE}"

  /** What the receiver makes of the bytes available: the file it wrote, what it left, and whether it still waits. */
  datatype Received = Received(out: string, rest: string, waiting: bool)

  function Take(s: string, n: nat): string {
    if n <= |s| then s[..n] else s
  }

  function Receive(avail: string, out: string): (r: Received)
    decreases |avail|
  {
    if avail == "" then Received(out, "", true)
    else
      var block, rest := Take(avail, CHUNK), avail[|Take(avail, CHUNK)|..];
      if CStr(block) == SENTINEL then Received(out, rest, false)
      else if |block| != CHUNK || block[|block| - 1] == NUL then Received(out + CStr(block), rest, false)
      else Receive(rest, out + CStr(block))
  }

  /** The contents that arrive: the last read must be short or the sentinel, and must not look like the sentinel by chance. */
  predicate TransferOk(c: string) {
    NUL !in c &&
    (|c| % CHUNK != 0 || |c| % BLOCK == 0) &&
    !(|c| % CHUNK == |SENTINEL| && c[|c| - |SENTINEL|..] == SENTINEL)
  }

  /** The receiver never writes a NUL. */
  lemma {:induction false} NoNulWritten(avail: string, out: string)
    requires NUL !in out
    ensures NUL !in Receive(avail, out).out
    decreases |avail|
  {
    if avail != "" {
      var block, rest := Take(avail, CHUNK), avail[|Take(avail, CHUNK)|..];
      if CStr(block) != SENTINEL && |block| == CHUNK && block[|block| - 1] != NUL {
        NoNulWritten(rest, out + CStr(block));
      }
    }
  }

  /** Full blocks are copied one by one. */
  lemma {:induction false} FullBlocks(c: string, t: string, out: string)
    requires NUL !in c && |c| % CHUNK == 0
    ensures Receive(c + t, out) == Receive(t, out + c)
    decreases |c|
  {
    if c == "" {
      assert c + t == t && out + c == out;
    } else {
      var block := c[..CHUNK];
      assert Take(c + t, CHUNK) == block;
      assert (c + t)[CHUNK..] == c[CHUNK..] + t;
      assert block[CHUNK - 1] in c;
      assert |block| != |SENTINEL|;
      FullBlocks(c[CHUNK..], t, out + block);
      assert out + block + c[CHUNK..] == out + c;
    }
  }

  /** What one whole transfer leaves, for every content without a NUL. */
  lemma {:induction false} TransferOutcome(c: string)
    requires NUL !in c
    ensures var r := Receive(FileBytes(c), "");
            r.rest == "" &&
            if |c| % 2048 == 0 then r == Received(c, "", false)
            else if |c| % 512 == 0 then r == Received(c, "", true)
            else if c[|c| - |c| % 512..] == "{EMPTY_FILE}" then r == Received(c[..|c| - |c| % 512], "", false)
            else r == Received(c, "", false)
  {
    var k := |c| - |c| % CHUNK;
    var tail := c[k..];
    assert c == c[..k] + tail;
    assert "" + c == c && "" + c[..k] == c[..k];
    if |c| % CHUNK == 0 {
      assert tail == "" && c[..k] == c;
      FullBlocks(c, "", "");
      FullBlocks(c, SENTINEL, "");
      assert c + "" == c;
      SentinelEnds(c);
    } else {
      assert |c| % BLOCK != 0;
      FullBlocks(c[..k], tail, "");
      assert Take(tail, CHUNK) == tail;
      assert tail[|tail|..] == "";
    }
  }

  lemma SentinelEnds(out: string)
    ensures Receive(SENTINEL, out) == Received(out, "", false)
  {
    assert Take(SENTINEL, CHUNK) == SENTINEL;
    assert SENTINEL[|SENTINEL|..] == "";
    assert NUL !in SENTINEL;
  }

  /**
   * With all its bytes available a content arrives exactly, with nothing left on the channel and nobody waiting, if and
   * only if it has no NUL, its length is a multiple of the block size or no multiple of the chunk size, and its last chunk
   * is not the sentinel's text.
   */
  lemma {:induction false} TransferExact(c: string)
    ensures TransferOk(c) <==>
            && '\0' !in c
            && (|c| % 512 != 0 || |c| % 2048 == 0)
            && !(|c| % 512 == 12 && c[|c| - 12..] == "{EMPTY_FILE}")
    ensures Receive(FileBytes(c), "") == Received(c, "", false) <==> TransferOk(c)
  {
    TransferDomain(c);
    hide TransferOk;
    Arrives(c);
  }

  lemma {:induction false} Arrives(c: string)
    ensures Receive(FileBytes(c), "") == Received(c, "", false) <==> TransferOk(c)
  {
    hide Receive, FileBytes;
    if NUL in c {
      NoNulWritten(FileBytes(c), "");
    } else {
      TransferOutcome(c);
      LastChunk(c);
    }
  }

  lemma TransferDomain(c: string)
    ensures TransferOk(c) <==>
            && '\0' !in c
            && (|c| % 512 != 0 || |c| % 2048 == 0)
            && !(|c| % 512 == 12 && c[|c| - 12..] == "{EMPTY_FILE}")
  {
    assert |SENTINEL| == 12;
  }

  lemma LastChunk(c: string)
    ensures |c| % CHUNK != 0 && c[|c| - |c| % CHUNK..] == SENTINEL <==>
            |c| % CHUNK == |SENTINEL| && c[|c| - |SENTINEL|..] == SENTINEL
    ensures |c| % CHUNK != 0 ==> c[..|c| - |c| % CHUNK] != c
    ensures |c| % CHUNK == |SENTINEL| ==> |c| % BLOCK != 0
  {
  }

  /** The receiver is left waiting exactly when the content fills whole chunks but not whole blocks. */
  lemma {:induction false} TransferWaits(c: string)
    requires NUL !in c
    ensures Receive(FileBytes(c), "").waiting <==> (|c| % 512 == 0 && |c| % 2048 != 0)
  {
    TransferOutcome(c);
  }

  /** 512 plain characters are enough to leave the receiver waiting, although all of it has arrived. */
  lemma OneChunkWaits()
    ensures var c := seq(512, _ => 'a'); Receive(FileBytes(c), "") == Received(c, "", true) && !TransferOk(c)
  {
    TransferOutcome(seq(512, _ => 'a'));
  }

  // ---------------------------------------------------------------------------------------------
  // The loop

  /** The copy loop of readAndWriteFileFromFd, run on everything the peer has sent. */
  method ReceiveFile(ch: Channel, disk: Disk, p: Path) returns (waiting: bool)
    requires HasFile(disk.fs, p) && disk.fs[p] == File("", disk.clock(p))
    modifies ch, disk
    ensures var r := Receive(old(ch.data), "");
            disk.fs == old(disk.fs)[p := File(r.out, disk.clock(p))] && ch.data == r.rest && waiting == r.waiting
  {
    ghost var out := "";
    while true
      invariant Written(disk.fs, old(disk.fs), p, File(out, disk.clock(p)))
      invariant Receive(ch.data, out) == Receive(old(ch.data), "")
      decreases |ch.data|
    {
      ghost var avail := ch.data;
      var block := ch.ReadBlock(CHUNK);
      if block == "" { return true; }
      assert block == Take(avail, CHUNK) && ch.data == avail[|block|..];
      var text := CStr(block);
      if text == SENTINEL { return false; }
      disk.Append(p, text);
      out := out + text;
      if |block| != CHUNK || block[|block| - 1] == NUL { return false; }
    }
  }
}
