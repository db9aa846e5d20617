/** The objects the readers and senders work on: a byte stream, a growing character buffer and a disk. */
module Runtime {
  import opened Text
  import opened FileSystem

  /** One direction of the socket. Reading past the last byte is the end of the stream. */
  class Channel {
    var data: string

    constructor ()
      ensures data == ""
    {
      data := "";
    }

    method ReadChar() returns (ok: bool, c: char)
      modifies this
      ensures ok == (old(data) != "")
      ensures ok ==> c == old(data)[0] && data == old(data)[1..]
      ensures !ok ==> data == ""
    {
      ok, c := data != "", NUL;
      if ok {
        c := data[0];
        data := data[1..];
      }
    }

    /** read(fd, buf, n) with everything that was sent already available. */
    method ReadBlock(n: nat) returns (s: string)
      modifies this
      ensures |s| == (if n <= |old(data)| then n else |old(data)|)
      ensures s + data == old(data)
    {
      var k := if n <= |data| then n else |data|;
      s := data[..k];
      data := data[k..];
    }

    method Write(s: string)
      modifies this
      ensures data == old(data) + s
    {
      data := data + s;
    }
  }

  /** The malloc'ed, NUL-terminated buffer every reader keeps; it doubles before it is full. */
  class Buffer {
    var mem: array<char>
    var index: nat

    ghost predicate Valid()
      reads this, mem
    {
      index < mem.Length - 1 && mem[index] == NUL
    }

    ghost function Chars(): string
      reads this, mem
      requires Valid()
    {
      mem[..index]
    }

    constructor ()
      ensures Valid() && Chars() == "" && fresh(mem)
    {
      mem := new char[256](_ => NUL);
      index := 0;
    }

    method Append(c: char)
      requires Valid()
      modifies this, mem
      ensures Valid() && Chars() == old(Chars()) + [c]
      ensures mem == old(mem) || fresh(mem)
    {
      mem[index] := c;
      index := index + 1;
      mem[index] := NUL;
      if index == mem.Length - 1 {
        Grow();
      }
    }

    /** reallocateMemory: twice the size, same characters. */
    method Grow()
      requires index == mem.Length - 1 && mem[index] == NUL
      modifies this
      ensures Valid() && index == old(index) && fresh(mem) && mem[..index] == old(mem[..index])
      ensures mem.Length == 2 * old(mem.Length)
    {
      var old_ := mem;
      var n := mem.Length;
      var bigger := new char[2 * n](i requires 0 <= i < 2 * n reads old_ => if i < n then old_[i] else NUL);
      mem := bigger;
    }

    method Reset()
      requires Valid()
      modifies this, mem
      ensures Valid() && Chars() == "" && mem == old(mem)
    {
      mem[0] := NUL;
      index := 0;
    }

    /** The buffer as strcmp, strlen and sprintf see it. */
    method Text() returns (s: string)
      requires Valid()
      ensures s == CStr(Chars())
    {
      s := CStr(mem[..index]);
    }
  }

  /** A disk holding one directory tree; the clock gives the time a write to a path is stamped with. */
  class Disk {
    var fs: Tree
    const clock: Clock

    constructor (fs: Tree, clock: Clock)
      ensures this.fs == fs && this.clock == clock
    {
      this.fs := fs;
      this.clock := clock;
    }

    method FolderExists(p: Path) returns (b: bool)
      ensures b == HasFolder(fs, p)
    {
      b := HasFolder(fs, p);
    }

    /** open(path, O_RDONLY) succeeds on folders too. */
    method FileExists(p: Path) returns (b: bool)
      ensures b == (p in fs)
    {
      b := p in fs;
    }

    /** open(path, O_RDWR) and ftruncate(fd, 0). */
    method OpenTruncated(p: Path) returns (ok: bool)
      modifies this
      ensures ok == HasFile(old(fs), p)
      ensures fs == if ok then old(fs)[p := File("", clock(p))] else old(fs)
    {
      ok := HasFile(fs, p);
      if ok { fs := fs[p := File("", clock(p))]; }
    }

    /** open(path, O_RDWR | O_CREAT | O_TRUNC). */
    method OpenCreated(p: Path) returns (ok: bool)
      modifies this
      ensures ok == (HasFile(old(fs), p) || (p !in old(fs) && p != [] && HasFolder(old(fs), Parent(p))))
      ensures fs == if ok then old(fs)[p := File("", clock(p))] else old(fs)
    {
      ok := HasFile(fs, p) || (p !in fs && p != [] && HasFolder(fs, Parent(p)));
      if ok { fs := fs[p := File("", clock(p))]; }
    }

    method Append(p: Path, s: string)
      requires HasFile(fs, p)
      modifies this
      ensures fs == old(fs)[p := File(old(fs)[p].content + s, clock(p))]
    {
      fs := fs[p := File(fs[p].content + s, clock(p))];
    }

    /** mkdir(path): fails when the path exists or its parent is not a folder. */
    method Mkdir(p: Path)
      modifies this
      ensures fs == if p !in old(fs) && p != [] && HasFolder(old(fs), Parent(p)) then old(fs)[p := Folder] else old(fs)
    {
      if p !in fs && p != [] && HasFolder(fs, Parent(p)) { fs := fs[p := Folder]; }
    }

    /** open(path, O_WRONLY | O_CREAT | O_EXCL): only when nothing is there. */
    method OpenExclusive(p: Path) returns (ok: bool)
      modifies this
      ensures ok == (p !in old(fs) && p != [] && HasFolder(old(fs), Parent(p)))
      ensures fs == if ok then old(fs)[p := File("", clock(p))] else old(fs)
    {
      ok := p !in fs && p != [] && HasFolder(fs, Parent(p));
      if ok { fs := fs[p := File("", clock(p))]; }
    }

    /** rename(path, target) */
    method Rename(p: Path, q: Path)
      requires p in fs
      modifies this
      ensures fs == Renamed(old(fs), p, q)
    {
      fs := Renamed(fs, p, q);
    }

    /** unlink(path): removes a file. */
    method Unlink(p: Path) returns (ok: bool)
      modifies this
      ensures ok == HasFile(old(fs), p)
      ensures fs == if ok then old(fs) - {p} else old(fs)
    {
      ok := HasFile(fs, p);
      if ok { fs := fs - {p}; }
    }

    /** rmdir(path): removes an empty folder. */
    method Rmdir(p: Path) returns (ok: bool)
      modifies this
      ensures ok == (HasFolder(old(fs), p) && forall q :: q in old(fs) && p <= q ==> q == p)
      ensures fs == if ok then old(fs) - {p} else old(fs)
    {
      ok := HasFolder(fs, p) && forall q :: q in fs && p <= q ==> q == p;
      if ok { fs := fs - {p}; }
    }
  }
}
