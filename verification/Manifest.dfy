/** The manifest of a tree: one {path,size,type} entry per node, printed by one side and parsed by the other. */
module Manifest {
  import opened Text
  import opened FileSystem
  import opened Runtime
  import opened Diff
  import opened FileTree

  const FILE_NODE := 0
  const FOLDER_NODE := 1

  /** What the receiver keeps of an entry. */
  datatype Item = Item(path: string, size: int, kind: int)

  // ---------------------------------------------------------------------------------------------
  // Numbers

  function Digit(d: nat): char
    requires d < 10
  {
    "0123456789"[d]
  }

  predicate IsDigit(c: char) {
    '0' <= c <= '9'
  }

  /** printf("%ld") of a file size. */
  function Decimal(n: nat): (s: string)
    ensures s != ""
    ensures forall c :: c in s ==> IsDigit(c)
  {
    if n < 10 then [Digit(n)] else Decimal(n / 10) + [Digit(n % 10)]
  }

  function PrintNumber(n: int): (s: string)
    ensures s != ""
    ensures forall c :: c in s ==> IsDigit(c) || c == '-'
  {
    if n < 0 then "-" + Decimal(-n) else Decimal(n)
  }

  datatype Number = Number(value: int, rest: string)

  /** A maximal run of digits, added to what was read before. */
  function Digits(s: string, acc: nat): Number
    decreases |s|
  {
    if s == "" || !IsDigit(s[0]) then Number(acc, s)
    else Digits(s[1..], 10 * acc + (s[0] as int - '0' as int))
  }

  predicate IsSpace(c: char) {
    c == ' ' || '\t' <= c <= '\r'
  }

  function SkipSpaces(s: string): string {
    if s != "" && IsSpace(s[0]) then SkipSpaces(s[1..]) else s
  }

  /** sscanf's %ld and %d: white space, an optional sign, at least one digit. */
  function ParseNumber(s0: string): Option<Number> {
    var s := SkipSpaces(s0);
    var signed := s != "" && (s[0] == '-' || s[0] == '+');
    var t := if signed then s[1..] else s;
    if t == "" || !IsDigit(t[0]) then None
    else
      var r := Digits(t, 0);
      Some(if signed && s[0] == '-' then Number(-r.value, r.rest) else r)
  }

  lemma {:induction false} DigitsOfDecimal(n: nat, t: string)
    ensures Digits(Decimal(n) + t, 0) == Digits(t, n)
    decreases n
  {
    var d := Digit(n % 10);
    assert IsDigit(d) && d as int - '0' as int == n % 10;
    assert ([d] + t)[1..] == t;
    if n < 10 {
      assert Decimal(n) + t == [d] + t;
    } else {
      assert Decimal(n) + t == Decimal(n / 10) + ([d] + t);
      DigitsOfDecimal(n / 10, [d] + t);
    }
  }

  lemma ScansUnsigned(s: string)
    requires s != "" && IsDigit(s[0])
    ensures ParseNumber(s) == Some(Digits(s, 0))
  {
    hide Digits;
  }

  lemma ScansNegative(s: string)
    requires s != "" && IsDigit(s[0])
    ensures ParseNumber("-" + s) == Some(Number(-Digits(s, 0).value, Digits(s, 0).rest))
  {
    hide Digits;
    assert ("-" + s)[1..] == s;
  }

  /** A printed number is read back, and the scan stops at the next non-digit. */
  lemma {:induction false} NumberRoundTrip(n: int, t: string)
    requires t == "" || !IsDigit(t[0])
    ensures ParseNumber(PrintNumber(n) + t) == Some(Number(n, t))
  {
    var k: nat := if n < 0 then -n else n;
    assert Digits(t, k) == Number(k, t);
    DigitsOfDecimal(k, t);
    hide Decimal, Digits, ParseNumber;
    var s := Decimal(k) + t;
    assert s[0] == Decimal(k)[0] && Decimal(k)[0] in Decimal(k);
    if n < 0 {
      assert PrintNumber(n) + t == "-" + s;
      ScansNegative(s);
    } else {
      ScansUnsigned(s);
    }
  }

  /** So is one after white space, and one with a plus sign. */
  lemma {:induction false} NumberScanned(w: string, n: nat, t: string)
    requires (t == "" || !IsDigit(t[0])) && forall c :: c in w ==> c in [' ', '\t', '\n', '\r']
    ensures ParseNumber(w + (PrintNumber(n) + t)) == Some(Number(n, t))
    ensures ParseNumber(w + ("+" + (PrintNumber(n) + t))) == Some(Number(n, t))
    decreases |w|
  {
    hide Digits;
    var s := PrintNumber(n) + t;
    if w == "" {
      assert w + s == s && w + ("+" + s) == "+" + s && ("+" + s)[1..] == s;
      NumberRoundTrip(n, t);
      assert s[0] == PrintNumber(n)[0] && IsDigit(Decimal(n)[0]) by { assert Decimal(n)[0] in Decimal(n); }
      hide PrintNumber;
    } else {
      assert w[0] in w && (w + s)[1..] == w[1..] + s && (w + ("+" + s))[1..] == w[1..] + ("+" + s);
      NumberScanned(w[1..], n, t);
      hide PrintNumber;
    }
  }

  // ---------------------------------------------------------------------------------------------
  // Entries

  /** The characters before the first comma. */
  function UpToComma(s: string): (r: string)
    ensures r <= s && ',' !in r
    ensures |r| < |s| ==> s[|r|] == ','
  {
    if s == "" || s[0] == ',' then "" else [s[0]] + UpToComma(s[1..])
  }

  /** sscanf(buffer, "%[^,],%ld,%d", ...): conversions that fail leave what the variables held. */
  function ParseItem(s: string, size0: int, kind0: int): Item {
    var path := UpToComma(s);
    if path == "" || path == s then Item(path, size0, kind0)
    else
      match ParseNumber(s[|path| + 1..])
      case None => Item(path, size0, kind0)
      case Some(a) =>
        if a.rest == "" || a.rest[0] != ',' then Item(path, a.value, kind0)
        else
          match ParseNumber(a.rest[1..])
          case None => Item(path, a.value, kind0)
          case Some(b) => Item(path, a.value, b.value)
  }

  /** printf("%s,%ld,%d") */
  function PrintItem(i: Item): string {
    i.path + "," + PrintNumber(i.size) + "," + PrintNumber(i.kind)
  }

  lemma UpToFirstComma(p: string, t: string)
    requires ',' !in p
    ensures UpToComma(p + ("," + t)) == p
  {
    if p == "" {
      assert p + ("," + t) == "," + t;
    } else {
      assert p[0] in p;
      assert (p + ("," + t))[1..] == p[1..] + ("," + t);
      UpToFirstComma(p[1..], t);
    }
  }

  lemma {:induction false} ItemRoundTrip(i: Item, size0: int, kind0: int)
    requires i.path != "" && ',' !in i.path
    ensures ParseItem(PrintItem(i), size0, kind0) == i
  {
    hide PrintNumber, ParseNumber, UpToComma;
    var t2 := PrintNumber(i.kind);
    var t1 := PrintNumber(i.size) + ("," + t2);
    ItemParts(i.path, PrintNumber(i.size), t2);
    UpToFirstComma(i.path, t1);
    NumberRoundTrip(i.size, "," + t2);
    assert t2 + "" == t2;
    NumberRoundTrip(i.kind, "");
  }

  /** Where the scan of an entry stops: what is missing or unreadable keeps the values of the entry before. */
  lemma {:induction false} ItemScanStops(p: string, n: int, u: string, size0: int, kind0: int)
    requires p != "" && ',' !in p
    ensures ParseItem(p, size0, kind0) == Item(p, size0, kind0)
    ensures ParseNumber(u).None? ==> ParseItem(p + ("," + u), size0, kind0) == Item(p, size0, kind0)
    ensures u == "" || (!IsDigit(u[0]) && u[0] != ',') ==>
              ParseItem(p + ("," + (PrintNumber(n) + u)), size0, kind0) == Item(p, n, kind0)
    ensures ParseNumber(u).None? ==> ParseItem(p + ("," + (PrintNumber(n) + ("," + u))), size0, kind0) == Item(p, n, kind0)
  {
    hide PrintNumber, ParseNumber, UpToComma;
    assert UpToComma(p) == p;
    AfterComma(p, u);
    AfterComma(p, PrintNumber(n) + u);
    AfterComma(p, PrintNumber(n) + ("," + u));
    if u == "" || !IsDigit(u[0]) { NumberRoundTrip(n, u); }
    NumberRoundTrip(n, "," + u);
    assert ("," + u)[1..] == u;
  }

  lemma Split(p: string, t: string)
    ensures p + ("," + t) != p && |p + ("," + t)| > |p| && (p + ("," + t))[|p| + 1..] == t
  {
    var q := p + ",";
    assert p + ("," + t) == q + t && |q| == |p| + 1;
    assert |p + ("," + t)| > |p|;
  }

  lemma AfterComma(p: string, t: string)
    requires ',' !in p
    ensures UpToComma(p + ("," + t)) == p && p + ("," + t) != p && (p + ("," + t))[|p| + 1..] == t
  {
    UpToFirstComma(p, t);
    Split(p, t);
  }

  lemma ItemParts(p: string, a: string, b: string)
    ensures p + "," + a + "," + b == p + ("," + (a + ("," + b)))
    ensures |p + ("," + (a + ("," + b)))| > |p|
    ensures (p + ("," + (a + ("," + b))))[|p| + 1..] == a + ("," + b)
    ensures ("," + b)[1..] == b
  {
  }

  lemma ItemPlain(i: Item)
    requires Plain(i.path)
    ensures Plain(PrintItem(i))
    ensures PrintItem(i) != "SYNC_DONE"
  {
    var s := PrintItem(i);
    forall c | c in s ensures c != '{' && c != '}' && c != NUL {
      if c !in i.path && c !in PrintNumber(i.size) && c !in PrintNumber(i.kind) { assert c == ','; }
    }
    assert s[|i.path|] == ',';
    assert ',' !in "SYNC_DONE";
  }

  // ---------------------------------------------------------------------------------------------
  // The whole manifest

  function ItemOf(n: Node, path: string): Item {
    Item(path, n.size, if n.folder then FOLDER_NODE else FILE_NODE)
  }

  /** The entries of a forest below `path`, a node before its children. */
  function Items(f: seq<Node>, path: string): seq<Item> {
    if f == [] then []
    else
      var newPath := path + "/" + f[0].name;
      [ItemOf(f[0], newPath)] + Items(f[0].children, newPath) + Items(f[1..], path)
  }

  function ItemsBytes(items: seq<Item>): string {
    if items == [] then "" else Marker(PrintItem(items[0])) + ItemsBytes(items[1..])
  }

  datatype Listed = Listed(items: seq<Item>, rest: string, ended: bool)

  /** receiveSyncFiles from a given buffer and given values of the scan variables on. */
  function ListRun(buf: string, size0: int, kind0: int, bytes: string): (r: Listed)
    decreases |bytes|
  {
    if bytes == "" then Listed([], "", false)
    else
      var c, rest := bytes[0], bytes[1..];
      if c == '{' then ListRun(buf, size0, kind0, rest)
      else if c != '}' then ListRun(buf + [c], size0, kind0, rest)
      else if CStr(buf) == "SYNC_DONE" then Listed([], rest, true)
      else
        var i := ParseItem(CStr(buf), size0, kind0);
        var r := ListRun("", i.size, i.kind, rest);
        Listed([i] + r.items, r.rest, r.ended)
  }

  lemma {:induction false} ListReadsWord(buf: string, size0: int, kind0: int, w: string, t: string)
    requires Plain(w)
    ensures ListRun(buf, size0, kind0, w + t) == ListRun(buf + w, size0, kind0, t)
    decreases |w|
  {
    hide ParseItem;
    if w == "" {
      assert w + t == t && buf + w == buf;
    } else {
      assert w[0] in w;
      assert (w + t)[1..] == w[1..] + t;
      ListReadsWord(buf + [w[0]], size0, kind0, w[1..], t);
      assert buf + [w[0]] + w[1..] == buf + w;
    }
  }

  lemma ListReadsMarker(size0: int, kind0: int, w: string, t: string)
    requires Plain(w)
    ensures ListRun("", size0, kind0, Marker(w) + t) ==
            if w == "SYNC_DONE" then Listed([], t, true)
            else
              var i := ParseItem(w, size0, kind0);
              var r := ListRun("", i.size, i.kind, t);
              Listed([i] + r.items, r.rest, r.ended)
  {
    hide ParseItem, CStr;
    assert Marker(w) + t == "{" + (w + ("}" + t));
    assert ("{" + (w + ("}" + t)))[1..] == w + ("}" + t);
    ListReadsWord("", size0, kind0, w, "}" + t);
    assert "" + w == w;
    assert ("}" + t)[1..] == t;
  }

  /** Any list of entries with plain, comma-free paths is read back exactly, up to the end marker. */
  lemma {:induction false} ItemsRoundTrip(items: seq<Item>, size0: int, kind0: int, t: string)
    requires forall i :: i in items ==> i.path != "" && Plain(i.path) && ',' !in i.path
    ensures ListRun("", size0, kind0, ItemsBytes(items) + (Marker("SYNC_DONE") + t)) == Listed(items, t, true)
    decreases |items|
  {
    hide ListRun, ParseItem, PrintItem, Marker;
    if items == [] {
      assert ItemsBytes(items) + (Marker("SYNC_DONE") + t) == Marker("SYNC_DONE") + t;
      ListReadsMarker(size0, kind0, "SYNC_DONE", t);
    } else {
      var i := items[0];
      assert i in items;
      var t1 := ItemsBytes(items[1..]) + (Marker("SYNC_DONE") + t);
      assert ItemsBytes(items) + (Marker("SYNC_DONE") + t) == Marker(PrintItem(i)) + t1;
      ItemPlain(i);
      ItemRoundTrip(i, size0, kind0);
      ListReadsMarker(size0, kind0, PrintItem(i), t1);
      ItemsRoundTrip(items[1..], i.size, i.kind, t);
    }
  }

  predicate GoodNames(f: seq<Node>) {
    f == [] || (GoodName(f[0].name) && GoodNames(f[0].children) && GoodNames(f[1..]))
  }

  lemma {:induction false} ItemPathsGood(f: seq<Node>, path: string)
    requires GoodNames(f) && Plain(path) && ',' !in path
    ensures forall i :: i in Items(f, path) ==> i.path != "" && Plain(i.path) && ',' !in i.path
    decreases f
  {
    if f != [] {
      var newPath := path + "/" + f[0].name;
      assert Plain(newPath) && ',' !in newPath && newPath != "";
      ItemPathsGood(f[0].children, newPath);
      ItemPathsGood(f[1..], path);
    }
  }

  /** The manifest of any tree with good names is received as exactly the preorder list of its nodes. */
  lemma {:induction false} ManifestRoundTrip(root: Node, size0: int, kind0: int, t: string)
    requires GoodNames([root])
    ensures ListRun("", size0, kind0, ItemsBytes(Items([root], "")) + (Marker("SYNC_DONE") + t)) ==
            Listed(Items([root], ""), t, true)
  {
    ItemPathsGood([root], "");
    ItemsRoundTrip(Items([root], ""), size0, kind0, t);
  }

  /** The listed paths are the printed paths of the walk over the tree. */
  lemma {:induction false} ItemsFollowWalk(f: seq<Node>, rel: Path)
    requires Down(f)
    ensures |Items(f, Render(rel))| == |Select(f, rel, false)|
    ensures forall i :: 0 <= i < |Items(f, Render(rel))| ==>
              Items(f, Render(rel))[i].path == Render(Select(f, rel, false)[i])
    decreases f
  {
    if f != [] {
      var p := rel + [f[0].name];
      RenderSnoc(rel, f[0].name);
      ItemsFollowWalk(f[0].children, p);
      ItemsFollowWalk(f[1..], rel);
    }
  }

  // ---------------------------------------------------------------------------------------------
  // The loops

  /** The receiver's list: an array that doubles when it is full. */
  class ItemList {
    var list: array<Item>
    var currentIndex: nat

    ghost predicate Valid()
      reads this
    {
      currentIndex <= list.Length && list.Length > 0
    }

    ghost function Contents(): seq<Item>
      reads this, list
      requires Valid()
    {
      list[..currentIndex]
    }

    constructor ()
      ensures Valid() && Contents() == [] && fresh(list)
    {
      list := new Item[8](_ => Item("", 0, 0));
      currentIndex := 0;
    }

    method Add(x: Item)
      requires Valid()
      modifies this, list
      ensures Valid() && Contents() == old(Contents()) + [x]
      ensures list == old(list) || fresh(list)
    {
      if currentIndex == list.Length {
        var small := list;
        var n := small.Length;
        list := new Item[2 * n](i requires 0 <= i < 2 * n reads small => if i < n then small[i] else x);
        assert list[..currentIndex] == old(list[..currentIndex]);
      }
      list[currentIndex] := x;
      currentIndex := currentIndex + 1;
    }
  }

  /** `now` is what remains of `all` once `got` has been received. */
  ghost predicate Continues(got: seq<Item>, now: Listed, all: Listed) {
    all == Listed(got + now.items, now.rest, now.ended)
  }

  lemma ContinuesNext(got: seq<Item>, i: Item, next: Listed, all: Listed)
    requires Continues(got, Listed([i] + next.items, next.rest, next.ended), all)
    ensures Continues(got + [i], next, all)
  {
  }

  /** receiveSyncFiles: None when the stream ends before SYNC_DONE, where the process exits. */
  method ReceiveSyncFiles(ch: Channel) returns (r: Option<ItemList>)
    modifies ch
    ensures var l := ListRun("", 0, 0, old(ch.data));
            && l.ended == r.Some?
            && (l.ended ==> fresh(r.value) && r.value.Valid() && r.value.Contents() == l.items && ch.data == l.rest)
  {
    var b := new Buffer();
    var fileList := new ItemList();
    var fileSize, fileType := 0, 0;
    hide ParseItem;
    while true
      invariant b.Valid() && fresh(b) && fresh(b.mem)
      invariant fileList.Valid() && fresh(fileList) && fresh(fileList.list)
      invariant Continues(fileList.Contents(), ListRun(b.Chars(), fileSize, fileType, ch.data),
                          ListRun("", 0, 0, old(ch.data)))
      decreases |ch.data|
    {
      var ok, c := ch.ReadChar();
      if !ok { return None; }
      if c == '{' {
        continue;
      } else if c == '}' {
        var text := b.Text();
        if text == "SYNC_DONE" { return Some(fileList); }
        var item := ParseItem(text, fileSize, fileType);
        ghost var got := fileList.Contents();
        fileSize, fileType := item.size, item.kind;
        b.Reset();
        fileList.Add(item);
        ContinuesNext(got, item, ListRun("", fileSize, fileType, ch.data), ListRun("", 0, 0, old(ch.data)));
      } else {
        b.Append(c);
      }
    }
  }

  /** sendSyncFile: the node's own entry, then each child's subtree. */
  method SendSyncFile(ch: Channel, node: FileNode, path: string)
    requires node.Valid()
    modifies ch
    ensures ch.data == old(ch.data) + ItemsBytes(Items([node.Val], path))
    decreases node.Val
  {
    var newPath := path + "/" + node.name;
    ghost var before, sent := ch.data, [ItemOf(node.Val, newPath)];
    hide PrintItem, Marker, Items, ItemsBytes;
    var item := Item(newPath, node.size, if node.folder then FOLDER_NODE else FILE_NODE);
    assert item == ItemOf(node.Val, newPath);
    hide ItemOf;
    ch.Write(Marker(PrintItem(item)));
    SingleItem(item);
    NoItems(node.Val.children[..0], newPath);
    var i := 0;
    while i < |node.children|
      invariant 0 <= i <= |node.children|
      invariant ch.data == before + ItemsBytes(sent)
      invariant sent == [ItemOf(node.Val, newPath)] + Items(node.Val.children[..i], newPath)
    {
      SendSyncFile(ch, node.children[i], newPath);
      Assoc(before, ItemsBytes(sent), ItemsBytes(Items([node.Val.children[i]], newPath)));
      sent := MoreItems(node.Val, i, newPath, sent);
      i := i + 1;
    }
    assert node.Val.children[..i] == node.Val.children;
    SingleNode(node.Val, path);
  }

  lemma MoreItems(node: Node, i: nat, newPath: string, sent: seq<Item>) returns (sent': seq<Item>)
    requires i < |node.children|
    requires sent == [ItemOf(node, newPath)] + Items(node.children[..i], newPath)
    ensures sent' == [ItemOf(node, newPath)] + Items(node.children[..i + 1], newPath)
    ensures ItemsBytes(sent') == ItemsBytes(sent) + ItemsBytes(Items([node.children[i]], newPath))
  {
    hide Items, ItemsBytes, ItemOf;
    var more := Items([node.children[i]], newPath);
    ItemsBytesConcat(sent, more);
    ItemsConcat(node.children[..i], [node.children[i]], newPath);
    assert node.children[..i + 1] == node.children[..i] + [node.children[i]];
    sent' := sent + more;
    assert sent' == [ItemOf(node, newPath)] + (Items(node.children[..i], newPath) + more);
  }

  lemma NoItems(f: seq<Node>, path: string)
    requires f == []
    ensures Items(f, path) == []
  {
  }

  lemma SingleItem(i: Item)
    ensures ItemsBytes([i]) == Marker(PrintItem(i))
  {
    assert ItemsBytes([i][1..]) == "";
    assert Marker(PrintItem(i)) + "" == Marker(PrintItem(i));
  }

  lemma SingleNode(n: Node, path: string)
    ensures Items([n], path) == [ItemOf(n, path + "/" + n.name)] + Items(n.children, path + "/" + n.name)
  {
    assert [n][1..] == [];
  }

  lemma {:induction false} ItemsConcat(f: seq<Node>, g: seq<Node>, path: string)
    ensures Items(f + g, path) == Items(f, path) + Items(g, path)
    decreases |f|
  {
    if f == [] {
      assert f + g == g;
    } else {
      assert (f + g)[1..] == f[1..] + g;
      ItemsConcat(f[1..], g, path);
    }
  }

  /** sendSyncFileWrapper: the manifest between its markers. */
  method SendSyncFileWrapper(ch: Channel, root: FileNode)
    requires root.Valid()
    modifies ch
    ensures ch.data == old(ch.data) + Marker("SYNC") + ItemsBytes(Items([root.Val], "")) + Marker("SYNC_DONE")
  {
    ch.Write(Marker("SYNC"));
    SendSyncFile(ch, root, "");
    ch.Write(Marker("SYNC_DONE"));
  }

  lemma {:induction false} ItemsBytesConcat(a: seq<Item>, b: seq<Item>)
    ensures ItemsBytes(a + b) == ItemsBytes(a) + ItemsBytes(b)
    decreases |a|
  {
    hide PrintItem, Marker;
    if a == [] {
      assert a + b == b;
    } else {
      assert (a + b)[1..] == a[1..] + b;
      ItemsBytesConcat(a[1..], b);
    }
  }
}
