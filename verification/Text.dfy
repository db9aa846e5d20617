/** Characters, C strings and the textual form of paths. A byte is modelled by a `char`. */
module Text {
  const NUL: char := '\0'

  type Name = string
  type Path = seq<Name>

  /** What C's string functions see of a buffer: everything before its first NUL. */
  function CStr(s: string): (r: string)
    ensures r <= s
    ensures NUL !in r
    ensures NUL !in s ==> r == s
    ensures forall c :: c in r ==> c in s
  {
    if s == "" || s[0] == NUL then "" else [s[0]] + CStr(s[1..])
  }

  /** It is the longest prefix without a NUL. */
  lemma {:induction false} CStrStops(s: string)
    ensures CStr(s) <= s && '\0' !in CStr(s)
    ensures |CStr(s)| < |s| ==> s[|CStr(s)|] == '\0'
  {
    if s != "" && s[0] != NUL { CStrStops(s[1..]); }
  }

  lemma Assoc<T>(a: seq<T>, b: seq<T>, c: seq<T>)
    ensures (a + b) + c == a + (b + c)
  {
  }

  lemma Units<T>(a: seq<T>)
    ensures [] + a == a && a + [] == a
  {
  }

  /** Text that no reader treats specially. */
  predicate Plain(s: string) {
    '{' !in s && '}' !in s && NUL !in s
  }

  /** A token of the command stream. */
  function Marker(w: string): string {
    "{" + w + "}"
  }

  lemma MarkerSplit(w: string, t: string)
    ensures Marker(w) + t == "{" + (w + ("}" + t))
    ensures ("{" + (w + ("}" + t)))[1..] == w + ("}" + t)
    ensures ("}" + t)[1..] == t
    ensures "" + w == w
  {
  }

  /** A directory entry name that survives both the manifest and the command stream. */
  predicate GoodName(n: Name) {
    n != "" && Plain(n) && '/' !in n && ',' !in n
  }

  predicate GoodPath(p: Path) {
    forall n :: n in p ==> GoodName(n)
  }

  /** The relative path as the senders print it: "" for the root, then "/name" for each component. */
  function Render(p: Path): (s: string)
    ensures p == [] ==> s == ""
    ensures p != [] ==> s != "" && s[0] == '/'
  {
    if p == [] then "" else "/" + p[0] + Render(p[1..])
  }

  lemma RenderSnoc(p: Path, n: Name)
    ensures Render(p + [n]) == Render(p) + "/" + n
  {
    if p == [] {
      assert [n][1..] == [];
    } else {
      RenderSnoc(p[1..], n);
      assert (p + [n])[1..] == p[1..] + [n];
    }
  }

  lemma RenderPlain(p: Path)
    requires GoodPath(p)
    ensures Plain(Render(p))
    ensures ',' !in Render(p)
  {
    if p != [] {
      assert p[0] in p;
      forall n | n in p[1..] ensures n in p { }
      RenderPlain(p[1..]);
    }
  }

  /** How the kernel reads a path string: split at '/', empty components dropped. `cur` is the component being read. */
  function Components(cur: Name, s: string): Path
    decreases |s|
  {
    if s == "" then Closing(cur)
    else if s[0] == '/' then Closing(cur) + Components("", s[1..])
    else Components(cur + [s[0]], s[1..])
  }

  function Closing(cur: Name): Path {
    if cur == "" then [] else [cur]
  }

  function Resolve(s: string): Path {
    Components("", s)
  }

  lemma {:induction false} ComponentsAppend(cur: Name, s: string, t: string)
    requires t == "" || t[0] == '/'
    ensures Components(cur, s + t) == Components(cur, s) + Components("", t)
    decreases |s|
  {
    if s == "" {
      assert s + t == t;
    } else {
      assert (s + t)[1..] == s[1..] + t;
      if s[0] == '/' {
        ComponentsAppend("", s[1..], t);
      } else {
        ComponentsAppend(cur + [s[0]], s[1..], t);
      }
    }
  }

  lemma {:induction false} ComponentsNonEmpty(cur: Name, s: string, t: string)
    requires Components(cur, s) != []
    ensures Components(cur, s + t) != []
    decreases |s|
  {
    if s == "" {
      assert s + t == t;
      ComponentsPending(cur, t);
    } else {
      assert (s + t)[1..] == s[1..] + t;
      if s[0] != '/' {
        ComponentsNonEmpty(cur + [s[0]], s[1..], t);
      } else if cur == "" {
        ComponentsNonEmpty("", s[1..], t);
      }
    }
  }

  lemma {:induction false} ComponentsPending(cur: Name, t: string)
    requires cur != ""
    ensures Components(cur, t) != []
    decreases |t|
  {
    if t != "" && t[0] != '/' {
      ComponentsPending(cur + [t[0]], t[1..]);
    }
  }

  /** Text glued to a directory string never names the root of the disk. */
  lemma ResolveNonEmpty(dir: string, t: string)
    requires Resolve(dir) != []
    ensures Resolve(dir + t) != []
  {
    ComponentsNonEmpty("", dir, t);
  }

  lemma {:induction false} ComponentsOfName(cur: Name, n: Name)
    requires '/' !in n
    ensures Components(cur, n) == Closing(cur + n)
    decreases |n|
  {
    if n == "" {
      assert cur + n == cur;
    } else {
      assert n[0] in n;
      ComponentsOfName(cur + [n[0]], n[1..]);
      assert cur + [n[0]] + n[1..] == cur + n;
    }
  }

  /** The kernel finds, under any directory string, exactly the path a sender printed. */
  lemma {:induction false} ResolveRendered(dir: string, p: Path)
    requires GoodPath(p)
    ensures Resolve(dir + Render(p)) == Resolve(dir) + p
  {
    ComponentsAppend("", dir, Render(p));
    ComponentsOfRender(p);
  }

  lemma {:induction false} ComponentsOfRender(p: Path)
    requires GoodPath(p)
    ensures Components("", Render(p)) == p
  {
    if p != [] {
      hide Components;
      var n, rest := p[0], Render(p[1..]);
      assert n in p;
      assert forall m :: m in p[1..] ==> m in p;
      assert Render(p) == "/" + (n + rest);
      ComponentsSlash(n + rest);
      ComponentsAppend("", n, rest);
      ComponentsOfName("", n);
      assert "" + n == n;
      ComponentsOfRender(p[1..]);
      assert p == [n] + p[1..];
    }
  }

  lemma ComponentsSlash(t: string)
    ensures Components("", "/" + t) == Components("", t)
  {
    assert ("/" + t)[1..] == t;
  }

  /** Different good paths print differently. */
  lemma RenderInjective(p: Path, q: Path)
    requires GoodPath(p) && GoodPath(q) && Render(p) == Render(q)
    ensures p == q
  {
    ComponentsOfRender(p);
    ComponentsOfRender(q);
  }

  lemma {:induction false} ComponentsExtended(cur: Name, s: string, t: string)
    requires '/' !in t && t != "" && (s == "" ==> cur != "") && (s != "" ==> s[|s| - 1] != '/')
    ensures var c := Components(cur, s);
            c != [] && Components(cur, s + t) == c[..|c| - 1] + [c[|c| - 1] + t]
    decreases |s|
  {
    if s == "" {
      assert s + t == t;
      ComponentsOfName(cur, t);
    } else {
      assert (s + t)[1..] == s[1..] + t;
      if s[0] == '/' {
        ComponentsExtended("", s[1..], t);
      } else {
        ComponentsExtended(cur + [s[0]], s[1..], t);
      }
    }
  }

  /** Text appended to a path string extends its last component. */
  lemma ResolveExtended(s: string, t: string)
    requires '/' !in t && t != "" && s != "" && s[|s| - 1] != '/'
    ensures var c := Resolve(s); c != [] && Resolve(s + t) == c[..|c| - 1] + [c[|c| - 1] + t]
  {
    ComponentsExtended("", s, t);
  }
}
