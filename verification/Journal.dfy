/** What a check sends and logs: each message has its bytes on the socket and, on the server, its lines in the log file. */
module Journal {
  import opened Text
  import opened FileSystem
  import opened Patch
  import opened Receiver

  datatype Event = Updated | Deleted | Created

  /** A line of the server's log about its own diff, without its timestamp. */
  datatype Line = Line(event: Event, path: Path)

  /** The log file of a session; the client keeps none. */
  class Log {
    var lines: seq<Line>
    const kept: bool

    constructor (kept: bool)
      ensures lines == [] && this.kept == kept
    {
      lines := [];
      this.kept := kept;
    }

    method Write(line: Line)
      modifies this
      ensures lines == old(lines) + if kept then [line] else []
    {
      if kept { lines := lines + [line]; }
    }
  }

  /** The lines of one message; a create goes through the same function as an update, which logs it once more. */
  function LinesOf(m: Msg): seq<Line> {
    match m
    case Update(p, _) => [Line(Updated, p)]
    case Delete(p) => [Line(Deleted, p)]
    case MkDir(p) => [Line(Created, p), Line(Updated, p)]
    case Create(p, _) => [Line(Created, p), Line(Updated, p)]
  }

  function AllLines(ms: seq<Msg>): seq<Line> {
    if ms == [] then [] else LinesOf(ms[0]) + AllLines(ms[1..])
  }

  lemma {:induction false} AllLinesConcat(a: seq<Msg>, b: seq<Msg>)
    ensures AllLines(a + b) == AllLines(a) + AllLines(b)
    decreases |a|
  {
    hide LinesOf;
    if a == [] {
      assert a + b == b;
    } else {
      assert (a + b)[1..] == a[1..] + b;
      AllLinesConcat(a[1..], b);
    }
  }

  /** From (d0, l0) to (d1, l1), what was written to the socket and to the log is exactly `ms`. */
  ghost predicate Sent(d0: string, l0: seq<Line>, d1: string, l1: seq<Line>, kept: bool, ms: seq<Msg>) {
    d1 == d0 + AllBytes(ms) && l1 == l0 + if kept then AllLines(ms) else []
  }

  lemma SentNothing(d: string, l: seq<Line>, kept: bool)
    ensures Sent(d, l, d, l, kept, [])
  {
  }

  lemma SentOne(d: string, l: seq<Line>, kept: bool, m: Msg)
    ensures Sent(d, l, d + Bytes(m), l + (if kept then LinesOf(m) else []), kept, [m])
  {
    assert AllBytes([m][1..]) == "" && AllLines([m][1..]) == [];
  }

  lemma SentMore(d0: string, l0: seq<Line>, d1: string, l1: seq<Line>, d2: string, l2: seq<Line>, kept: bool,
                 a: seq<Msg>, b: seq<Msg>)
    requires Sent(d0, l0, d1, l1, kept, a) && Sent(d1, l1, d2, l2, kept, b)
    ensures Sent(d0, l0, d2, l2, kept, a + b)
  {
    hide AllBytes, AllLines;
    AllBytesConcat(a, b);
    AllLinesConcat(a, b);
  }

  // ---------------------------------------------------------------------------------------------
  // Reading the log

  /** The paths of the lines about one kind of event, in order. */
  function Logged(ls: seq<Line>, k: Event): seq<Path> {
    if ls == [] then [] else (if ls[0].event == k then [ls[0].path] else []) + Logged(ls[1..], k)
  }

  function Paths(ms: seq<Msg>): (ps: seq<Path>) {
    if ms == [] then [] else [ms[0].path] + Paths(ms[1..])
  }

  lemma LoggedCons(ls: seq<Line>, k: Event)
    requires ls != []
    ensures Logged(ls, k) == (if ls[0].event == k then [ls[0].path] else []) + Logged(ls[1..], k)
  {
  }

  lemma {:induction false} LoggedConcat(a: seq<Line>, b: seq<Line>, k: Event)
    ensures Logged(a + b, k) == Logged(a, k) + Logged(b, k)
    decreases |a|
  {
    if a == [] {
      assert a + b == b;
    } else {
      LoggedCons(a + b, k);
      LoggedCons(a, k);
      hide Logged;
      assert (a + b)[1..] == a[1..] + b;
      LoggedConcat(a[1..], b, k);
    }
  }

  /** The paths the log shows for one message. */
  function LoggedFor(m: Msg, k: Event): seq<Path> {
    match k
    case Updated => if m.Delete? then [] else [m.path]
    case Deleted => if m.Delete? then [m.path] else []
    case Created => if m.MkDir? || m.Create? then [m.path] else []
  }

  /** The log of one phase, all of whose messages log lines of kind `k`, or none of them does. */
  lemma {:induction false} PhaseLog(ms: seq<Msg>, k: Event, logs: bool)
    requires forall m :: m in ms ==> LoggedFor(m, k) == if logs then [m.path] else []
    ensures Logged(AllLines(ms), k) == if logs then Paths(ms) else []
    decreases |ms|
  {
    if ms != [] {
      var m := ms[0];
      assert m in ms && forall x :: x in ms[1..] ==> x in ms;
      LogOne(m, k);
      LoggedConcat(LinesOf(m), AllLines(ms[1..]), k);
      hide Logged, LoggedFor, LinesOf;
      PhaseLog(ms[1..], k, logs);
    }
  }

  lemma LogOne(m: Msg, k: Event)
    ensures Logged(LinesOf(m), k) == LoggedFor(m, k)
  {
    var ls := LinesOf(m);
    LoggedCons(ls, k);
    if |ls| == 2 { LoggedCons(ls[1..], k); }
  }

  /** The log of a whole diff for one kind of event. */
  lemma DiffLogFor(ups: seq<Msg>, dels: seq<Msg>, news: seq<Msg>, k: Event)
    requires forall m :: m in ups ==> m.Update?
    requires forall m :: m in dels ==> m.Delete?
    requires forall m :: m in news ==> m.MkDir? || m.Create?
    ensures Logged(AllLines(ups + dels + news), k) ==
            match k
            case Updated => Paths(ups) + Paths(news)
            case Deleted => Paths(dels)
            case Created => Paths(news)
  {
    hide AllLines, Logged, Paths;
    AllLinesConcat(ups, dels);
    AllLinesConcat(ups + dels, news);
    LoggedConcat(AllLines(ups), AllLines(dels), k);
    LoggedConcat(AllLines(ups) + AllLines(dels), AllLines(news), k);
    PhaseLog(ups, k, k == Updated);
    PhaseLog(dels, k, k == Deleted);
    PhaseLog(news, k, k != Deleted);
    Units(Paths(ups));
    Units(Paths(dels));
    Units(Paths(news));
  }

  /**
   * The log of a whole diff: its DELETED lines are the deletes in order, its CREATED lines the creates in order, and its
   * UPDATED lines the updates followed by the creates.
   */
  lemma {:induction false} DiffLog(ups: seq<Msg>, dels: seq<Msg>, news: seq<Msg>)
    requires forall m :: m in ups ==> m.Update?
    requires forall m :: m in dels ==> m.Delete?
    requires forall m :: m in news ==> m.MkDir? || m.Create?
    ensures var log := AllLines(ups + dels + news);
            && Logged(log, Deleted) == Paths(dels)
            && Logged(log, Created) == Paths(news)
            && Logged(log, Updated) == Paths(ups) + Paths(news)
  {
    hide AllLines, Logged, Paths;
    DiffLogFor(ups, dels, news, Deleted);
    DiffLogFor(ups, dels, news, Created);
    DiffLogFor(ups, dels, news, Updated);
  }
}
