/**
 Orderly shutdown: everything that is not a log writer is stopped first, in registration
 order, then the log writers, so that what the former log while stopping is not lost.
 */
module Shutdown {
  import opened LogWriter
  import opened Subsequences
  import opened Wrappers

  /** One line logged to a writer. */
  datatype Line = Line(writer: nat, text: string)

  /** A registered process: one that may log while it stops, or a log writer, by its handle. */
  datatype Process = Plain(name: string, lines: seq<Line>) | Writer(handle: nat)

  datatype Call = StopServer(server: string) | AfterShutdown(process: Process)

  function Plains(ps: seq<Process>): seq<Process> {
    if ps == [] then []
    else (if ps[0].Plain? then [ps[0]] else []) + Plains(ps[1..])
  }

  function Writers(ps: seq<Process>): seq<Process> {
    if ps == [] then []
    else (if ps[0].Writer? then [ps[0]] else []) + Writers(ps[1..])
  }

  lemma {:induction false} SplitAppend(a: seq<Process>, p: Process)
    ensures Plains(a + [p]) == Plains(a) + (if p.Plain? then [p] else [])
    ensures Writers(a + [p]) == Writers(a) + (if p.Writer? then [p] else [])
  {
    if a == [] {
      assert a + [p] == [p];
      assert [p][1..] == [];
    } else {
      assert (a + [p])[1..] == a[1..] + [p];
      SplitAppend(a[1..], p);
    }
  }

  function Stops(servers: seq<string>): seq<Call> {
    seq(|servers|, i requires 0 <= i < |servers| => StopServer(servers[i]))
  }

  function Afters(ps: seq<Process>): seq<Call> {
    seq(|ps|, i requires 0 <= i < |ps| => AfterShutdown(ps[i]))
  }

  /**
   The processes by their places, each once: all that are not log writers before the log writers, and
   among themselves both in the order of registration.
   */
  predicate InOrder(ps: seq<Process>, order: seq<nat>) {
    && |order| == |ps| && (forall a | 0 <= a < |order| :: order[a] < |ps|)
    && forall a, b | 0 <= a < b < |order| ::
         if ps[order[a]].Plain? == ps[order[b]].Plain? then order[a] < order[b] else ps[order[a]].Plain?
  }

  /** The places of `part` in `ps`, in order; `plain` says of which kind they all are. */
  predicate Places(ps: seq<Process>, part: seq<Process>, plain: bool, at: seq<nat>) {
    && |at| == |part| && (forall a | 0 <= a < |at| :: at[a] < |ps| && ps[at[a]] == part[a] && part[a].Plain? == plain)
    && forall a, b | 0 <= a < b < |at| :: at[a] < at[b]
  }

  lemma {:induction false} PlacesOfKinds(ps: seq<Process>) returns (plains: seq<nat>, writers: seq<nat>)
    ensures Places(ps, Plains(ps), true, plains) && Places(ps, Writers(ps), false, writers)
    ensures |plains| + |writers| == |ps|
    decreases |ps|
  {
    if ps == [] {
      plains, writers := [], [];
    } else {
      var n := |ps| - 1;
      var front, last := ps[..n], ps[n];
      assert ps == front + [last];
      SplitAppend(front, last);
      plains, writers := PlacesOfKinds(front);
      if last.Plain? {
        plains := plains + [n];
      } else {
        writers := writers + [n];
      }
    }
  }

  /** What is called after the servers are stopped is everything registered, once and in this order. */
  lemma ShutdownOrder(ps: seq<Process>) returns (order: seq<nat>)
    ensures InOrder(ps, order) && |Plains(ps) + Writers(ps)| == |ps|
    ensures forall a | 0 <= a < |ps| :: (Plains(ps) + Writers(ps))[a] == ps[order[a]]
  {
    var plains, writers := PlacesOfKinds(ps);
    order := plains + writers;
  }

  /** The calls of a shutdown: one stop for each server, in order, and then everything registered. */
  ghost predicate ShutsDown(servers: seq<string>, ps: seq<Process>, calls: seq<Call>) {
    && |calls| == |servers| + |ps|
    && (forall i | 0 <= i < |servers| :: calls[i] == StopServer(servers[i]))
    && exists order :: InOrder(ps, order)
                       && forall a | 0 <= a < |ps| :: calls[|servers| + a] == AfterShutdown(ps[order[a]])
  }

  lemma CallsInOrder(servers: seq<string>, ps: seq<Process>)
    ensures ShutsDown(servers, ps, Stops(servers) + Afters(Plains(ps)) + Afters(Writers(ps)))
  {
    var order := ShutdownOrder(ps);
    var calls := Stops(servers) + Afters(Plains(ps)) + Afters(Writers(ps));
    forall a | 0 <= a < |ps| ensures calls[|servers| + a] == AfterShutdown(ps[order[a]]) {
      assert (Plains(ps) + Writers(ps))[a] == ps[order[a]];
    }
  }

  lemma CallsShutDown(before: seq<Call>, servers: seq<string>, ps: seq<Process>)
    ensures var now := before + Stops(servers) + Afters(Plains(ps)) + Afters(Writers(ps));
            && ShutsDown(servers, ps, now[|before|..])
            && forall h, marker :: ActionsOf(now[|before|..], h, marker) == ShutdownActions(ps, h, marker)
  {
    var now := before + Stops(servers) + Afters(Plains(ps)) + Afters(Writers(ps));
    assert now[|before|..] == Stops(servers) + Afters(Plains(ps)) + Afters(Writers(ps));
    CallsInOrder(servers, ps);
    forall h, marker { CallsAct(servers, ps, h, marker); }
  }

  class Graceful {
    var srvList: seq<string>
    var processList: seq<Process>
    /** The servers stopped and the `AfterShutdown` calls made, in order. */
    var calls: seq<Call>

    constructor ()
      ensures srvList == [] && processList == [] && calls == []
    {
      srvList, processList, calls := [], [], [];
    }

    method RegHTTPServer(server: string)
      modifies this`srvList
      ensures srvList == old(srvList) + [server]
    {
      srvList := srvList + [server];
    }

    method RegProcessor(p: Process)
      modifies this`processList
      ensures processList == old(processList) + [p]
    {
      processList := processList + [p];
    }

    method StopServers()
      modifies this`calls
      ensures calls == old(calls) + Stops(srvList)
    {
      for i := 0 to |srvList|
        invariant calls == old(calls) + Stops(srvList[..i])
      {
        assert Stops(srvList[..i + 1]) == Stops(srvList[..i]) + [StopServer(srvList[i])];
        calls := calls + [StopServer(srvList[i])];
      }
      assert srvList[..|srvList|] == srvList;
    }

    /** Calls all that are not log writers, and puts those off. */
    method CallPlains() returns (deferred: seq<Process>)
      modifies this`calls
      ensures calls == old(calls) + Afters(Plains(processList)) && deferred == Writers(processList)
    {
      deferred := [];
      for i := 0 to |processList|
        invariant calls == old(calls) + Afters(Plains(processList[..i]))
        invariant deferred == Writers(processList[..i])
      {
        assert processList[..i + 1] == processList[..i] + [processList[i]];
        SplitAppend(processList[..i], processList[i]);
        if processList[i].Plain? {
          AftersAppend(Plains(processList[..i]), processList[i]);
          calls := calls + [AfterShutdown(processList[i])];
        } else {
          deferred := deferred + [processList[i]];
        }
      }
      assert processList[..|processList|] == processList;
    }

    /** Servers first, then all that are not log writers, then the log writers. */
    method ShutdownAction()
      modifies this`calls
      ensures calls == old(calls) + Stops(srvList) + Afters(Plains(processList)) + Afters(Writers(processList))
      ensures ShutsDown(srvList, processList, calls[|old(calls)|..])
      ensures forall h, marker ::
                ActionsOf(calls[|old(calls)|..], h, marker) == ShutdownActions(processList, h, marker)
    {
      StopServers();
      var deferred := CallPlains();
      ghost var stopped := calls;
      for i := 0 to |deferred|
        invariant calls == stopped + Afters(deferred[..i])
      {
        assert deferred[..i + 1] == deferred[..i] + [deferred[i]];
        AftersAppend(deferred[..i], deferred[i]);
        calls := calls + [AfterShutdown(deferred[i])];
      }
      assert deferred[..|deferred|] == deferred;
      CallsShutDown(old(calls), srvList, processList);
    }
  }

  lemma AftersAppend(ps: seq<Process>, p: Process)
    ensures Afters(ps + [p]) == Afters(ps) + [AfterShutdown(p)]
  {
  }

  /** The registry of log files: one writer per path, registered for shutdown on every request. */
  class AbFile {
    const graceful: Graceful
    var files: map<string, nat>

    constructor (graceful: Graceful)
      ensures this.graceful == graceful && files == map[]
    {
      this.graceful := graceful;
      files := map[];
    }

    ghost predicate Distinct()
      reads this
    {
      forall p, q | p in files && q in files && files[p] == files[q] :: p == q
    }

    /**
     `newHandle` is the handle of a newly opened writer; a path already open keeps its writer.
     `None`, a panic, if the file cannot be opened: then nothing is registered.
     */
    method MustNewIO(path: string, newHandle: nat, openOk: bool) returns (handle: Option<nat>)
      requires Distinct() && newHandle !in files.Values
      modifies this`files, graceful`processList
      ensures Distinct()
      ensures path in old(files) ==> handle == Some(old(files)[path]) && files == old(files)
      ensures path !in old(files) && openOk ==> handle == Some(newHandle) && files == old(files)[path := newHandle]
      ensures path !in old(files) && !openOk ==> handle == None && files == old(files)
      ensures graceful.processList
              == old(graceful.processList) + if handle.Some? then [Writer(handle.value)] else []
    {
      if path !in files {
        if !openOk {
          assert graceful.processList + [] == graceful.processList;
          return None;
        }
        files := files[path := newHandle];
      }
      handle := Some(files[path]);
      graceful.RegProcessor(Writer(files[path]));
    }
  }

  // ---- The shutdown as one writer sees it ----

  /** What a shutdown does to a writer: it logs to it, and it closes it. */
  datatype Action = Log(text: string) | Shutting

  function LineActions(lines: seq<Line>, h: nat): seq<Action> {
    if lines == [] then []
    else (if lines[0].writer == h then [Log(lines[0].text)] else []) + LineActions(lines[1..], h)
  }

  function ProcessActions(p: Process, h: nat, marker: string): seq<Action> {
    match p
    case Plain(_, lines) => LineActions(lines, h)
    case Writer(handle) => if handle == h then [Log(marker), Shutting] else []
  }

  /** Stopping a writer writes a marker and closes it. */
  function ActionsAt(calls: seq<Process>, h: nat, marker: string): seq<Action> {
    if calls == [] then [] else ProcessActions(calls[0], h, marker) + ActionsAt(calls[1..], h, marker)
  }

  function LineText(lines: seq<Line>, h: nat): string {
    if lines == [] then "" else (if lines[0].writer == h then lines[0].text else "") + LineText(lines[1..], h)
  }

  /** Everything the processes log to the writer. */
  function TextAt(plains: seq<Process>, h: nat): string {
    if plains == [] then ""
    else (if plains[0].Plain? then LineText(plains[0].lines, h) else "") + TextAt(plains[1..], h)
  }

  predicate Registered(ps: seq<Process>, h: nat) {
    exists p | p in ps :: p == Writer(h)
  }

  /** What the actions log before the writer is first closed. */
  function Before(actions: seq<Action>): string {
    if actions == [] || actions[0].Shutting? then "" else actions[0].text + Before(actions[1..])
  }

  lemma {:induction false} BeforeAppend(a: seq<Action>, b: seq<Action>)
    requires Shutting !in a
    ensures Before(a + b) == Before(a) + Before(b)
  {
    if a == [] {
      assert a + b == b;
    } else {
      assert (a + b)[1..] == a[1..] + b && a[0] in a && forall x | x in a[1..] :: x in a;
      BeforeAppend(a[1..], b);
      assert a[0].text + (Before(a[1..]) + Before(b)) == a[0].text + Before(a[1..]) + Before(b);
    }
  }

  lemma {:induction false} LinesBefore(lines: seq<Line>, h: nat)
    ensures Shutting !in LineActions(lines, h) && Before(LineActions(lines, h)) == LineText(lines, h)
  {
    if lines != [] {
      LinesBefore(lines[1..], h);
      var rest := LineActions(lines[1..], h);
      assert ([Log(lines[0].text)] + rest)[1..] == rest && [] + rest == rest;
      assert "" + LineText(lines[1..], h) == LineText(lines[1..], h);
    }
  }

  lemma {:induction false} PlainsBefore(ps: seq<Process>, h: nat, marker: string)
    requires forall p | p in ps :: p.Plain?
    ensures Shutting !in ActionsAt(ps, h, marker) && Before(ActionsAt(ps, h, marker)) == TextAt(ps, h)
  {
    if ps != [] {
      assert ps[0] in ps && forall p | p in ps[1..] :: p in ps;
      LinesBefore(ps[0].lines, h);
      PlainsBefore(ps[1..], h, marker);
      BeforeAppend(LineActions(ps[0].lines, h), ActionsAt(ps[1..], h, marker));
    }
  }

  /** However often a writer is registered, one marker comes before its first close. */
  lemma {:induction false} WritersBefore(ps: seq<Process>, h: nat, marker: string)
    requires Registered(ps, h) && forall p | p in ps :: p.Writer?
    ensures Shutting in ActionsAt(ps, h, marker) && Before(ActionsAt(ps, h, marker)) == marker
  {
    assert ps[0] in ps && forall p | p in ps[1..] :: p in ps;
    var rest := ActionsAt(ps[1..], h, marker);
    if ps[0].handle == h {
      var all := [Log(marker), Shutting] + rest;
      assert all[1] == Shutting && all[1..][0] == Shutting;
      assert Before(all[1..]) == "" && marker + "" == marker;
    } else {
      assert ps == [ps[0]] + ps[1..] && ps[0] != Writer(h) && Writer(h) in ps;
      assert Writer(h) in ps[1..];
      WritersBefore(ps[1..], h, marker);
      assert [] + rest == rest;
    }
  }

  lemma {:induction false} ActionsAppend(a: seq<Process>, b: seq<Process>, h: nat, marker: string)
    ensures ActionsAt(a + b, h, marker) == ActionsAt(a, h, marker) + ActionsAt(b, h, marker)
  {
    if a == [] {
      assert a + b == b;
    } else {
      assert (a + b)[1..] == a[1..] + b;
      ActionsAppend(a[1..], b, h, marker);
    }
  }

  lemma {:induction false} SplitKinds(ps: seq<Process>)
    ensures forall p | p in Plains(ps) :: p.Plain?
    ensures forall p | p in Writers(ps) :: p.Writer?
    ensures forall p | p in ps && p.Writer? :: p in Writers(ps)
  {
    if ps != [] { SplitKinds(ps[1..]); }
  }

  lemma {:induction false} TextOfPlains(ps: seq<Process>, h: nat)
    ensures TextAt(Plains(ps), h) == TextAt(ps, h)
  {
    if ps != [] {
      TextOfPlains(ps[1..], h);
      if ps[0].Plain? {
        assert Plains(ps)[1..] == Plains(ps[1..]);
      } else {
        assert Plains(ps) == Plains(ps[1..]) && "" + TextAt(ps[1..], h) == TextAt(ps[1..], h);
      }
    }
  }

  /** The actions of a shutdown in the order made by ShutdownAction. */
  function ShutdownActions(ps: seq<Process>, h: nat, marker: string): seq<Action> {
    ActionsAt(Plains(ps) + Writers(ps), h, marker)
  }

  /** What calls do to a writer. */
  function ActionsOf(calls: seq<Call>, h: nat, marker: string): seq<Action> {
    if calls == [] then []
    else (match calls[0] case StopServer(_) => [] case AfterShutdown(p) => ProcessActions(p, h, marker))
         + ActionsOf(calls[1..], h, marker)
  }

  lemma {:induction false} StopsAct(servers: seq<string>, calls: seq<Call>, h: nat, marker: string)
    ensures ActionsOf(Stops(servers) + calls, h, marker) == ActionsOf(calls, h, marker)
    decreases servers
  {
    if servers == [] {
      assert Stops(servers) + calls == calls;
    } else {
      assert (Stops(servers) + calls)[1..] == Stops(servers[1..]) + calls;
      StopsAct(servers[1..], calls, h, marker);
    }
  }

  lemma {:induction false} AftersAct(ps: seq<Process>, h: nat, marker: string)
    ensures ActionsOf(Afters(ps), h, marker) == ActionsAt(ps, h, marker)
  {
    if ps != [] {
      assert Afters(ps)[1..] == Afters(ps[1..]);
      AftersAct(ps[1..], h, marker);
    }
  }

  lemma CallsAct(servers: seq<string>, ps: seq<Process>, h: nat, marker: string)
    ensures ActionsOf(Stops(servers) + Afters(Plains(ps)) + Afters(Writers(ps)), h, marker) == ShutdownActions(ps, h, marker)
  {
    var order := Plains(ps) + Writers(ps);
    assert Stops(servers) + Afters(Plains(ps)) + Afters(Writers(ps)) == Stops(servers) + Afters(order);
    StopsAct(servers, Afters(order), h, marker);
    AftersAct(order, h, marker);
  }

  lemma ShutdownText(ps: seq<Process>, h: nat, marker: string)
    requires Registered(ps, h)
    ensures Shutting in ShutdownActions(ps, h, marker)
    ensures Before(ShutdownActions(ps, h, marker)) == TextAt(ps, h) + marker
  {
    SplitKinds(ps);
    assert Registered(Writers(ps), h);
    ActionsAppend(Plains(ps), Writers(ps), h, marker);
    PlainsBefore(Plains(ps), h, marker);
    WritersBefore(Writers(ps), h, marker);
    TextOfPlains(ps, h);
    BeforeAppend(ActionsAt(Plains(ps), h, marker), ActionsAt(Writers(ps), h, marker));
  }

  // ---- Any schedule of the shutdown, the run loop and everyone else ----

  predicate Does(e: Event, a: Action) {
    match a
    case Log(text) => e.Written? && e.p == text && !e.late
    case Shutting => e.CloseCall? && !e.late
  }

  /** An event that is not the shutdown's: a tick of the run loop, or a line logged by someone else. */
  predicate Aside(e: Event, alone: bool) {
    e.FlushTick? || e.PruneTick? || (e.Written? && !alone)
  }

  /** The shutdown's actions happen in order among other events; `alone` if nobody else logs. */
  predicate Schedules(events: seq<Event>, actions: seq<Action>, alone: bool) {
    if events == [] then actions == []
    else
      || (actions != [] && Does(events[0], actions[0]) && Schedules(events[1..], actions[1..], alone))
      || (Aside(events[0], alone) && Schedules(events[1..], actions, alone))
  }

  /** A closed writer takes nothing of the shutdown, and is not closed again. */
  lemma {:induction false} ClosedStays(opt: Options, s: LogState, events: seq<Event>, actions: seq<Action>, alone: bool)
    requires s.closed && Schedules(events, actions, alone)
    ensures var t := Run(opt, s, events);
            t.closed && t.closes == s.closes && t.fileOpen == s.fileOpen
    ensures alone ==> AllAccepted(opt, s, events) == ""
    decreases events
  {
    if events != [] {
      var e, rest := events[0], events[1..];
      var t := Next(opt, s, e);
      StepCloses(opt, s, e);
      if actions != [] && Does(e, actions[0]) && Schedules(rest, actions[1..], alone) {
        ClosedStays(opt, t, rest, actions[1..], alone);
      } else {
        ClosedStays(opt, t, rest, actions, alone);
      }
    }
  }

  /** An open writer takes what is logged before it is closed, and is closed once. */
  lemma {:induction false} OpenTakes(opt: Options, s: LogState, events: seq<Event>, actions: seq<Action>, alone: bool)
    requires !s.closed && Schedules(events, actions, alone)
    ensures var t := Run(opt, s, events);
            && (t.closed <==> Shutting in actions) && t.fileOpen == s.fileOpen
            && t.closes == s.closes + if Shutting in actions then 1 else 0
    ensures Sub(Before(actions), AllAccepted(opt, s, events))
    ensures alone ==> AllAccepted(opt, s, events) == Before(actions)
    decreases events
  {
    if events != [] {
      var e, rest := events[0], events[1..];
      var t := Next(opt, s, e);
      StepCloses(opt, s, e);
      if actions != [] && Does(e, actions[0]) && Schedules(rest, actions[1..], alone) {
        assert actions == [actions[0]] + actions[1..];
        if actions[0].Shutting? {
          ClosedStays(opt, t, rest, actions[1..], alone);
        } else {
          OpenTakes(opt, t, rest, actions[1..], alone);
          SubRefl(e.p);
          SubConcat(e.p, e.p, Before(actions[1..]), AllAccepted(opt, t, rest));
        }
      } else {
        OpenTakes(opt, t, rest, actions, alone);
        SubPrepend(Before(actions), Accepted(s, e), AllAccepted(opt, t, rest));
      }
    }
  }

  /**
   Over any schedule of a shutdown among ticks of the run loop and other lines: an open writer that
   is registered, once or more, takes every line the processes log while stopping and then one
   marker, and is closed once. If nobody else logs it takes nothing more.
   */
  lemma ShutdownTakesEverything(opt: Options, s: LogState, ps: seq<Process>, h: nat, marker: string,
                                events: seq<Event>, alone: bool)
    requires !s.closed && Registered(ps, h) && Schedules(events, ShutdownActions(ps, h, marker), alone)
    ensures var t := Run(opt, s, events); t.closed && t.closes == s.closes + 1 && t.fileOpen == s.fileOpen
    ensures Sub(TextAt(ps, h) + marker, AllAccepted(opt, s, events))
    ensures alone ==> AllAccepted(opt, s, events) == TextAt(ps, h) + marker
  {
    ShutdownText(ps, h, marker);
    OpenTakes(opt, s, events, ShutdownActions(ps, h, marker), alone);
  }

  lemma {:induction false} RunAppend(opt: Options, s: LogState, a: seq<Event>, b: seq<Event>)
    ensures Run(opt, s, a + b) == Run(opt, Run(opt, s, a), b)
    ensures AllAccepted(opt, s, a + b) == AllAccepted(opt, s, a) + AllAccepted(opt, Run(opt, s, a), b)
    decreases a
  {
    if a == [] {
      assert a + b == b;
    } else {
      assert (a + b)[1..] == a[1..] + b;
      RunAppend(opt, Next(opt, s, a[0]), a[1..], b);
      var x, y, z := Accepted(s, a[0]), AllAccepted(opt, Next(opt, s, a[0]), a[1..]), AllAccepted(opt, Run(opt, s, a), b);
      assert x + (y + z) == x + y + z;
    }
  }

  /** Calls that come after the close. */
  predicate Late(events: seq<Event>) {
    forall e | e in events :: !e.FlushTick? && !e.PruneTick? && !e.RunClose? && !e.late
  }

  lemma {:induction false} LateIsIgnored(opt: Options, s: LogState, events: seq<Event>)
    requires s.closed && Late(events)
    ensures Run(opt, s, events) == s && AllAccepted(opt, s, events) == ""
    decreases events
  {
    if events != [] {
      assert events[0] in events && forall e | e in events[1..] :: e in events;
      LateIsIgnored(opt, s, events[1..]);
    }
  }

  /** One flush that succeeds leaves nothing in the buffer, and the run loop then closes the file. */
  lemma RunCloseEmpties(opt: Options, s: LogState, today: nat, io: IO, horizon: nat)
    requires s.closed && Valid(s, today) && today < horizon && Flushed(opt, s, today, io).1
    ensures var end := Next(opt, s, RunClose(today, io));
            end.buf == "" && !end.fileOpen && end.closed && end.closes == s.closes
            && Stream(end, horizon) == Archived(end.days, horizon) + end.live
  {
    FlushKeeps(opt, s, today, io, horizon);
    var end := Next(opt, s, RunClose(today, io));
    assert Archived(end.days, horizon) + end.live + "" == Archived(end.days, horizon) + end.live;
  }

  lemma {:induction false} OrderedValid(opt: Options, s: LogState, from: nat, events: seq<Event>, last: Event,
                                        horizon: nat)
    requires Valid(s, from) && Ordered(from, events + [last], horizon)
    ensures Valid(Run(opt, s, events), last.today) && last.today < horizon
    decreases events
  {
    var all := events + [last];
    if events == [] {
      assert all[0] == last && all[1..] == [];
      assert Ordered(last.today, all[1..], horizon);
    } else {
      assert all[0] == events[0] && all[1..] == events[1..] + [last];
      StepValid(opt, s, events[0]);
      OrderedValid(opt, Next(opt, s, events[0]), events[0].today, events[1..], last, horizon);
    }
  }

  /**
   The run loop closes the file at some point after the writer is closed, maybe before the last
   calls of the shutdown. If its flush then succeeds, and no rotation on the way was blind, the files
   hold in order all there was, every line logged while stopping, and the marker: at least once,
   counting what pruning took off, and exactly once if nothing failed and nobody else logged.
   */
  lemma ShutdownReachesTheFile(opt: Options, s: LogState, ps: seq<Process>, h: nat, marker: string, events: seq<Event>,
                               rest: seq<Event>, alone: bool, from: nat, today: nat, io: IO, horizon: nat)
    requires !s.closed && s.fileOpen && Registered(ps, h)
    requires Schedules(events + rest, ShutdownActions(ps, h, marker), alone) && Late(rest)
    requires Run(opt, s, events).closed && Flushed(opt, Run(opt, s, events), today, io).1
    requires Valid(s, from) && Ordered(from, events + [RunClose(today, io)], horizon)
    requires NeverBlind(opt, s, events + [RunClose(today, io)])
    ensures var all := events + [RunClose(today, io)];
            var end, text := Run(opt, s, all + rest), TextAt(ps, h) + marker;
            && end.buf == "" && !end.fileOpen && end.closed && end.closes == s.closes + 1
            && Sub(Stream(s, horizon) + text, AllLost(opt, s, all, horizon) + (Archived(end.days, horizon) + end.live))
            && (alone && (forall e | e in all :: CleanEvent(e)) ==>
                  AllLost(opt, s, all, horizon) + (Archived(end.days, horizon) + end.live) == Stream(s, horizon) + text)
  {
    var close := RunClose(today, io);
    var all := events + [close];
    var t := Run(opt, s, events);
    OrderedValid(opt, s, from, events, close, horizon);
    RunCloseEmpties(opt, t, today, io, horizon);
    ShutdownTakesEverything(opt, s, ps, h, marker, events + rest, alone);
    RunAppend(opt, s, events, rest);
    LateIsIgnored(opt, t, rest);
    ClosingRun(opt, s, events, close);
    RunAppend(opt, s, all, rest);
    LateIsIgnored(opt, Next(opt, t, close), rest);
    var clean := alone && forall e | e in all :: CleanEvent(e);
    RunKeeps(opt, s, from, all, horizon, clean);
    var accepted, text := AllAccepted(opt, s, events), TextAt(ps, h) + marker;
    assert accepted + "" == accepted;
    SubRefl(Stream(s, horizon));
    SubConcat(Stream(s, horizon), Stream(s, horizon), text, accepted);
    SubTransitive(Stream(s, horizon) + text, Stream(s, horizon) + accepted,
                  AllLost(opt, s, all, horizon) + Stream(Run(opt, s, all), horizon));
  }

  lemma ClosingRun(opt: Options, s: LogState, events: seq<Event>, close: Event)
    requires close.RunClose?
    ensures Run(opt, s, events + [close]) == Next(opt, Run(opt, s, events), close)
    ensures AllAccepted(opt, s, events + [close]) == AllAccepted(opt, s, events)
  {
    var t := Run(opt, s, events);
    RunAppend(opt, s, events, [close]);
    assert [close][1..] == [];
    assert Run(opt, t, [close]) == Run(opt, Next(opt, t, close), []);
    assert AllAccepted(opt, t, [close]) == "" + AllAccepted(opt, Next(opt, t, close), []);
    assert AllAccepted(opt, s, events) + "" == AllAccepted(opt, s, events);
  }
}
