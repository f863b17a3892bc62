/**
 The buffered log writer: bytes go to a buffer, the buffer to the live file, and a live file
 that has grown past its limit to a numbered archive in the directory of the day. Day
 directories are named by integer days; each maps an archive's index to its bytes.
 */
module LogWriter {
  import opened Subsequences
  import opened Text
  import opened Wrappers

  datatype Options = Options(fileMaxSize: int, bufferSize: int, saveDays: int)

  type Dir = map<nat, string>

  datatype LogState = LogState(buf: string, live: string, days: map<nat, Dir>,
                               closed: bool, closes: nat, fileOpen: bool)

  /**
   How the file system treats one flush: the write stops after `written` bytes if given; the
   archive may not be creatable; the seek back to the start, whose error is ignored, may fail,
   which leaves nothing to copy; the copy may stop after `copied` bytes; the final truncation,
   whose error is ignored too, may not happen.
   */
  datatype IO = IO(written: Option<nat>, statOk: bool, createOk: bool, seekOk: bool, copied: Option<nat>,
                   truncated: bool)

  predicate Clean(io: IO) {
    io.written.None? && io.statOk && io.createOk && io.seekOk && io.copied.None? && io.truncated
  }

  function Take(s: string, n: nat): string {
    if n < |s| then s[..n] else s
  }

  // ---- Reference functions ----

  function DirOf(days: map<nat, Dir>, day: nat): Dir {
    if day in days then days[day] else map[]
  }

  /** The live file copied to the next free index of today's directory, then emptied. */
  function Rotated(s: LogState, today: nat, io: IO): (LogState, bool) {
    var dir, source := DirOf(s.days, today), if io.seekOk then s.live else "";
    if !io.statOk then (s, false)
    else if !io.createOk then (s.(days := s.days[today := dir]), false)
    else if io.copied.Some? then (s.(days := s.days[today := dir[|dir| := Take(source, io.copied.value)]]), false)
    else (s.(days := s.days[today := dir[|dir| := source]], live := if io.truncated then "" else s.live), true)
  }

  function Flushed(opt: Options, s: LogState, today: nat, io: IO): (LogState, bool) {
    if s.buf == "" then (s, true)
    else if !s.fileOpen then (s, false)
    else if io.written.Some? then (s.(live := s.live + Take(s.buf, io.written.value)), false)
    else
      var t := s.(live := s.live + s.buf, buf := "");
      if |t.live| >= opt.fileMaxSize then Rotated(t, today, io) else (t, true)
  }

  /** A write past its closed check: the bytes are buffered, whatever the flush then does. */
  function Buffered(opt: Options, s: LogState, p: string, today: nat, io: IO): (LogState, bool) {
    var t := s.(buf := s.buf + p);
    if |t.buf| < opt.bufferSize then (t, true) else Flushed(opt, t, today, io)
  }

  function Closing(s: LogState): LogState {
    if s.closed then s else ClosedAnyway(s)
  }

  /** What a close does once it is past its closed check. */
  function ClosedAnyway(s: LogState): LogState {
    s.(closed := true, closes := s.closes + 1)
  }

  /** The run loop's last act: flush, and close the file if that worked. */
  function Shut(opt: Options, s: LogState, today: nat, io: IO): LogState {
    var f := Flushed(opt, s, today, io);
    if f.1 then f.0.(fileOpen := false) else f.0
  }

  predicate Kept(opt: Options, today: nat, day: nat) {
    today - opt.saveDays < day <= today
  }

  function KeptDays(opt: Options, days: map<nat, Dir>, today: nat): map<nat, Dir> {
    map d | d in days && Kept(opt, today, d) :: days[d]
  }

  function Pruned(opt: Options, s: LogState, today: nat): LogState {
    s.(days := KeptDays(opt, s.days, today))
  }

  // ---- The writer ----

  class InnerIO {
    const opt: Options
    var buf: string
    var live: string
    var days: map<nat, Dir>
    var closed: bool
    /** How often the close channel was closed; a second time would panic. */
    var closes: nat
    var fileOpen: bool

    constructor (opt: Options, live: string, days: map<nat, Dir>)
      ensures this.opt == opt && State() == LogState("", live, days, false, 0, true)
    {
      this.opt := opt;
      buf, this.live, this.days := "", live, days;
      closed, closes, fileOpen := false, 0, true;
    }

    function State(): LogState
      reads this
    {
      LogState(buf, live, days, closed, closes, fileOpen)
    }

    /** The walk over a directory that numbers the next archive. */
    method CountFiles(dir: Dir) returns (count: nat)
      ensures count == |dir|
    {
      count := 0;
      var rest := dir.Keys;
      while rest != {}
        invariant rest <= dir.Keys && count == |dir.Keys| - |rest|
      {
        var i :| i in rest;
        rest := rest - {i};
        count := count + 1;
      }
    }

    method FileCopyWithIndex(today: nat, io: IO) returns (ok: bool)
      modifies this`live, this`days
      ensures (State(), ok) == Rotated(old(State()), today, io)
    {
      if !io.statOk {
        return false;
      }
      if today !in days {
        days := days[today := map[]];
      }
      assert days == old(days)[today := DirOf(old(days), today)];
      var index := CountFiles(days[today]);
      if !io.createOk {
        return false;
      }
      var source := if io.seekOk then live else "";
      var n := if io.copied.Some? then io.copied.value else |source|;
      days := days[today := days[today][index := Take(source, n)]];
      assert days == old(days)[today := DirOf(old(days), today)[index := Take(source, n)]];
      if io.copied.Some? {
        return false;
      }
      if io.truncated {
        live := "";
      }
      return true;
    }

    method FlushBuffer(today: nat, io: IO) returns (ok: bool)
      modifies this`buf, this`live, this`days
      ensures (State(), ok) == Flushed(opt, old(State()), today, io)
    {
      if buf == "" {
        return true;
      }
      if !fileOpen {
        return false;
      }
      if io.written.Some? {
        live := live + Take(buf, io.written.value);
        return false;
      }
      live := live + buf;
      buf := "";
      if |live| >= opt.fileMaxSize {
        ok := FileCopyWithIndex(today, io);
      } else {
        ok := true;
      }
    }

    /** The body of a write under the lock, after the closed check. */
    method WriteLocked(p: string, today: nat, io: IO) returns (n: nat, ok: bool)
      modifies this`buf, this`live, this`days
      ensures n == 0 && (State(), ok) == Buffered(opt, old(State()), p, today, io)
    {
      n := 0;
      buf := buf + p;
      if |buf| < opt.bufferSize {
        return n, true;
      }
      ok := FlushBuffer(today, io);
    }

    /** A write to a closed writer is dropped without an error; the count returned is always 0. */
    method Write(p: string, today: nat, io: IO) returns (n: nat, ok: bool)
      modifies this`buf, this`live, this`days
      ensures n == 0
      ensures (State(), ok) == if old(closed) then (old(State()), true) else Buffered(opt, old(State()), p, today, io)
    {
      if closed {
        return 0, true;
      }
      n, ok := WriteLocked(p, today, io);
    }

    method Close()
      modifies this`closed, this`closes
      ensures State() == Closing(old(State()))
    {
      if closed {
        return;
      }
      CloseLocked();
    }

    /** The body of a close under the lock, after the closed check. */
    method CloseLocked()
      modifies this`closed, this`closes
      ensures State() == ClosedAnyway(old(State()))
    {
      closed := true;
      closes := closes + 1;
    }

    method AfterShutdown(marker: string, today: nat, io: IO)
      modifies this
      ensures State() == Closing(if old(closed) then old(State()) else Buffered(opt, old(State()), marker, today, io).0)
    {
      var _, _ := Write(marker, today, io);
      Close();
    }

    method FlushAndCloseFile(today: nat, io: IO) returns (ok: bool)
      modifies this`buf, this`live, this`days, this`fileOpen
      ensures State() == Shut(opt, old(State()), today, io)
      ensures ok == Flushed(opt, old(State()), today, io).1
    {
      ok := FlushBuffer(today, io);
      if ok {
        fileOpen := false;
      }
    }

    method LatestDays(today: nat) returns (keep: seq<int>)
      ensures forall d: nat :: d in keep <==> Kept(opt, today, d)
    {
      keep := [];
      var a := 0;
      while a < opt.saveDays
        invariant 0 <= a && (opt.saveDays >= 0 ==> a <= opt.saveDays) && (opt.saveDays < 0 ==> a == 0)
        invariant forall d: nat :: d in keep <==> today - a < d <= today
      {
        keep := keep + [today - a];
        a := a + 1;
      }
    }

    /** Removes every day directory outside the last `saveDays` days, and nothing else. */
    method AutoDelDir(today: nat)
      modifies this`days
      ensures State() == Pruned(opt, old(State()), today)
    {
      var keep := LatestDays(today);
      var rest := days.Keys;
      var gone: set<nat> := {};
      while rest != {}
        invariant rest <= days.Keys
        invariant gone == set d | d in days.Keys - rest && d !in keep
      {
        var d :| d in rest;
        if d !in keep {
          gone := gone + {d};
        }
        rest := rest - {d};
      }
      days := days - gone;
    }
  }

  // ---- What the files hold, in order ----

  /** Archives are numbered 0..n-1, so the count of files is a free index. */
  ghost predicate DirOk(dir: Dir) {
    forall i: nat :: i in dir <==> i < |dir|
  }

  ghost predicate Valid(s: LogState, today: nat) {
    forall d | d in s.days :: d <= today && DirOk(s.days[d])
  }

  function DirBytes(dir: Dir, n: nat): string {
    if n == 0 then "" else DirBytes(dir, n - 1) + (if n - 1 in dir then dir[n - 1] else "")
  }

  /** All archives of the days before `upto`, by day and then by index. */
  function Archived(days: map<nat, Dir>, upto: nat): string {
    if upto == 0 then ""
    else Archived(days, upto - 1) + (if upto - 1 in days then DirBytes(days[upto - 1], |days[upto - 1]|) else "")
  }

  function Stream(s: LogState, horizon: nat): string {
    Archived(s.days, horizon) + s.live + s.buf
  }

  lemma {:induction false} DirBytesSame(a: Dir, b: Dir, n: nat)
    requires forall i: nat | i < n :: (i in a <==> i in b) && (i in a ==> a[i] == b[i])
    ensures DirBytes(a, n) == DirBytes(b, n)
  {
    if n > 0 { DirBytesSame(a, b, n - 1); }
  }

  lemma {:induction false} ArchivedSame(a: map<nat, Dir>, b: map<nat, Dir>, upto: nat)
    requires forall d: nat | d < upto :: (d in a <==> d in b) && (d in a ==> a[d] == b[d])
    ensures Archived(a, upto) == Archived(b, upto)
  {
    if upto > 0 { ArchivedSame(a, b, upto - 1); }
  }

  lemma {:induction false} ArchivedBeyond(days: map<nat, Dir>, from: nat, upto: nat)
    requires from <= upto && forall d | d in days :: d < from
    ensures Archived(days, upto) == Archived(days, from)
    decreases upto
  {
    if from < upto { ArchivedBeyond(days, from, upto - 1); }
  }

  lemma CountAppend(dir: Dir, bytes: string)
    requires |dir| !in dir
    ensures |dir[|dir| := bytes]| == |dir| + 1
  {
  }

  /** Counting the files gives a free index, and using it keeps the numbering dense. */
  lemma DirAppend(dir: Dir, bytes: string)
    requires DirOk(dir)
    ensures |dir| !in dir && DirOk(dir[|dir| := bytes])
  {
  }

  lemma DirAppendBytes(dir: Dir, bytes: string)
    requires DirOk(dir)
    ensures var dir' := dir[|dir| := bytes]; DirBytes(dir', |dir'|) == DirBytes(dir, |dir|) + bytes
  {
    CountAppend(dir, bytes);
    DirBytesSame(dir, dir[|dir| := bytes], |dir|);
  }

  /** With no later day, today's directory is the end of everything archived. */
  lemma TodayIsLast(days: map<nat, Dir>, today: nat, horizon: nat)
    requires today < horizon && forall d | d in days :: d <= today
    ensures Archived(days, horizon) == Archived(days, today) + DirBytes(DirOf(days, today), |DirOf(days, today)|)
  {
    ArchivedBeyond(days, today + 1, horizon);
    assert DirBytes(map[], 0) == "";
  }

  lemma TodayReplaced(days: map<nat, Dir>, today: nat, dir: Dir, horizon: nat)
    requires today < horizon && forall d | d in days :: d <= today
    ensures Archived(days[today := dir], horizon) == Archived(days, today) + DirBytes(dir, |dir|)
  {
    TodayIsLast(days[today := dir], today, horizon);
    ArchivedSame(days, days[today := dir], today);
  }

  /** Adding an archive at the next index of the latest day puts its bytes at the end. */
  lemma ArchivedAppend(days: map<nat, Dir>, today: nat, bytes: string, horizon: nat)
    requires today < horizon && DirOk(DirOf(days, today)) && forall d | d in days :: d <= today
    ensures var dir := DirOf(days, today);
            Archived(days[today := dir[|dir| := bytes]], horizon) == Archived(days, horizon) + bytes
  {
    var dir := DirOf(days, today);
    DirAppendBytes(dir, bytes);
    TodayIsLast(days, today, horizon);
    TodayReplaced(days, today, dir[|dir| := bytes], horizon);
  }

  lemma ArchivedEmptyDir(days: map<nat, Dir>, today: nat, horizon: nat)
    requires today < horizon && forall d | d in days :: d <= today
    ensures Archived(days[today := DirOf(days, today)], horizon) == Archived(days, horizon)
  {
    TodayIsLast(days, today, horizon);
    TodayReplaced(days, today, DirOf(days, today), horizon);
  }

  // ---- One flush: nothing is lost, and without failures nothing is repeated ----

  lemma RotationValid(s: LogState, today: nat, io: IO)
    requires Valid(s, today)
    ensures Valid(Rotated(s, today, io).0, today)
  {
    var dir := DirOf(s.days, today);
    var source := if io.seekOk then s.live else "";
    DirAppend(dir, Take(source, if io.copied.Some? then io.copied.value else |source|));
  }

  /** The live file is truncated without having been copied: the copy started at its end. */
  predicate BlindIO(io: IO) {
    io.written.None? && io.statOk && io.createOk && !io.seekOk && io.copied.None? && io.truncated
  }

  lemma RotationKeeps(s: LogState, today: nat, io: IO, horizon: nat)
    requires Valid(s, today) && today < horizon && io.written.None? && !BlindIO(io)
    ensures var t := Rotated(s, today, io).0;
            && Sub(Stream(s, horizon), Stream(t, horizon))
            && (Clean(io) ==> Stream(t, horizon) == Stream(s, horizon))
  {
    var t := Rotated(s, today, io).0;
    var a := Archived(s.days, horizon);
    SubRefl(Stream(s, horizon));
    if io.statOk && !io.createOk {
      ArchivedEmptyDir(s.days, today, horizon);
    } else if io.statOk {
      var source := if io.seekOk then s.live else "";
      var bytes := if io.copied.Some? then Take(source, io.copied.value) else source;
      ArchivedAppend(s.days, today, bytes, horizon);
      assert Archived(t.days, horizon) == a + bytes;
      AppendKeeps(a, bytes, s.live, s.buf);
      assert a + bytes + "" + s.buf == a + bytes + s.buf;
    }
  }

  lemma BlindRotationEmpties(s: LogState, today: nat, io: IO, horizon: nat)
    requires Valid(s, today) && today < horizon && BlindIO(io)
    ensures Stream(Rotated(s, today, io).0, horizon) == Archived(s.days, horizon) + s.buf
  {
    ArchivedAppend(s.days, today, "", horizon);
    var a := Archived(s.days, horizon);
    assert a + "" == a;
  }

  lemma AppendKeeps(a: string, bytes: string, live: string, buf: string)
    ensures Sub(a + live + buf, a + bytes + live + buf)
  {
    SubInsert(a, bytes, live + buf);
    assert a + (live + buf) == a + live + buf;
    assert a + bytes + (live + buf) == a + bytes + live + buf;
  }

  /** The flush rotates, and what it moves out of the live file is copied nowhere. */
  predicate Blind(opt: Options, s: LogState, io: IO) {
    s.buf != "" && s.fileOpen && |s.live + s.buf| >= opt.fileMaxSize && BlindIO(io)
  }

  lemma FlushKeeps(opt: Options, s: LogState, today: nat, io: IO, horizon: nat)
    requires Valid(s, today) && today < horizon
    ensures var f := Flushed(opt, s, today, io); var t := f.0;
            && Valid(t, today)
            && (!Blind(opt, s, io) ==> Sub(Stream(s, horizon), Stream(t, horizon)))
            && (Clean(io) ==> Stream(t, horizon) == Stream(s, horizon))
            && (f.1 ==> t.buf == "")
            && (Clean(io) && s.fileOpen ==> f.1)
  {
    var a := Archived(s.days, horizon);
    SubRefl(Stream(s, horizon));
    if s.buf != "" && s.fileOpen {
      if io.written.Some? {
        var k := Take(s.buf, io.written.value);
        SubInsert(a + s.live, k, s.buf);
        assert a + (s.live + k) + s.buf == a + s.live + k + s.buf;
      } else {
        var t := s.(live := s.live + s.buf, buf := "");
        assert Stream(t, horizon) == Stream(s, horizon);
        if |t.live| >= opt.fileMaxSize {
          RotationValid(t, today, io);
          if !BlindIO(io) {
            RotationKeeps(t, today, io, horizon);
          }
        }
      }
    }
  }

  /**
   A flush loses bytes exactly when it rotates, the seek back fails and the truncation happens:
   the archive is then empty, and so is the live file.
   */
  lemma FlushLosesIff(opt: Options, s: LogState, today: nat, io: IO, horizon: nat)
    requires Valid(s, today) && today < horizon
    ensures Sub(Stream(s, horizon), Stream(Flushed(opt, s, today, io).0, horizon)) <==> !Blind(opt, s, io)
  {
    FlushKeeps(opt, s, today, io, horizon);
    if Blind(opt, s, io) {
      var t := s.(live := s.live + s.buf, buf := "");
      BlindRotationEmpties(t, today, io, horizon);
      var after := Stream(Flushed(opt, s, today, io).0, horizon);
      assert |after| < |Stream(s, horizon)|;
      if Sub(Stream(s, horizon), after) {
        SubLength(Stream(s, horizon), after);
      }
    }
  }

  // ---- Runs ----

  /** A `late` write or close passed its closed check before the writer was closed. */
  datatype Event =
    | Written(p: string, today: nat, io: IO, late: bool)
    | FlushTick(today: nat, io: IO)
    | PruneTick(today: nat)
    | CloseCall(today: nat, late: bool)
    | RunClose(today: nat, io: IO)

  function Next(opt: Options, s: LogState, e: Event): LogState {
    match e
    case Written(p, today, io, late) => if s.closed && !late then s else Buffered(opt, s, p, today, io).0
    case FlushTick(today, io) => Flushed(opt, s, today, io).0
    case PruneTick(today) => Pruned(opt, s, today)
    case CloseCall(_, late) => if late then ClosedAnyway(s) else Closing(s)
    case RunClose(today, io) => Shut(opt, s, today, io)
  }

  /** The bytes an event makes the writer take on. */
  function Accepted(s: LogState, e: Event): string {
    if e.Written? && (!s.closed || e.late) then e.p else ""
  }

  /** Some flush of the event is blind. */
  predicate BlindEvent(opt: Options, s: LogState, e: Event) {
    match e
    case Written(p, _, io, late) =>
      (!s.closed || late) && |s.buf + p| >= opt.bufferSize && Blind(opt, s.(buf := s.buf + p), io)
    case FlushTick(_, io) => Blind(opt, s, io)
    case RunClose(_, io) => Blind(opt, s, io)
    case _ => false
  }

  predicate NeverBlind(opt: Options, s: LogState, events: seq<Event>)
    decreases events
  {
    events == [] || (!BlindEvent(opt, s, events[0]) && NeverBlind(opt, Next(opt, s, events[0]), events[1..]))
  }

  /** The bytes a pruning removes. */
  function Lost(opt: Options, s: LogState, e: Event, horizon: nat): string {
    if e.PruneTick? then Archived(s.days - Pruned(opt, s, e.today).days.Keys, horizon) else ""
  }

  function Run(opt: Options, s: LogState, events: seq<Event>): LogState
    decreases events
  {
    if events == [] then s else Run(opt, Next(opt, s, events[0]), events[1..])
  }

  function AllAccepted(opt: Options, s: LogState, events: seq<Event>): string
    decreases events
  {
    if events == [] then "" else Accepted(s, events[0]) + AllAccepted(opt, Next(opt, s, events[0]), events[1..])
  }

  function AllLost(opt: Options, s: LogState, events: seq<Event>, horizon: nat): string
    decreases events
  {
    if events == [] then ""
    else Lost(opt, s, events[0], horizon) + AllLost(opt, Next(opt, s, events[0]), events[1..], horizon)
  }

  /** Days do not go back, and all lie before the horizon. */
  predicate Ordered(from: nat, events: seq<Event>, horizon: nat)
    decreases events
  {
    from < horizon
    && (events == [] || (from <= events[0].today && Ordered(events[0].today, events[1..], horizon)))
  }

  predicate CleanEvent(e: Event) {
    match e
    case Written(_, _, io, _) => Clean(io)
    case FlushTick(_, io) => Clean(io)
    case RunClose(_, io) => Clean(io)
    case _ => true
  }

  /** Pruning takes whole days off the old end: what it removes comes before all it keeps. */
  lemma {:induction false} PruneSplits(opt: Options, days: map<nat, Dir>, today: nat, upto: nat)
    requires forall d | d in days :: d <= today
    ensures var kept := KeptDays(opt, days, today);
            Archived(days, upto) == Archived(days - kept.Keys, upto) + Archived(kept, upto)
  {
    var kept := KeptDays(opt, days, today);
    var gone := days - kept.Keys;
    if upto > 0 {
      var d := upto - 1;
      PruneSplits(opt, days, today, d);
      var a, b := Archived(gone, d), Archived(kept, d);
      var bytes := if d in days then DirBytes(days[d], |days[d]|) else "";
      assert Archived(days, upto) == a + b + bytes;
      if d in days && !Kept(opt, today, d) {
        NothingArchived(kept, d);
        NothingArchived(kept, upto);
        assert b == "" && Archived(kept, upto) == "";
        assert Archived(gone, upto) == a + bytes;
        assert a + "" + bytes == a + bytes + "";
      } else {
        assert Archived(gone, upto) == a + "" == a;
        assert Archived(kept, upto) == b + bytes;
        assert a + b + bytes == a + (b + bytes);
      }
    }
  }

  lemma {:induction false} NothingArchived(days: map<nat, Dir>, upto: nat)
    requires forall d | d in days :: d >= upto
    ensures Archived(days, upto) == ""
  {
    if upto > 0 { NothingArchived(days, upto - 1); }
  }

  /** `after` with `lost` in front holds all of `before` and `more`, exactly so if nothing failed. */
  predicate Holds(before: string, more: string, lost: string, after: string, clean: bool) {
    && Sub(before + more, lost + after)
    && (clean ==> lost + after == before + more)
  }

  lemma NothingLost(before: string, more: string, after: string, clean: bool)
    requires Sub(before + more, after) && (clean ==> after == before + more)
    ensures Holds(before, more, "", after, clean)
  {
    assert "" + after == after;
  }

  lemma HoldsInTurn(a: string, m1: string, l1: string, b: string, m2: string, l2: string, c: string, clean: bool)
    requires Holds(a, m1, l1, b, clean) && Holds(b, m2, l2, c, clean)
    ensures Holds(a, m1 + m2, l1 + l2, c, clean)
  {
    SubRefl(m2);
    SubRefl(l1);
    SubConcat(a + m1, l1 + b, m2, m2);
    SubConcat(l1, l1, b + m2, l2 + c);
    assert l1 + b + m2 == l1 + (b + m2);
    SubTransitive(a + m1 + m2, l1 + (b + m2), l1 + (l2 + c));
    assert a + m1 + m2 == a + (m1 + m2);
    assert l1 + (l2 + c) == l1 + l2 + c;
  }

  lemma WriteKeeps(opt: Options, s: LogState, p: string, today: nat, io: IO, horizon: nat)
    requires Valid(s, today) && today < horizon
    requires |s.buf + p| >= opt.bufferSize ==> !Blind(opt, s.(buf := s.buf + p), io)
    ensures Valid(Buffered(opt, s, p, today, io).0, today)
    ensures Holds(Stream(s, horizon), p, "", Stream(Buffered(opt, s, p, today, io).0, horizon), Clean(io))
  {
    var t := s.(buf := s.buf + p);
    assert Stream(t, horizon) == Stream(s, horizon) + p;
    SubRefl(Stream(t, horizon));
    FlushKeeps(opt, t, today, io, horizon);
    NothingLost(Stream(s, horizon), p, Stream(Buffered(opt, s, p, today, io).0, horizon), Clean(io));
  }

  lemma PruneKeeps(opt: Options, s: LogState, today: nat, horizon: nat)
    requires Valid(s, today)
    ensures var t := Pruned(opt, s, today);
            && Valid(t, today)
            && Archived(s.days - t.days.Keys, horizon) + Stream(t, horizon) == Stream(s, horizon)
  {
    var t := Pruned(opt, s, today);
    PruneSplits(opt, s.days, today, horizon);
    Reassociate(Archived(s.days - t.days.Keys, horizon), Archived(t.days, horizon), s.live, s.buf);
  }

  lemma Reassociate(a: string, b: string, c: string, d: string)
    ensures a + (b + c + d) == a + b + c + d
  {
  }

  /** Validity needs nothing of the file system. */
  lemma StepValid(opt: Options, s: LogState, e: Event)
    requires Valid(s, e.today)
    ensures Valid(Next(opt, s, e), e.today)
  {
    match e
    case Written(p, today, io, _) => FlushKeeps(opt, s.(buf := s.buf + p), today, io, today + 1);
    case FlushTick(today, io) => FlushKeeps(opt, s, today, io, today + 1);
    case RunClose(today, io) => FlushKeeps(opt, s, today, io, today + 1);
    case _ =>
  }

  lemma StepKeeps(opt: Options, s: LogState, e: Event, horizon: nat)
    requires Valid(s, e.today) && e.today < horizon && !BlindEvent(opt, s, e)
    ensures var t := Next(opt, s, e);
            && Valid(t, e.today)
            && Holds(Stream(s, horizon), Accepted(s, e), Lost(opt, s, e, horizon), Stream(t, horizon), CleanEvent(e))
  {
    var before, after := Stream(s, horizon), Stream(Next(opt, s, e), horizon);
    SubRefl(before);
    assert before + "" == before;
    match e
    case Written(p, today, io, late) =>
      if !s.closed || late {
        WriteKeeps(opt, s, p, today, io, horizon);
      } else {
        NothingLost(before, "", before, true);
      }
    case FlushTick(today, io) =>
      FlushKeeps(opt, s, today, io, horizon);
      NothingLost(before, "", after, Clean(io));
    case RunClose(today, io) =>
      FlushKeeps(opt, s, today, io, horizon);
      NothingLost(before, "", after, Clean(io));
    case PruneTick(today) =>
      PruneKeeps(opt, s, today, horizon);
    case CloseCall(_, _) =>
      NothingLost(before, "", before, true);
  }

  lemma {:induction false} RunKeeps(opt: Options, s: LogState, from: nat, events: seq<Event>, horizon: nat, clean: bool)
    requires Valid(s, from) && Ordered(from, events, horizon) && NeverBlind(opt, s, events)
    requires clean ==> forall e | e in events :: CleanEvent(e)
    ensures Holds(Stream(s, horizon), AllAccepted(opt, s, events),
                  AllLost(opt, s, events, horizon), Stream(Run(opt, s, events), horizon), clean)
    decreases events
  {
    var before := Stream(s, horizon);
    if events == [] {
      SubRefl(before);
      assert before + "" == before;
      NothingLost(before, "", before, clean);
    } else {
      var e, rest := events[0], events[1..];
      var t := Next(opt, s, e);
      assert e in events;
      assert forall x | x in rest :: x in events;
      StepKeeps(opt, s, e, horizon);
      RunKeeps(opt, t, e.today, rest, horizon, clean);
      HoldsInTurn(before, Accepted(s, e), Lost(opt, s, e, horizon), Stream(t, horizon),
                  AllAccepted(opt, t, rest), AllLost(opt, t, rest, horizon), Stream(Run(opt, t, rest), horizon), clean);
    }
  }

  /**
   Whatever else the file system does, in a run without a blind rotation every byte there was or
   that is accepted later survives, in order and at least once, in what pruning took off
   followed by archives, live file and buffer.
   */
  lemma AtLeastOnce(opt: Options, s: LogState, from: nat, events: seq<Event>, horizon: nat)
    requires Valid(s, from) && Ordered(from, events, horizon) && NeverBlind(opt, s, events)
    ensures Sub(Stream(s, horizon) + AllAccepted(opt, s, events),
                AllLost(opt, s, events, horizon) + Stream(Run(opt, s, events), horizon))
  {
    RunKeeps(opt, s, from, events, horizon, false);
  }

  lemma {:induction false} CleanIsNeverBlind(opt: Options, s: LogState, events: seq<Event>)
    requires forall e | e in events :: CleanEvent(e)
    ensures NeverBlind(opt, s, events)
    decreases events
  {
    if events != [] {
      assert events[0] in events && forall x | x in events[1..] :: x in events;
      CleanIsNeverBlind(opt, Next(opt, s, events[0]), events[1..]);
    }
  }

  /** Without failures every accepted byte is there exactly once and in order. */
  lemma Conservation(opt: Options, s: LogState, from: nat, events: seq<Event>, horizon: nat)
    requires Valid(s, from) && Ordered(from, events, horizon)
    requires forall e | e in events :: CleanEvent(e)
    ensures AllLost(opt, s, events, horizon) + Stream(Run(opt, s, events), horizon)
            == Stream(s, horizon) + AllAccepted(opt, s, events)
  {
    CleanIsNeverBlind(opt, s, events);
    RunKeeps(opt, s, from, events, horizon, true);
  }

  // ---- Closing ----

  /** A close that passed its check before the writer was closed, and runs after. */
  predicate ClosesTwice(s: LogState, e: Event) {
    e.CloseCall? && e.late && s.closed
  }

  predicate NoSecondClose(opt: Options, s: LogState, events: seq<Event>)
    decreases events
  {
    events == [] || (!ClosesTwice(s, events[0]) && NoSecondClose(opt, Next(opt, s, events[0]), events[1..]))
  }

  lemma StepCloses(opt: Options, s: LogState, e: Event)
    ensures var t := Next(opt, s, e);
            && t.closes == s.closes + (if e.CloseCall? && (!s.closed || e.late) then 1 else 0)
            && (t.closed <==> s.closed || e.CloseCall?)
  {
  }

  lemma {:induction false} ClosesNeverFall(opt: Options, s: LogState, events: seq<Event>)
    ensures s.closes <= Run(opt, s, events).closes
    decreases events
  {
    if events != [] {
      StepCloses(opt, s, events[0]);
      ClosesNeverFall(opt, Next(opt, s, events[0]), events[1..]);
    }
  }

  /** The channel is closed at most once exactly when no close that passed its check early comes late. */
  lemma {:induction false} ClosedOnceIff(opt: Options, s: LogState, events: seq<Event>)
    requires s.closes == if s.closed then 1 else 0
    ensures Run(opt, s, events).closes <= 1 <==> NoSecondClose(opt, s, events)
    decreases events
  {
    if events != [] {
      var t := Next(opt, s, events[0]);
      StepCloses(opt, s, events[0]);
      if ClosesTwice(s, events[0]) {
        ClosesNeverFall(opt, t, events[1..]);
      } else {
        ClosedOnceIff(opt, t, events[1..]);
      }
    }
  }

  // ---- Archives ----

  /** Every archive of `s` is still in `t` with the same bytes. */
  predicate ArchivesKept(s: LogState, t: LogState) {
    forall d, i | d in s.days && i in s.days[d] :: d in t.days && i in t.days[d] && t.days[d][i] == s.days[d][i]
  }

  lemma RotationKeepsArchives(s: LogState, today: nat, io: IO)
    requires Valid(s, today)
    ensures ArchivesKept(s, Rotated(s, today, io).0)
  {
    assert |DirOf(s.days, today)| !in DirOf(s.days, today);
  }

  lemma FlushKeepsArchives(opt: Options, s: LogState, today: nat, io: IO)
    requires Valid(s, today)
    ensures ArchivesKept(s, Flushed(opt, s, today, io).0)
  {
    RotationKeepsArchives(s.(live := s.live + s.buf, buf := ""), today, io);
  }

  /** No event but pruning touches an archive that exists, whatever fails. */
  lemma ArchivesAreNeverOverwritten(opt: Options, s: LogState, e: Event)
    requires Valid(s, e.today) && !e.PruneTick?
    ensures ArchivesKept(s, Next(opt, s, e))
  {
    match e
    case Written(p, today, io, _) => FlushKeepsArchives(opt, s.(buf := s.buf + p), today, io);
    case FlushTick(today, io) => FlushKeepsArchives(opt, s, today, io);
    case RunClose(today, io) => FlushKeepsArchives(opt, s, today, io);
    case CloseCall(_, _) =>
  }

  // ---- Every archive in the directory of its day ----

  /**
   An event other than pruning touches no directory but its own day's, and adds at most one archive
   there, under the next free index.
   */
  ghost predicate OnlyToday(s: LogState, t: LogState, today: nat) {
    && (forall d | d != today :: (d in t.days <==> d in s.days) && (d in s.days ==> t.days[d] == s.days[d]))
    && (today in s.days ==> today in t.days)
    && var before, after := DirOf(s.days, today), DirOf(t.days, today);
       after == before || (|before| in after && after == before[|before| := after[|before|]])
  }

  lemma RotationIsToday(s: LogState, today: nat, io: IO)
    ensures OnlyToday(s, Rotated(s, today, io).0, today)
  {
    var t, before := Rotated(s, today, io).0, DirOf(s.days, today);
    if io.statOk && io.createOk {
      assert DirOf(t.days, today) == before[|before| := t.days[today][|before|]];
    }
  }

  lemma FlushIsToday(opt: Options, s: LogState, today: nat, io: IO)
    ensures OnlyToday(s, Flushed(opt, s, today, io).0, today)
  {
    RotationIsToday(s.(live := s.live + s.buf, buf := ""), today, io);
  }

  lemma EventIsToday(opt: Options, s: LogState, e: Event)
    requires !e.PruneTick?
    ensures OnlyToday(s, Next(opt, s, e), e.today)
  {
    match e
    case Written(p, today, io, _) => FlushIsToday(opt, s.(buf := s.buf + p), today, io);
    case FlushTick(today, io) => FlushIsToday(opt, s, today, io);
    case RunClose(today, io) => FlushIsToday(opt, s, today, io);
    case CloseCall(_, _) =>
  }

  /** The archive `i` of day `d` holds these bytes. */
  predicate Holding(s: LogState, d: nat, i: nat, bytes: string) {
    d in s.days && i in s.days[d] && s.days[d][i] == bytes
  }

  /** Some pruning comes at a day for which `d` is no longer among the last days kept. */
  predicate PrunedAway(opt: Options, d: nat, events: seq<Event>) {
    exists e | e in events :: e.PruneTick? && d + opt.saveDays <= e.today
  }

  lemma StepHolding(opt: Options, s: LogState, e: Event, d: nat, i: nat, bytes: string)
    requires Valid(s, e.today) && Holding(s, d, i, bytes)
    ensures Holding(Next(opt, s, e), d, i, bytes) <==> !(e.PruneTick? && d + opt.saveDays <= e.today)
  {
    if !e.PruneTick? { ArchivesAreNeverOverwritten(opt, s, e); }
  }

  /** Once gone, an earlier day's directory does not come back. */
  lemma {:induction false} StaysAway(opt: Options, s: LogState, from: nat, events: seq<Event>, horizon: nat, d: nat)
    requires Ordered(from, events, horizon) && d < from && d !in s.days
    ensures d !in Run(opt, s, events).days
    decreases events
  {
    if events != [] {
      if !events[0].PruneTick? { EventIsToday(opt, s, events[0]); }
      StaysAway(opt, Next(opt, s, events[0]), events[0].today, events[1..], horizon, d);
    }
  }

  /**
   What is archived on a day stays as it is in that day's directory exactly until a pruning at a day
   for which it is no longer among the last days kept.
   */
  lemma {:induction false} ArchiveStaysUntilPruned(opt: Options, s: LogState, from: nat, events: seq<Event>, horizon: nat,
                                                   d: nat, i: nat, bytes: string)
    requires opt.saveDays > 0 && Valid(s, from) && Ordered(from, events, horizon) && Holding(s, d, i, bytes)
    ensures Holding(Run(opt, s, events), d, i, bytes) <==> !PrunedAway(opt, d, events)
    decreases events
  {
    if events != [] {
      var e, t := events[0], Next(opt, s, events[0]);
      assert events == [e] + events[1..];
      StepValid(opt, s, e);
      StepHolding(opt, s, e, d, i, bytes);
      if Holding(t, d, i, bytes) {
        ArchiveStaysUntilPruned(opt, t, e.today, events[1..], horizon, d, i, bytes);
      } else {
        assert e in events;
        StaysAway(opt, t, e.today, events[1..], horizon, d);
      }
    }
  }

  // ---- When a flush succeeds ----

  /** Everything that can go wrong with a flush and is reported: the seek and the truncation are not. */
  predicate FlushWorks(opt: Options, s: LogState, io: IO) {
    s.buf == ""
    || (s.fileOpen && io.written.None?
        && (|s.live| + |s.buf| < opt.fileMaxSize || (io.statOk && io.createOk && io.copied.None?)))
  }

  /** Exactly the reported failures fail a flush, and the run loop closes its file unless the last flush fails. */
  lemma FlushSucceedsIff(opt: Options, s: LogState, today: nat, io: IO)
    ensures Flushed(opt, s, today, io).1 <==> FlushWorks(opt, s, io)
    ensures Next(opt, s, RunClose(today, io)).fileOpen <==> s.fileOpen && !FlushWorks(opt, s, io)
  {
  }

  /** Below the buffer's size a line is only buffered. */
  lemma ShortIsBuffered(opt: Options, s: LogState, p: string, today: nat, io: IO, late: bool)
    requires !s.closed || late
    ensures |s.buf| + |p| < opt.bufferSize ==> Next(opt, s, Written(p, today, io, late)) == s.(buf := s.buf + p)
  {
  }

  // ---- Lines stay whole ----

  predicate FoundAt(text: string, p: string, i: int) {
    0 <= i <= |text| - |p| && text[i..i + |p|] == p
  }

  predicate Contains(text: string, p: string) {
    exists i | 0 <= i <= |text| :: FoundAt(text, p, i)
  }

  lemma ContainedInSum(a: string, p: string, b: string, text: string)
    requires text == a + p + b
    ensures Contains(text, p)
  {
    assert FoundAt(text, p, |a|);
  }

  lemma StaysContained(a: string, text: string, b: string, p: string)
    requires Contains(text, p)
    ensures Contains(a + text + b, p)
  {
    var i :| 0 <= i <= |text| && FoundAt(text, p, i);
    assert a + text + b == (a + text[..i]) + p + (text[i + |p|..] + b);
    ContainedInSum(a + text[..i], p, text[i + |p|..] + b, a + text + b);
  }

  predicate InArchive(s: LogState, p: string) {
    exists d, i | d in s.days && i in s.days[d] :: Contains(s.days[d][i], p)
  }

  /** The line is whole in one archive, in the live file or in the buffer. */
  predicate InOne(s: LogState, p: string) {
    InArchive(s, p) || Contains(s.live, p) || Contains(s.buf, p)
  }

  lemma ArchivesKeepLines(s: LogState, t: LogState, p: string)
    requires ArchivesKept(s, t) && InArchive(s, p)
    ensures InArchive(t, p)
  {
    var d, i :| d in s.days && i in s.days[d] && Contains(s.days[d][i], p);
    assert Contains(t.days[d][i], p);
  }

  lemma RotationKeepsLine(s: LogState, today: nat, io: IO, p: string)
    requires Valid(s, today) && io.written.None? && !BlindIO(io) && InOne(s, p)
    ensures InOne(Rotated(s, today, io).0, p)
  {
    var t := Rotated(s, today, io).0;
    RotationKeepsArchives(s, today, io);
    if InArchive(s, p) {
      ArchivesKeepLines(s, t, p);
    } else if Contains(s.live, p) && t.live != s.live {
      var n := |DirOf(s.days, today)|;
      assert today in t.days && n in t.days[today] && Contains(t.days[today][n], p);
    }
  }

  lemma FlushKeepsLine(opt: Options, s: LogState, today: nat, io: IO, p: string)
    requires Valid(s, today) && !Blind(opt, s, io) && InOne(s, p)
    ensures InOne(Flushed(opt, s, today, io).0, p)
  {
    if s.buf != "" && s.fileOpen {
      var k := if io.written.Some? then Take(s.buf, io.written.value) else s.buf;
      var t := s.(live := s.live + k, buf := if io.written.Some? then s.buf else "");
      assert s.live + k == "" + s.live + k;
      if Contains(s.live, p) { StaysContained("", s.live, k, p); }
      assert s.live + s.buf == s.live + s.buf + "";
      if Contains(s.buf, p) { StaysContained(s.live, s.buf, "", p); }
      if InArchive(s, p) { ArchivesKeepLines(s, t, p); }
      assert InOne(t, p);
      if io.written.None? && |t.live| >= opt.fileMaxSize {
        RotationKeepsLine(t, today, io, p);
      }
    }
  }

  /** The line is among those an event makes the writer take on. */
  predicate TakesOn(s: LogState, e: Event, p: string) {
    e.Written? && (!s.closed || e.late) && e.p == p
  }

  predicate TakesOnAny(opt: Options, s: LogState, events: seq<Event>, p: string)
    decreases events
  {
    events != [] && (TakesOn(s, events[0], p) || TakesOnAny(opt, Next(opt, s, events[0]), events[1..], p))
  }

  /** The archives that an event's pruning removes. */
  function Removed(opt: Options, s: LogState, e: Event): set<string> {
    if e.PruneTick? then set d, i | d in s.days && i in s.days[d] && !Kept(opt, e.today, d) :: s.days[d][i] else {}
  }

  function AllRemoved(opt: Options, s: LogState, events: seq<Event>): set<string>
    decreases events
  {
    if events == [] then {} else Removed(opt, s, events[0]) + AllRemoved(opt, Next(opt, s, events[0]), events[1..])
  }

  predicate InSome(texts: set<string>, p: string) {
    exists x | x in texts :: Contains(x, p)
  }

  lemma WriteKeepsLine(opt: Options, s: LogState, e: Event, p: string)
    requires Valid(s, e.today) && !BlindEvent(opt, s, e) && e.Written? && (!s.closed || e.late)
    requires InOne(s, p) || e.p == p
    ensures InOne(Next(opt, s, e), p)
  {
    var t := s.(buf := s.buf + e.p);
    assert s.buf + e.p == s.buf + e.p + "" && s.buf + e.p == "" + s.buf + e.p;
    if e.p == p { ContainedInSum(s.buf, e.p, "", t.buf); }
    if Contains(s.buf, p) { StaysContained("", s.buf, e.p, p); }
    if InArchive(s, p) { ArchivesKeepLines(s, t, p); }
    assert InOne(t, p);
    if |t.buf| >= opt.bufferSize { FlushKeepsLine(opt, t, e.today, e.io, p); }
  }

  lemma PruneKeepsLine(opt: Options, s: LogState, today: nat, p: string)
    requires InOne(s, p)
    ensures InOne(Pruned(opt, s, today), p) || InSome(Removed(opt, s, PruneTick(today)), p)
  {
    if d, i :| d in s.days && i in s.days[d] && Contains(s.days[d][i], p) {
      if Kept(opt, today, d) {
        assert d in Pruned(opt, s, today).days;
      } else {
        assert s.days[d][i] in Removed(opt, s, PruneTick(today));
      }
    }
  }

  lemma ShutKeepsLine(opt: Options, s: LogState, today: nat, io: IO, p: string)
    requires Valid(s, today) && !Blind(opt, s, io) && InOne(s, p)
    ensures InOne(Shut(opt, s, today, io), p)
  {
    FlushKeepsLine(opt, s, today, io, p);
    var f := Flushed(opt, s, today, io).0;
    if InArchive(f, p) { ArchivesKeepLines(f, Shut(opt, s, today, io), p); }
  }

  lemma StepKeepsLine(opt: Options, s: LogState, e: Event, p: string)
    requires Valid(s, e.today) && !BlindEvent(opt, s, e) && (InOne(s, p) || TakesOn(s, e, p))
    ensures InOne(Next(opt, s, e), p) || InSome(Removed(opt, s, e), p)
  {
    match e
    case Written(_, _, _, late) => if !s.closed || late { WriteKeepsLine(opt, s, e, p); }
    case FlushTick(today, io) => FlushKeepsLine(opt, s, today, io, p);
    case PruneTick(today) => PruneKeepsLine(opt, s, today, p);
    case CloseCall(_, _) =>
      if InArchive(s, p) { ArchivesKeepLines(s, Next(opt, s, e), p); }
    case RunClose(today, io) => ShutKeepsLine(opt, s, today, io, p);
  }

  /**
   In a run without a blind rotation every line taken on stays whole, whatever else fails: it is in
   one archive, in the live file or in the buffer, or in an archive that pruning removed.
   */
  lemma {:induction false} LinesStayWhole(opt: Options, s: LogState, from: nat, events: seq<Event>, horizon: nat, p: string)
    requires Valid(s, from) && Ordered(from, events, horizon) && NeverBlind(opt, s, events)
    requires InOne(s, p) || TakesOnAny(opt, s, events, p)
    ensures InOne(Run(opt, s, events), p) || InSome(AllRemoved(opt, s, events), p)
    decreases events
  {
    if events != [] {
      var e, t := events[0], Next(opt, s, events[0]);
      StepValid(opt, s, e);
      if InOne(s, p) || TakesOn(s, e, p) { StepKeepsLine(opt, s, e, p); }
      if InSome(Removed(opt, s, e), p) {
        var x :| x in Removed(opt, s, e) && Contains(x, p);
        assert x in AllRemoved(opt, s, events);
      } else {
        LinesStayWhole(opt, t, e.today, events[1..], horizon, p);
        if x :| x in AllRemoved(opt, t, events[1..]) && Contains(x, p) {
          assert x in AllRemoved(opt, s, events);
        }
      }
    }
  }

  // ---- Names and sizes ----

  /** The numbered name of an archive, zero-padded to six digits. */
  function ArchiveName(index: nat, ext: string): string {
    Padded(NatText(index), 6) + ext
  }

  lemma ArchiveNamesDistinct(i: nat, j: nat, ext: string)
    requires ArchiveName(i, ext) == ArchiveName(j, ext)
    ensures i == j
  {
    var a, b := Padded(NatText(i), 6), Padded(NatText(j), 6);
    assert |a + ext| == |b + ext|;
    assert (a + ext)[..|a|] == a && (b + ext)[..|a|] == b;
    ValueOfPadded(NatText(i), 6);
    ValueOfPadded(NatText(j), 6);
    ValueOfNatText(i);
    ValueOfNatText(j);
  }

  /** The live file is below its limit and the buffer below its own. */
  predicate Small(opt: Options, s: LogState) {
    |s.live| < opt.fileMaxSize && (s.buf == "" || |s.buf| < opt.bufferSize)
  }

  predicate SizedTo(opt: Options, longest: nat, bytes: string) {
    opt.fileMaxSize <= |bytes| < opt.fileMaxSize + (if opt.bufferSize > 0 then opt.bufferSize else 0) + longest
  }

  predicate AllSized(opt: Options, s: LogState, longest: nat) {
    forall d, i | d in s.days && i in s.days[d] :: SizedTo(opt, longest, s.days[d][i])
  }

  lemma StepKeepsSizes(opt: Options, s: LogState, e: Event, longest: nat)
    requires (s.fileOpen ==> Small(opt, s)) && AllSized(opt, s, longest) && CleanEvent(e)
    requires e.Written? ==> |e.p| <= longest
    ensures var t := Next(opt, s, e); (t.fileOpen ==> Small(opt, t)) && AllSized(opt, t, longest)
  {
  }

  /** Without failures every archive is at least the limit long, and over it by less than a buffer and one write. */
  lemma {:induction false} ArchivesAreSized(opt: Options, s: LogState, events: seq<Event>, longest: nat)
    requires (s.fileOpen ==> Small(opt, s)) && AllSized(opt, s, longest)
    requires forall e | e in events :: CleanEvent(e) && (e.Written? ==> |e.p| <= longest)
    ensures AllSized(opt, Run(opt, s, events), longest)
    decreases events
  {
    if events != [] {
      assert events[0] in events;
      assert forall x | x in events[1..] :: x in events;
      StepKeepsSizes(opt, s, events[0], longest);
      ArchivesAreSized(opt, Next(opt, s, events[0]), events[1..], longest);
    }
  }
}
