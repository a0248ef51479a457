/** The life of one scheduler job: src/scheduler-job/scheduler-job.base.ts and scheduler-job.service.ts. */
module JobLifecycle {
  import opened Arrays
  import opened ErrorClasses

  /** The job's row; `cron` is the name of a cron expression. */
  datatype Row = Row(process: bool, status: bool, error: bool, cron: nat)

  /** Database row, and the job object of the running application: its cron, whether it is in the registry,
      whether its timer runs. */
  datatype Job = Job(row: Option<Row>, cron: nat, registered: bool, ticking: bool)

  const EVERY_SECOND: nat := 0

  /** How `run` ends: by returning, by an exception its own handler has classified, or by a plain error that
      no handler saw (a read before its `try`, a rollback that fails). */
  datatype Work = Succeeds | Throws(e: Exception) | Escapes

  /** What the outside does to one tick: which database writes fail, whether the cron name is valid. */
  datatype World = World(
    readFails: bool, validCron: nat -> bool, markFails: bool, work: Work, unmarkFails: bool,
    firstCatchWriteFails: bool, secondCatchWriteFails: bool)

  /** NotStarted: `checkState` said no. EscapedError: the tick itself rejected. */
  datatype End = NotStarted | Finished | NormalException | FatalException | EscapedError

  predicate MayStart(j: Job) {
    j.row.Some? && !j.row.value.process && j.cron == j.row.value.cron
  }

  function SetRow(j: Job, f: Row -> Row): Job {
    if j.row.Some? then j.(row := Some(f(j.row.value))) else j
  }

  /** `checkState` when it answers no. */
  function Checked(j: Job, w: World): Job {
    if j.row.None? then j.(registered := false, ticking := false)
    else if j.row.value.process then j
    else if j.cron != j.row.value.cron && w.validCron(j.row.value.cron) then j.(cron := j.row.value.cron)
    else j
  }

  /** The state after one whole tick, and how the tick ended. */
  function Tick(j: Job, w: World): (Job, End) {
    if w.readFails then (j, EscapedError)
    else if !MayStart(j) then (Checked(j, w), NotStarted)
    else if w.markFails then (j, EscapedError)
    else
      var running := SetRow(j, (r: Row) => r.(process := true));
      match w.work
      case Succeeds =>
        if w.unmarkFails then (running, EscapedError) else (SetRow(running, (r: Row) => r.(process := false)), Finished)
      case Escapes => (running, EscapedError)
      case Throws(e) =>
        if e.level == Fatal then
          var off := running.(registered := false, ticking := false);
          if w.firstCatchWriteFails then (off, EscapedError)
          else
            var inactive := SetRow(off, (r: Row) => r.(status := false));
            if w.secondCatchWriteFails then (inactive, EscapedError)
            else (SetRow(inactive, (r: Row) => r.(error := true)), FatalException)
        else
          if w.firstCatchWriteFails then (running, EscapedError)
          else
            var active := SetRow(running, (r: Row) => r.(status := true));
            if w.secondCatchWriteFails then (active, EscapedError)
            else (SetRow(active, (r: Row) => r.(process := false)), NormalException)
  }

  class SchedulerJob {
    var row: Option<Row>
    var cron: nat
    var registered: bool
    var ticking: bool

    function State(): Job
      reads this
    {
      Job(row, cron, registered, ticking)
    }

    /** `checkState`. */
    method CheckState(w: World) returns (doJob: bool)
      modifies this
      ensures doJob == MayStart(old(State()))
      ensures State() == if doJob then old(State()) else Checked(old(State()), w)
    {
      if row.None? {
        registered, ticking := false, false;
        return false;
      }
      if row.value.process {
        return false;
      }
      if cron != row.value.cron {
        if w.validCron(row.value.cron) {
          cron := row.value.cron;
        }
        return false;
      }
      return true;
    }

    /** `processWork`, one tick from its first read to its last write. */
    method ProcessWork(w: World) returns (end: End)
      modifies this
      ensures (State(), end) == Tick(old(State()), w)
    {
      if w.readFails {
        return EscapedError;
      }
      var doJob := CheckState(w);
      if !doJob {
        return NotStarted;
      }
      if w.markFails {
        return EscapedError;
      }
      row := Some(row.value.(process := true));
      match w.work
      case Succeeds =>
        if w.unmarkFails {
          return EscapedError;
        }
        row := Some(row.value.(process := false));
        return Finished;
      case Escapes =>
        // the catch block classifies the error by throwing again
        return EscapedError;
      case Throws(e) =>
        if e.level == Fatal {
          registered, ticking := false, false;
          if w.firstCatchWriteFails {
            return EscapedError;
          }
          row := Some(row.value.(status := false));
          if w.secondCatchWriteFails {
            return EscapedError;
          }
          row := Some(row.value.(error := true));
          return FatalException;
        } else {
          if w.firstCatchWriteFails {
            return EscapedError;
          }
          row := Some(row.value.(status := true));
          if w.secondCatchWriteFails {
            return EscapedError;
          }
          row := Some(row.value.(process := false));
          return NormalException;
        }
    }

    /** A new application: the constructor puts the job into the registry, `SchedulerJobService.start` clears
        every `process` flag and starts the timers of the active jobs it knows. */
    method Restart(s: Starting)
      modifies this
      ensures State() == Started(old(State()), s)
    {
      cron := EVERY_SECOND;
      registered, ticking := s.known, false;
      if row.None? || s.clearFails {
        return;
      }
      var wasActive := row.value.status;
      row := Some(row.value.(process := false));
      if wasActive {
        if s.known {
          ticking := true;
        } else if !s.statusFails {
          row := Some(row.value.(status := false));
        }
      }
    }
  }

  /** One start: whether the application has the job, and which of its database accesses fail, the read of the
      active jobs counting as the first. */
  datatype Starting = Starting(known: bool, clearFails: bool, statusFails: bool)

  function Started(j: Job, s: Starting): Job {
    if s.clearFails then Job(j.row, EVERY_SECOND, s.known, false)
    else
      var cleared := SetRow(j, (r: Row) => r.(process := false, status := r.status && (s.known || s.statusFails)));
      Job(cleared.row, EVERY_SECOND, s.known, s.known && j.row.Some? && j.row.value.status)
  }

  /** The row after each write of a tick that passed its check. */
  function RowsWritten(r: Row, w: World): seq<Row> {
    if w.markFails then []
    else
      var marked := r.(process := true);
      match w.work
      case Succeeds => if w.unmarkFails then [marked] else [marked, marked.(process := false)]
      case Escapes => [marked]
      case Throws(e) =>
        if w.firstCatchWriteFails then [marked]
        else
          var second := marked.(status := e.level == Normal);
          var third := if e.level == Fatal then second.(error := true) else second.(process := false);
          if w.secondCatchWriteFails then [marked, second] else [marked, second, third]
  }

  /** A whole tick leaves the row of its last write. */
  lemma TickEndsWithLastWrite(j: Job, w: World)
    requires MayStart(j) && !w.readFails
    ensures var rows := RowsWritten(j.row.value, w);
            Tick(j, w).0.row == if rows == [] then j.row else Some(rows[|rows| - 1])
  {
  }

  // ---------- runs of events, ticks one after the other ----------

  /** A crash stops the application, in the middle of a tick after any number of its writes. */
  datatype Event = ATick(w: World) | Crash(w: World, writes: nat) | Start(s: Starting)

  function Step(j: Job, e: Event): Job {
    match e
    case ATick(w) => if j.ticking then Tick(j, w).0 else j
    case Crash(w, writes) =>
      var dead := j.(registered := false, ticking := false);
      if j.ticking && MayStart(j) && !w.readFails then
        var rows := RowsWritten(j.row.value, w);
        var n := if writes < |rows| then writes else |rows|;
        if n == 0 then dead else dead.(row := Some(rows[n - 1]))
      else dead
    case Start(s) => Started(j, s)
  }

  function After(j: Job, events: seq<Event>): Job {
    if events == [] then j else Step(After(j, events[..|events| - 1]), events[|events| - 1])
  }

  predicate Processing(j: Job) { j.row.Some? && j.row.value.process }

  /** What must go wrong outside for a tick that begins to leave the flag set: an error nobody classifies, a Fatal
      exception, or a write that fails after the work. */
  predicate GoesWrong(w: World) {
    match w.work
    case Succeeds => w.unmarkFails
    case Throws(e) => e.level == Fatal || w.firstCatchWriteFails || w.secondCatchWriteFails
    case Escapes => true
  }

  /** The events that leave the flag set: a tick that begins and goes wrong, and a crash in one after its first
      write, unless it was to clear the flag and has. */
  predicate Sticks(j: Job, e: Event) {
    match e
    case ATick(w) => j.ticking && MayStart(j) && !w.readFails && !w.markFails && GoesWrong(w)
    case Crash(w, writes) =>
      && j.ticking && MayStart(j) && !w.readFails && !w.markFails
      && writes > 0 && (GoesWrong(w) || writes < if w.work.Succeeds? then 2 else 3)
    case Start(_) => false
  }

  /** Success and Normal exceptions always return to `process=false`. */
  lemma FinishedTicksClearTheFlag(j: Job, w: World)
    ensures Tick(j, w).1 in {Finished, NormalException} ==> Tick(j, w).0.row.Some? && !Processing(Tick(j, w).0)
    ensures Tick(j, w).1 == NormalException ==> Tick(j, w).0.row.value.status
    ensures Tick(j, w).1 == FatalException ==>
              Processing(Tick(j, w).0) && !Tick(j, w).0.ticking
              && !Tick(j, w).0.row.value.status && Tick(j, w).0.row.value.error
  {
  }

  /** Between ticks the flag is set only because some event, which no later start cleared, made it stick. */
  lemma {:induction false} FlagHasACause(j: Job, events: seq<Event>) returns (i: nat)
    requires !Processing(j) && Processing(After(j, events))
    ensures i < |events| && Sticks(After(j, events[..i]), events[i])
    ensures forall k :: i < k < |events| ==> !Clears(events[k])
  {
    i := |events| - 1;
    var before := After(j, events[..i]);
    if Processing(before) {
      NotByStart(before, events[i]);
      var init := events[..i];
      hide Step, Sticks;
      i := FlagHasACause(j, init);
      assert init[..i] == events[..i];
      assert forall k :: 0 <= k < |init| ==> init[k] == events[k];
    } else {
      FlagSetExactly(before, events[i]);
    }
  }

  predicate Clears(e: Event) { e.Start? && !e.s.clearFails }

  lemma NotByStart(j: Job, e: Event)
    requires Processing(Step(j, e))
    ensures !Clears(e)
  {
  }

  lemma FlagSetExactly(j: Job, e: Event)
    requires !Processing(j)
    ensures Processing(Step(j, e)) <==> Sticks(j, e)
  {
  }

  /** While the flag is set no tick starts work, and only `start` clears it. */
  lemma {:induction false} StuckUntilStart(j: Job, events: seq<Event>)
    requires Processing(j) && forall k :: 0 <= k < |events| ==> !Clears(events[k])
    ensures Processing(After(j, events))
    ensures forall k :: 0 <= k < |events| && events[k].ATick? ==>
                          !MayStart(After(j, events[..k]))
                          && Tick(After(j, events[..k]), events[k].w).1 in {NotStarted, EscapedError}
                          && Tick(After(j, events[..k]), events[k].w).0.row == After(j, events[..k]).row
  {
    if events != [] {
      var n := |events| - 1;
      StuckUntilStart(j, events[..n]);
      forall k | 0 <= k < n && events[k].ATick?
        ensures !MayStart(After(j, events[..k]))
                && Tick(After(j, events[..k]), events[k].w).1 in {NotStarted, EscapedError}
                && Tick(After(j, events[..k]), events[k].w).0.row == After(j, events[..k]).row
      {
        assert events[..n][..k] == events[..k] && events[..n][k] == events[k];
      }
    }
  }

  /** An event after which no start has cleared the flag, and which made the flag stick. */
  ghost predicate StuckSince(j: Job, events: seq<Event>, i: nat) {
    && i < |events| && Sticks(After(j, events[..i]), events[i])
    && forall k :: i < k < |events| ==> !Clears(events[k])
  }

  /** Over any sequence of ticks, crashes and starts the flag is set at the end iff some event since the last
      start that cleared it made it stick. */
  lemma FlagSetIff(j: Job, events: seq<Event>)
    requires !Processing(j)
    ensures Processing(After(j, events)) <==> exists i: nat :: StuckSince(j, events, i)
  {
    hide Step, Sticks;
    if Processing(After(j, events)) {
      var i := FlagHasACause(j, events);
      assert StuckSince(j, events, i);
    }
    if i: nat :| StuckSince(j, events, i) {
      var before, rest := After(j, events[..i + 1]), events[i + 1..];
      assert events[..i + 1][..i] == events[..i];
      AfterAppend(j, events[..i + 1], rest);
      assert events[..i + 1] + rest == events;
      StickSets(After(j, events[..i]), events[i]);
      StuckUntilStart(before, rest);
    }
  }

  lemma StickSets(j: Job, e: Event)
    requires Sticks(j, e)
    ensures Processing(Step(j, e))
  {
  }

  lemma {:induction false} AfterAppend(j: Job, a: seq<Event>, b: seq<Event>)
    ensures After(j, a + b) == After(After(j, a), b)
  {
    if b == [] {
      assert a + b == a;
    } else {
      var n := |b| - 1;
      AfterAppend(j, a, b[..n]);
      assert (a + b)[..|a + b| - 1] == a + b[..n];
    }
  }

  /** A run whose rollback fails, on a fresh active job: the flag stays, and later ticks do nothing. */
  lemma EscapedErrorSticks()
    ensures var row := Row(false, true, false, EVERY_SECOND);
            var j := Job(Some(row), EVERY_SECOND, true, true);
            var fine := World(false, (cron: nat) => true, false, Succeeds, false, false, false);
            var bad := fine.(work := Escapes);
            && !Processing(After(j, [ATick(fine)]))
            && Processing(After(j, [ATick(bad)]))
            && After(j, [ATick(bad), ATick(fine)]) == After(j, [ATick(bad)])
            && !Processing(After(j, [ATick(bad), ATick(fine), Start(Starting(true, false, false))]))
  {
    var row := Row(false, true, false, EVERY_SECOND);
    var j := Job(Some(row), EVERY_SECOND, true, true);
    var fine := World(false, (cron: nat) => true, false, Succeeds, false, false, false);
    var bad := fine.(work := Escapes);
    AfterAppend(j, [], [ATick(fine)]);
    AfterAppend(j, [], [ATick(bad)]);
    AfterAppend(j, [ATick(bad)], [ATick(fine)]);
    assert [ATick(bad)] + [ATick(fine)] == [ATick(bad), ATick(fine)];
    var start := Starting(true, false, false);
    assert [ATick(bad), ATick(fine), Start(start)][..2] == [ATick(bad), ATick(fine)];
    FinishedTicksClearTheFlag(j, fine);
    StartClears(After(j, [ATick(bad), ATick(fine)]), start);
  }

  /** A `start` that can write clears the flag; a job that was active and is known ticks again. A job that a fatal
      exception switched off is cleared too, but does not tick until its status is set by hand. */
  lemma StartClears(j: Job, s: Starting)
    requires !s.clearFails
    ensures !Processing(Step(j, Start(s)))
    ensures Step(j, Start(s)).ticking <==> s.known && j.row.Some? && j.row.value.status
  {
  }

  /** What a tick leaves in a row it may work on, ending by ending: success the row as it was, a Normal exception an
      active one, a Fatal exception a marked, inactive one in error, and a job out of the registry. */
  lemma EndingsExactly(j: Job, w: World)
    requires MayStart(j)
    ensures var (after, end) := Tick(j, w);
            var row := j.row.value;
            && after.cron == j.cron
            && (end == Finished ==> after == j)
            && (end == NormalException ==> after == j.(row := Some(row.(status := true))))
            && (end == FatalException ==>
                  after == j.(row := Some(Row(true, false, true, row.cron)), registered := false, ticking := false))
            && (end == Finished <==>
                  !w.readFails && !w.markFails && w.work == Succeeds && !w.unmarkFails)
            && (end == NormalException || end == FatalException <==>
                  !w.readFails && !w.markFails && w.work.Throws? && !w.firstCatchWriteFails && !w.secondCatchWriteFails)
            && (end == FatalException ==> w.work.e.level == Fatal)
            && (end == NormalException ==> w.work.e.level == Normal)
  {
  }

  /** A job whose cron was changed in the database does not work in that tick, and in the next one works iff the new
      cron has a valid name: then, and only then, the tick has adopted it. A marked or missing row stays as it is. */
  lemma ChangedCronIsAdopted(j: Job, w: World)
    requires !MayStart(j) && !w.readFails
    ensures var (after, end) := Tick(j, w);
            && end == NotStarted && after.row == j.row
            && (j.row.None? ==> after == Job(None, j.cron, false, false))
            && (j.row.Some? && j.row.value.process ==> after == j)
            && (j.row.Some? && !j.row.value.process ==>
                  && (MayStart(after) <==> w.validCron(j.row.value.cron))
                  && after.cron == (if w.validCron(j.row.value.cron) then j.row.value.cron else j.cron)
                  && after.registered == j.registered && after.ticking == j.ticking)
  {
  }

  /** A start that meets no failure: the flag is cleared, a job the application does not know is switched off, an active
      one it knows ticks, at the cron every job begins with; nothing else in the row changes. */
  lemma StartedExactly(row: Row, cron: nat, registered: bool, ticking: bool, known: bool)
    ensures Started(Job(Some(row), cron, registered, ticking), Starting(known, false, false))
         == Job(Some(Row(false, if known then row.status else false, row.error, row.cron)),
                0, known, if known then row.status else false)
  {
  }

  // ---------- overlapping ticks ----------

  /** The two awaited accesses between which another tick can come: the read `checkState` judges, and the write that
      marks the row. A tick that has not passed its check writes nothing. */
  datatype TickStep = Check(t: nat) | Mark(t: nat)

  /** The job, the ticks that have passed their check, and those that have marked the row and work. */
  datatype Ticking = Ticking(job: Job, passed: set<nat>, working: set<nat>)

  function TickStepped(s: Ticking, e: TickStep): Ticking {
    match e
    case Check(t) => if MayStart(s.job) then s.(passed := s.passed + {t}) else s
    case Mark(t) =>
      if t in s.passed
      then s.(job := SetRow(s.job, (r: Row) => r.(process := true)), working := s.working + {t}) else s
  }

  function TicksDone(j: Job, steps: seq<TickStep>): Ticking {
    if steps == [] then Ticking(j, {}, {})
    else TickStepped(TicksDone(j, steps[..|steps| - 1]), steps[|steps| - 1])
  }

  /** A tick marks the row only after it has checked it. */
  ghost predicate InOrder(steps: seq<TickStep>) {
    forall m :: 0 <= m < |steps| && steps[m].Mark? ==> Check(steps[m].t) in steps[..m]
  }

  /** The tick checks the row before any tick marks it. */
  ghost predicate ChecksEarly(steps: seq<TickStep>, t: nat) {
    exists c :: 0 <= c < |steps| && steps[c] == Check(t) && NoMarkBefore(steps, c)
  }

  predicate NoMarkBefore(steps: seq<TickStep>, c: nat)
    requires c <= |steps|
  {
    forall k :: 0 <= k < c ==> steps[k].Check?
  }

  /** Which ticks start work, for any number of ticks and any interleaving: if the job may start at all, exactly
      those that check the row before the first mark, and mark it. So two ticks both work iff both check before
      either marks. */
  lemma {:induction false} WorksExactly(j: Job, steps: seq<TickStep>, t: nat)
    requires InOrder(steps)
    ensures t in TicksDone(j, steps).working <==> MayStart(j) && Mark(t) in steps && ChecksEarly(steps, t)
    ensures t in TicksDone(j, steps).passed <==> MayStart(j) && ChecksEarly(steps, t)
    ensures MayStart(TicksDone(j, steps).job) <==> MayStart(j) && NoMarkBefore(steps, |steps|)
    ensures !MayStart(j) ==> TicksDone(j, steps).job == j
  {
    hide InOrder, ChecksEarly, NoMarkBefore;
    if steps == [] {
      NothingYet(t);
    } else {
      var n := |steps| - 1;
      var init, last := steps[..n], steps[n];
      assert steps == init + [last];
      InOrderBefore(steps);
      WorksExactly(j, init, t);
      WorksExactly(j, init, last.t);
      EarlyBefore(init, last, t);
      LastStep(init, last);
      NoMarkMeansNone(init, t);
    }
  }

  lemma NoMarkMeansNone(steps: seq<TickStep>, t: nat)
    ensures NoMarkBefore(steps, |steps|) ==> Mark(t) !in steps
  {
  }

  lemma NothingYet(t: nat)
    ensures !ChecksEarly([], t) && NoMarkBefore([], 0)
  {
  }

  lemma LastStep(init: seq<TickStep>, last: TickStep)
    requires InOrder(init + [last])
    ensures last.Mark? && NoMarkBefore(init, |init|) ==> ChecksEarly(init, last.t)
    ensures NoMarkBefore(init + [last], |init| + 1) <==> NoMarkBefore(init, |init|) && last.Check?
  {
    var steps, n := init + [last], |init|;
    assert steps[n] == last && steps[..n] == init;
    if last.Mark? && NoMarkBefore(init, n) {
      var c :| 0 <= c < n && init[c] == Check(last.t);
      assert NoMarkBefore(init, c);
    }
    SamePrefix(init, steps, n);
    assert NoMarkBefore(steps, n + 1) <==> NoMarkBefore(steps, n) && last.Check?;
  }

  lemma InOrderBefore(steps: seq<TickStep>)
    requires InOrder(steps) && steps != []
    ensures InOrder(steps[..|steps| - 1])
  {
    var init := steps[..|steps| - 1];
    forall m | 0 <= m < |init| && init[m].Mark?
      ensures Check(init[m].t) in init[..m]
    {
      assert steps[m] == init[m] && steps[..m] == init[..m];
    }
  }

  lemma EarlyBefore(init: seq<TickStep>, last: TickStep, t: nat)
    ensures ChecksEarly(init + [last], t) <==>
            ChecksEarly(init, t) || (last == Check(t) && NoMarkBefore(init, |init|))
  {
    var steps := init + [last];
    forall c: nat | c <= |init|
      ensures NoMarkBefore(steps, c) <==> NoMarkBefore(init, c)
    {
      SamePrefix(init, steps, c);
    }
    hide NoMarkBefore;
    if c :| 0 <= c < |steps| && steps[c] == Check(t) && NoMarkBefore(steps, c) {
      if c < |init| {
        assert init[c] == Check(t) && NoMarkBefore(init, c);
      } else {
        assert NoMarkBefore(init, |init|);
      }
    }
    if c :| 0 <= c < |init| && init[c] == Check(t) && NoMarkBefore(init, c) {
      assert steps[c] == Check(t) && NoMarkBefore(steps, c);
    }
    if last == Check(t) && NoMarkBefore(init, |init|) {
      assert steps[|init|] == Check(t) && NoMarkBefore(steps, |init|);
    }
  }

  lemma SamePrefix(init: seq<TickStep>, steps: seq<TickStep>, c: nat)
    requires init <= steps && c <= |init|
    ensures NoMarkBefore(steps, c) <==> NoMarkBefore(init, c)
  {
    assert forall k :: 0 <= k < c ==> init[k] == steps[k];
    if NoMarkBefore(init, c) {
      forall k | 0 <= k < c
        ensures steps[k].Check?
      {
        assert init[k].Check?;
      }
    }
  }

  /** Two ticks of one job that both work, and the other order in which the second one does not. */
  lemma TicksCanOverlap(j: Job)
    requires MayStart(j)
    ensures TicksDone(j, [Check(0), Check(1), Mark(0), Mark(1)]).working == {0, 1}
    ensures TicksDone(j, [Check(0), Mark(0), Check(1), Mark(1)]).working == {0}
  {
    var c0, c1, m0, m1 := Check(0), Check(1), Mark(0), Mark(1);
    MoreTicks(j, [], c0);
    assert [] + [c0] == [c0] && [c0] + [c1] == [c0, c1] && [c0] + [m0] == [c0, m0];
    MoreTicks(j, [c0], c1);
    MoreTicks(j, [c0, c1], m0);
    assert [c0, c1] + [m0] == [c0, c1, m0] && [c0, c1, m0] + [m1] == [c0, c1, m0, m1];
    MoreTicks(j, [c0, c1, m0], m1);
    MoreTicks(j, [c0], m0);
    MoreTicks(j, [c0, m0], c1);
    assert [c0, m0] + [c1] == [c0, m0, c1] && [c0, m0, c1] + [m1] == [c0, m0, c1, m1];
    MoreTicks(j, [c0, m0, c1], m1);
  }

  lemma MoreTicks(j: Job, steps: seq<TickStep>, e: TickStep)
    ensures TicksDone(j, steps + [e]) == TickStepped(TicksDone(j, steps), e)
  {
    assert (steps + [e])[..|steps|] == steps;
  }
}
