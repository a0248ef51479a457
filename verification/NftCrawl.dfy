/** The NFT crawl of src/scheduler-job/template/nft.template.ts:70-125. The rows are written in a transaction, the
    cursor outside of it. A row stands for its token index: there is no unique key on it. */
module NftCrawl {
  import opened Arrays
  import opened CrawlWindow

  type Rows = multiset<nat>

  /** One row for each index from s to e. */
  function WindowRows(s: nat, e: nat): Rows
    requires s <= e
  {
    multiset(FillSequenceNumber(e - s, s))
  }

  lemma {:induction false} WindowCounts(s: nat, e: nat, i: nat)
    requires s <= e
    ensures WindowRows(s, e)[i] == if s <= i < e then 1 else 0
    decreases e
  {
    if s < e {
      WindowCounts(s, e - 1, i);
      assert FillSequenceNumber(e - s, s) == FillSequenceNumber(e - 1 - s, s) + [e - 1];
    } else {
      assert FillSequenceNumber(e - s, s) == [];
    }
  }

  // ---------- the transition system ----------

  type RunId = nat

  datatype Pc = Ticked | Windowed | RowsStaged | CursorWritten

  /** A run: what it has read, how many cursor writes had happened when it read the cursor, its window, and the
      number of its own cursor write. */
  datatype Run = Run(
    pc: Pc, length: Option<nat>, cursor: Option<nat>, readAt: nat, s: nat, e: nat, at: nat)

  /** A cursor write: the window of its run, how many writes came before the run read the cursor, and whether the
      rows of the window have been committed. */
  datatype Write = Write(s: nat, e: nat, readAt: nat, committed: bool)

  /** `log` holds every cursor write so far, in order. */
  datatype State = State(length: nat, rows: Rows, pid: nat, runs: map<RunId, Run>, log: seq<Write>)

  datatype Action =
    | Mint                                // the collection grows
    | Tick(r: RunId)
    | ReadLength(r: RunId, length: nat)   // a lagging node may answer an earlier length
    | ReadCursor(r: RunId)
    | Window(r: RunId)
    | Stage(r: RunId)                     // fetch, begin, stage one row per index
    | WriteCursor(r: RunId)               // committed at once
    | Commit(r: RunId)
    | Fail(r: RunId)                      // any failure, with rollback
    | Crash

  predicate At(st: State, r: RunId, pc: Pc) { r in st.runs && st.runs[r].pc == pc }

  predicate Enabled(st: State, a: Action) {
    match a
    case Mint => true
    case Tick(r) => r !in st.runs
    case ReadLength(r, length) => At(st, r, Ticked) && length <= st.length
    case ReadCursor(r) => At(st, r, Ticked)
    case Window(r) => At(st, r, Ticked) && st.runs[r].length.Some? && st.runs[r].cursor.Some?
    case Stage(r) => At(st, r, Windowed)
    case WriteCursor(r) => At(st, r, RowsStaged)
    case Commit(r) => At(st, r, CursorWritten) && st.runs[r].s <= st.runs[r].e && st.runs[r].at < |st.log|
    case Fail(r) => r in st.runs
    case Crash => true
  }

  function SetRun(st: State, r: RunId, run: Run): State { st.(runs := st.runs[r := run]) }

  function Drop(st: State, r: RunId): State { st.(runs := st.runs - {r}) }

  function Step(st: State, a: Action): State
    requires Enabled(st, a)
  {
    match a
    case Mint => st.(length := st.length + 1)
    case Tick(r) => SetRun(st, r, Run(Ticked, None, None, 0, 0, 0, 0))
    case ReadLength(r, length) => SetRun(st, r, st.runs[r].(length := Some(length)))
    case ReadCursor(r) => SetRun(st, r, st.runs[r].(cursor := Some(st.pid), readAt := |st.log|))
    case Window(r) =>
      var s, length := st.runs[r].cursor.value, st.runs[r].length.value;
      if s >= length then Drop(st, r)
      else SetRun(st, r, st.runs[r].(pc := Windowed, s := s, e := WindowEnd(s, length)))
    case Stage(r) => SetRun(st, r, st.runs[r].(pc := RowsStaged))
    case WriteCursor(r) =>
      var run := st.runs[r];
      SetRun(st, r, run.(pc := CursorWritten, at := |st.log|))
      .(pid := run.e, log := st.log + [Write(run.s, run.e, run.readAt, false)])
    case Commit(r) =>
      var run := st.runs[r];
      Drop(st, r).(rows := st.rows + WindowRows(run.s, run.e),
                   log := st.log[run.at := st.log[run.at].(committed := true)])
    case Fail(r) => Drop(st, r)
    case Crash => st.(runs := map[])
  }

  // ---------- the log of cursor writes ----------

  /** The cursor after the first n writes. */
  function CursorAt(start: nat, log: seq<Write>, n: nat): nat
    requires n <= |log|
  {
    if n == 0 then start else log[n - 1].e
  }

  predicate Covers(w: Write, i: nat) { w.s <= i < w.e }

  /** How many committed windows hold i. */
  function Copies(log: seq<Write>, i: nat): nat {
    if log == [] then 0
    else
      var last := log[|log| - 1];
      Copies(log[..|log| - 1], i) + if last.committed && Covers(last, i) then 1 else 0
  }

  ghost predicate LogOk(start: nat, log: seq<Write>, length: nat) {
    forall k :: 0 <= k < |log| ==> WriteOk(start, log, length, k)
  }

  predicate WriteOk(start: nat, log: seq<Write>, length: nat, k: nat)
    requires k < |log|
  {
    log[k].readAt <= k && log[k].s == CursorAt(start, log, log[k].readAt) < log[k].e <= length
  }

  /** What a write says stays true when the log grows, or rows are committed. */
  lemma LogKept(start: nat, log: seq<Write>, log': seq<Write>, length: nat)
    requires LogOk(start, log, length) && |log| <= |log'|
    requires forall k :: 0 <= k < |log| ==> log'[k] == log[k].(committed := log'[k].committed)
    ensures forall n: nat :: n <= |log| ==> CursorAt(start, log', n) == CursorAt(start, log, n)
    ensures forall k: nat :: k < |log| ==> WriteOk(start, log', length, k)
  {
    forall k: nat | k < |log|
      ensures WriteOk(start, log', length, k)
    {
      assert WriteOk(start, log, length, k);
    }
  }

  lemma {:induction false} CommitAddsCopy(log: seq<Write>, k: nat, i: nat)
    requires k < |log| && !log[k].committed
    ensures Copies(log[k := log[k].(committed := true)], i) == Copies(log, i) + if Covers(log[k], i) then 1 else 0
  {
    var n := |log| - 1;
    var log' := log[k := log[k].(committed := true)];
    if k < n {
      CommitAddsCopy(log[..n], k, i);
      assert log'[..n] == log[..n][k := log[..n][k].(committed := true)];
    } else {
      assert log'[..n] == log[..n];
    }
  }

  lemma WriteAddsNoCopy(log: seq<Write>, w: Write, i: nat)
    requires !w.committed
    ensures Copies(log + [w], i) == Copies(log, i)
  {
    assert (log + [w])[..|log|] == log;
  }

  predicate Holds(w: Write, i: nat) { w.committed && Covers(w, i) }

  lemma {:induction false} OneCopy(log: seq<Write>, i: nat)
    ensures Copies(log, i) >= 1 <==> exists k :: 0 <= k < |log| && Holds(log[k], i)
  {
    if log != [] {
      var n := |log| - 1;
      OneCopy(log[..n], i);
      assert forall k :: 0 <= k < n ==> log[..n][k] == log[k];
      if k :| 0 <= k < n && Holds(log[k], i) {
        assert Holds(log[..n][k], i);
      }
    }
  }

  lemma {:induction false} TwoCopies(log: seq<Write>, i: nat)
    ensures Copies(log, i) >= 2 <==> exists j, k :: 0 <= j < k < |log| && Holds(log[j], i) && Holds(log[k], i)
  {
    if log != [] {
      var n := |log| - 1;
      TwoCopies(log[..n], i);
      OneCopy(log[..n], i);
      assert forall k :: 0 <= k < n ==> log[..n][k] == log[k];
      if j, k :| 0 <= j < k < |log| && Holds(log[j], i) && Holds(log[k], i) {
        assert Holds(log[..n][j], i);
        if k < n {
          assert Holds(log[..n][k], i);
        }
      }
    }
  }

  // ---------- the invariant ----------

  ghost predicate RunOk(st: State, start: nat, run: Run) {
    && (run.length.Some? ==> run.length.value <= st.length)
    && (run.cursor.Some? ==> run.readAt <= |st.log| && run.cursor.value == CursorAt(start, st.log, run.readAt))
    && (run.pc != Ticked ==> run.cursor == Some(run.s) && run.s < run.e <= st.length)
    && (run.pc == CursorWritten ==> run.at < |st.log| && st.log[run.at] == Write(run.s, run.e, run.readAt, false))
  }

  ghost predicate Apart(st: State) {
    forall q, r :: q != r && At(st, q, CursorWritten) && At(st, r, CursorWritten) ==>
                     st.runs[q].at != st.runs[r].at
  }

  ghost predicate CountsOk(st: State, initial: Rows) {
    forall i: nat :: st.rows[i] == initial[i] + Copies(st.log, i)
  }

  ghost predicate Inv(st: State, initial: Rows, start: nat) {
    && st.pid == CursorAt(start, st.log, |st.log|)
    && LogOk(start, st.log, st.length)
    && CountsOk(st, initial)
    && Apart(st)
    && forall r :: r in st.runs ==> RunOk(st, start, st.runs[r])
  }

  lemma StepKeeps(st: State, initial: Rows, start: nat, a: Action)
    requires Inv(st, initial, start) && Enabled(st, a)
    ensures Inv(Step(st, a), initial, start)
  {
    StepKeepsCounts(st, initial, start, a);
    hide CountsOk, Copies;
    if a.Commit? {
      CommitKeepsRuns(st, initial, start, a.r);
    } else if a.WriteCursor? {
      WriteKeepsRuns(st, initial, start, a.r);
    } else {
      OtherStepKeepsRuns(st, initial, start, a);
    }
  }

  ghost predicate RunsOk(st: State, start: nat) {
    && st.pid == CursorAt(start, st.log, |st.log|)
    && LogOk(start, st.log, st.length)
    && Apart(st)
    && forall r :: r in st.runs ==> RunOk(st, start, st.runs[r])
  }

  lemma OtherStepKeepsRuns(st: State, initial: Rows, start: nat, a: Action)
    requires Inv(st, initial, start) && Enabled(st, a) && !a.Commit? && !a.WriteCursor?
    ensures RunsOk(Step(st, a), start)
  {
    hide CountsOk, Copies;
    forall k | 0 <= k < |st.log|
      ensures WriteOk(start, st.log, Step(st, a).length, k)
    {
      assert WriteOk(start, st.log, st.length, k);
    }
    hide WriteOk;
  }

  lemma WriteKeepsRuns(st: State, initial: Rows, start: nat, r: RunId)
    requires Inv(st, initial, start) && Enabled(st, WriteCursor(r))
    ensures RunsOk(Step(st, WriteCursor(r)), start)
  {
    hide CountsOk, Copies;
    var st' := Step(st, WriteCursor(r));
    assert RunOk(st, start, st.runs[r]);
    LogKept(start, st.log, st'.log, st.length);
    assert WriteOk(start, st'.log, st.length, |st.log|);
    hide CursorAt, WriteOk;
  }

  lemma CommitKeepsRuns(st: State, initial: Rows, start: nat, r: RunId)
    requires Inv(st, initial, start) && Enabled(st, Commit(r))
    ensures RunsOk(Step(st, Commit(r)), start)
  {
    hide CountsOk, Copies;
    var st' := Step(st, Commit(r));
    assert RunOk(st, start, st.runs[r]);
    LogKept(start, st.log, st'.log, st.length);
    hide CursorAt, WriteOk;
  }

  lemma StepKeepsCounts(st: State, initial: Rows, start: nat, a: Action)
    requires Inv(st, initial, start) && Enabled(st, a)
    ensures CountsOk(Step(st, a), initial)
  {
    var st' := Step(st, a);
    forall i: nat
      ensures st'.rows[i] == initial[i] + Copies(st'.log, i)
    {
      assert st.rows[i] == initial[i] + Copies(st.log, i);
      if a.WriteCursor? {
        WriteAddsNoCopy(st.log, st'.log[|st.log|], i);
      } else if a.Commit? {
        assert RunOk(st, start, st.runs[a.r]);
        CommitAddsCopy(st.log, st.runs[a.r].at, i);
        WindowCounts(st.runs[a.r].s, st.runs[a.r].e, i);
      }
    }
  }

  ghost predicate StepAt(states: seq<State>, n: nat)
    requires n < |states| - 1
  {
    Next(states[n], states[n + 1])
  }

  ghost predicate Next(st: State, st': State) {
    exists a :: Enabled(st, a) && Step(st, a) == st'
  }

  /** Any number of overlapping runs, failing and crashing anywhere. */
  ghost predicate Behaviour(states: seq<State>) {
    && states != [] && states[0].runs == map[] && states[0].log == []
    && forall n :: 0 <= n < |states| - 1 ==> StepAt(states, n)
  }

  lemma {:induction false} AlwaysInv(states: seq<State>, n: nat)
    requires Behaviour(states) && n < |states|
    ensures Inv(states[n], states[0].rows, states[0].pid)
  {
    if n > 0 {
      AlwaysInv(states, n - 1);
      assert StepAt(states, n - 1);
      var a :| Enabled(states[n - 1], a) && Step(states[n - 1], a) == states[n];
      hide Inv, Enabled, Step;
      StepKeeps(states[n - 1], states[0].rows, states[0].pid, a);
    }
  }

  // ---------- overlapping runs: when an index gets two rows ----------

  /** In every reachable state an index has one new row for each committed window that holds it. */
  lemma RowsCountWindows(states: seq<State>, n: nat, i: nat)
    requires Behaviour(states) && n < |states|
    ensures states[n].rows[i] == states[0].rows[i] + Copies(states[n].log, i)
    ensures states[n].rows[i] >= states[0].rows[i] + 2 <==>
            exists j, k :: 0 <= j < k < |states[n].log| && Holds(states[n].log[j], i) && Holds(states[n].log[k], i)
  {
    AlwaysInv(states, n);
    TwoCopies(states[n].log, i);
  }

  /** The run of write k read the cursor, after `readAt` writes, at a value inside the window of write j. */
  predicate ReadInside(start: nat, log: seq<Write>, j: nat, k: nat)
    requires j < |log| && k < |log| && log[k].readAt <= |log|
  {
    Covers(log[j], CursorAt(start, log, log[k].readAt))
  }

  /** Some index has two new rows iff of two runs with committed rows one read the cursor at a value inside the
      other's window. */
  lemma DuplicatesExactly(states: seq<State>, n: nat)
    requires Behaviour(states) && n < |states|
    ensures var st, start := states[n], states[0].pid;
            && (forall k :: 0 <= k < |st.log| ==> st.log[k].readAt <= k)
            && ((exists i :: st.rows[i] >= states[0].rows[i] + 2) <==>
                exists j, k :: 0 <= j < |st.log| && 0 <= k < |st.log| && j != k
                               && st.log[j].committed && st.log[k].committed && ReadInside(start, st.log, j, k))
  {
    var st, start := states[n], states[0].pid;
    AlwaysInv(states, n);
    hide Behaviour, RunOk, Apart;
    forall k | 0 <= k < |st.log|
      ensures st.log[k].readAt <= k
    {
      assert WriteOk(start, st.log, st.length, k);
    }
    if i :| st.rows[i] >= states[0].rows[i] + 2 {
      TwoCopies(st.log, i);
      var j, k :| 0 <= j < k < |st.log| && Holds(st.log[j], i) && Holds(st.log[k], i);
      assert WriteOk(start, st.log, st.length, j) && WriteOk(start, st.log, st.length, k);
      assert ReadInside(start, st.log, j, k) || ReadInside(start, st.log, k, j);
    }
    if j, k :| 0 <= j < |st.log| && 0 <= k < |st.log| && j != k
               && st.log[j].committed && st.log[k].committed && ReadInside(start, st.log, j, k) {
      var i := st.log[k].s;
      assert WriteOk(start, st.log, st.length, k);
      assert Holds(st.log[j], i) && Holds(st.log[k], i);
      TwoCopies(st.log, i);
      assert st.rows[i] >= states[0].rows[i] + 2;
    }
  }

  /** Another run wrote the cursor between this run's read of it and its own write. */
  predicate Stale(log: seq<Write>, k: nat)
    requires k < |log|
  {
    log[k].readAt < k
  }

  predicate Fresh(log: seq<Write>) {
    forall k :: 0 <= k < |log| ==> !Stale(log, k)
  }

  ghost predicate SharedIndex(log: seq<Write>, j: nat, k: nat)
    requires j < |log| && k < |log|
  {
    exists i :: Covers(log[j], i) && Covers(log[k], i)
  }

  /** The windows that were written overlap somewhere iff some cursor write was stale. */
  lemma OverlapIffStale(states: seq<State>, n: nat)
    requires Behaviour(states) && n < |states|
    ensures var log := states[n].log;
            (exists j, k :: 0 <= j < k < |log| && SharedIndex(log, j, k)) <==> !Fresh(log)
  {
    AlwaysInv(states, n);
    var log, start := states[n].log, states[0].pid;
    hide Behaviour, CountsOk, RunOk, Apart;
    if Fresh(log) {
      FreshWindowsTile(start, log, states[n].length);
    } else {
      var k0 :| 0 <= k0 < |log| && Stale(log, k0);
      var k := FirstStale(log, k0);
      var j := log[k].readAt;
      assert WriteOk(start, log, states[n].length, k) && WriteOk(start, log, states[n].length, j);
      assert !Stale(log, j);
      assert Covers(log[j], log[k].s) && Covers(log[k], log[k].s);
      assert SharedIndex(log, j, k);
    }
  }

  /** When all rows that were staged are committed, an index has two new rows iff some cursor write was stale;
      whatever is committed, without a stale write no index has. */
  lemma DuplicatesIffStale(states: seq<State>, n: nat)
    requires Behaviour(states) && n < |states|
    ensures var st := states[n];
            && (Fresh(st.log) ==> forall i :: st.rows[i] <= states[0].rows[i] + 1)
            && ((forall k :: 0 <= k < |st.log| ==> st.log[k].committed) ==>
                  (!Fresh(st.log) <==> exists i :: st.rows[i] >= states[0].rows[i] + 2))
  {
    var log := states[n].log;
    OverlapIffStale(states, n);
    forall i
      ensures states[n].rows[i] >= states[0].rows[i] + 2 ==> exists j, k :: 0 <= j < k < |log| && SharedIndex(log, j, k)
    {
      RowsCountWindows(states, n, i);
      if j, k :| 0 <= j < k < |log| && Holds(log[j], i) && Holds(log[k], i) {
        assert SharedIndex(log, j, k);
      }
    }
    if (forall k :: 0 <= k < |log| ==> log[k].committed) && !Fresh(log) {
      var j, k :| 0 <= j < k < |log| && SharedIndex(log, j, k);
      var i :| Covers(log[j], i) && Covers(log[k], i);
      assert Holds(log[j], i) && Holds(log[k], i);
      RowsCountWindows(states, n, i);
      assert states[n].rows[i] >= states[0].rows[i] + 2;
    }
  }

  lemma {:induction false} FirstStale(log: seq<Write>, k: nat) returns (first: nat)
    requires k < |log| && Stale(log, k)
    ensures first < |log| && Stale(log, first) && forall j :: 0 <= j < first ==> !Stale(log, j)
  {
    first := k;
    if j :| 0 <= j < k && Stale(log, j) {
      first := FirstStale(log, j);
    }
  }

  /** Windows written without a stale write lie one behind the other, from the first cursor on, without gap. */
  lemma FreshWindowsTile(start: nat, log: seq<Write>, length: nat)
    requires LogOk(start, log, length) && Fresh(log)
    ensures forall k :: 0 <= k < |log| ==> start <= log[k].s < log[k].e <= CursorAt(start, log, |log|)
    ensures forall j, k :: 0 <= j < k < |log| ==> log[j].e <= log[k].s
    ensures start <= CursorAt(start, log, |log|)
    ensures forall i :: start <= i < CursorAt(start, log, |log|) ==> CoveredBefore(log, |log|, i)
  {
    forall k: nat | k < |log|
      ensures Follows(start, log, k)
    {
      assert WriteOk(start, log, length, k) && !Stale(log, k);
    }
    hide WriteOk, Stale;
    for n := 0 to |log|
      invariant Tiled(start, log, n)
    {
      assert Follows(start, log, n);
      var next := n + 1;
      forall i | start <= i < log[n].e
        ensures CoveredBefore(log, next, i)
      {
        if i < log[n].s {
          assert CoveredBefore(log, n, i);
        } else {
          assert Covers(log[n], i);
        }
      }
    }
  }

  predicate Follows(start: nat, log: seq<Write>, k: nat)
    requires k < |log|
  {
    log[k].s == CursorAt(start, log, k) < log[k].e
  }

  ghost predicate CoveredBefore(log: seq<Write>, n: nat, i: nat)
    requires n <= |log|
  {
    exists k :: 0 <= k < n && Covers(log[k], i)
  }

  /** The first n windows tile the range from start to the cursor they leave. */
  ghost predicate Tiled(start: nat, log: seq<Write>, n: nat)
    requires n <= |log|
  {
    && start <= CursorAt(start, log, n)
    && (forall k :: 0 <= k < n ==> start <= log[k].s < log[k].e <= CursorAt(start, log, n))
    && (forall j, k :: 0 <= j < k < n ==> log[j].e <= log[k].s)
    && forall i :: start <= i < CursorAt(start, log, n) ==> CoveredBefore(log, n, i)
  }

  // ---------- a behaviour with two rows for one index ----------

  lemma Extend(states: seq<State>, a: Action) returns (longer: seq<State>)
    requires states != [] && Behaviour(states) && Enabled(states[|states| - 1], a)
    ensures longer != [] && Behaviour(longer) && longer[0] == states[0]
    ensures longer[|longer| - 1] == Step(states[|states| - 1], a)
  {
    longer := states + [Step(states[|states| - 1], a)];
    forall n | 0 <= n < |longer| - 1
      ensures StepAt(longer, n)
    {
      if n < |states| - 1 {
        assert StepAt(states, n);
      } else {
        assert Next(states[n], Step(states[n], a));
      }
    }
  }

  /** From tick to the staged rows, beside runs that do not touch the cursor meanwhile. */
  lemma Stages(states: seq<State>, r: RunId, length: nat) returns (longer: seq<State>)
    requires states != [] && Behaviour(states) && r !in states[|states| - 1].runs
    requires states[|states| - 1].pid < length <= states[|states| - 1].length
    ensures longer != [] && Behaviour(longer) && longer[0] == states[0]
    ensures var st := states[|states| - 1];
            longer[|longer| - 1] == SetRun(st, r, Run(RowsStaged, Some(length), Some(st.pid), |st.log|, st.pid,
                                                      WindowEnd(st.pid, length), 0))
  {
    hide Behaviour;
    var st := states[|states| - 1];
    longer := ReadsBoth(states, r, length);
    longer := Extend(longer, Window(r));
    longer := Extend(longer, Stage(r));
    var run := Run(RowsStaged, Some(length), Some(st.pid), |st.log|, st.pid, WindowEnd(st.pid, length), 0);
    assert longer[|longer| - 1].runs == st.runs[r := run];
  }

  lemma ReadsBoth(states: seq<State>, r: RunId, length: nat) returns (longer: seq<State>)
    requires states != [] && Behaviour(states) && r !in states[|states| - 1].runs
    requires length <= states[|states| - 1].length
    ensures longer != [] && Behaviour(longer) && longer[0] == states[0]
    ensures var st := states[|states| - 1];
            longer[|longer| - 1] == SetRun(st, r, Run(Ticked, Some(length), Some(st.pid), |st.log|, 0, 0, 0))
  {
    hide Behaviour;
    var st := states[|states| - 1];
    longer := Extend(states, Tick(r));
    longer := Extend(longer, ReadLength(r, length));
    longer := Extend(longer, ReadCursor(r));
    var run := Run(Ticked, Some(length), Some(st.pid), |st.log|, 0, 0, 0);
    assert longer[|longer| - 1].runs == st.runs[r := run];
  }

  /** Two runs that both read the cursor before either writes it: every index of the window gets two rows. */
  lemma OverlapDuplicates(st: State) returns (states: seq<State>)
    requires st.runs == map[] && st.log == [] && st.pid < st.length
    ensures states != [] && Behaviour(states) && states[0] == st
    ensures var last := states[|states| - 1];
            && last.runs == map[] && last.pid == WindowEnd(st.pid, st.length) > st.pid
            && !Fresh(last.log)
            && forall i :: st.pid <= i < last.pid ==> last.rows[i] == st.rows[i] + 2
  {
    var e := WindowEnd(st.pid, st.length);
    states := [st];
    states := Stages(states, 0, st.length);
    states := Stages(states, 1, st.length);
    hide Behaviour;
    states := Extend(states, WriteCursor(0));
    states := Extend(states, WriteCursor(1));
    states := Extend(states, Commit(0));
    states := Extend(states, Commit(1));
    var last := states[|states| - 1];
    assert last.log == [Write(st.pid, e, 0, true), Write(st.pid, e, 0, true)];
    assert last.runs == map[];
    assert Stale(last.log, 1);
    assert last.rows == st.rows + WindowRows(st.pid, e) + WindowRows(st.pid, e);
    forall i | st.pid <= i < e
      ensures last.rows[i] == st.rows[i] + 2
    {
      WindowCounts(st.pid, e, i);
    }
  }

  // ---------- one run at a time: when an index gets none ----------

  ghost predicate Sequential(states: seq<State>) {
    && Behaviour(states)
    && forall n, q, r :: 0 <= n < |states| && q in states[n].runs && r in states[n].runs ==> q == r
  }

  ghost predicate NothingStale(st: State) {
    && Fresh(st.log)
    && forall r :: r in st.runs && st.runs[r].cursor.Some? && st.runs[r].pc != CursorWritten ==>
                     st.runs[r].readAt == |st.log|
  }

  lemma {:induction false} SequentialIsFresh(states: seq<State>, n: nat)
    requires Sequential(states) && n < |states|
    ensures NothingStale(states[n])
  {
    if n > 0 {
      SequentialIsFresh(states, n - 1);
      AlwaysInv(states, n - 1);
      assert StepAt(states, n - 1);
      var a :| Enabled(states[n - 1], a) && Step(states[n - 1], a) == states[n];
      SequentialStep(states[n - 1], states[0].rows, states[0].pid, a);
    }
  }

  lemma SequentialStep(st: State, initial: Rows, start: nat, a: Action)
    requires Inv(st, initial, start) && Enabled(st, a) && NothingStale(st)
    requires forall q, r :: q in st.runs && r in st.runs ==> q == r
    ensures NothingStale(Step(st, a))
  {
    hide CountsOk, Copies, LogOk;
    var st' := Step(st, a);
    if a.WriteCursor? || a.Commit? {
      assert RunOk(st, start, st.runs[a.r]);
    }
    forall k | 0 <= k < |st'.log|
      ensures !Stale(st'.log, k)
    {
      if k < |st.log| {
        assert !Stale(st.log, k);
      }
    }
  }

  /** A run that has written its cursor ends between the two states and its rows do not appear. */
  predicate Loses(st: State, st': State, r: RunId) {
    At(st, r, CursorWritten) && r !in st'.runs && st'.rows == st.rows
  }

  ghost predicate Lost(states: seq<State>, n: nat, k: nat)
    requires n < |states|
  {
    exists m, r :: 0 <= m < n && LosesAt(states, m, r) && states[m].runs[r].at == k
  }

  predicate LosesAt(states: seq<State>, m: nat, r: RunId)
    requires m < |states| - 1
    ensures LosesAt(states, m, r) ==> r in states[m].runs
  {
    Loses(states[m], states[m + 1], r)
  }

  ghost predicate InFlight(st: State, k: nat) {
    exists r :: At(st, r, CursorWritten) && st.runs[r].at == k
  }

  /** A cursor write whose run is over stays without a run. */
  lemma {:induction false} NeverBack(states: seq<State>, m: nat, n: nat, k: nat)
    requires Behaviour(states) && m <= n < |states| && k < |states[m].log| && !InFlight(states[m], k)
    ensures k < |states[n].log| && !InFlight(states[n], k) && states[n].log[k] == states[m].log[k]
    decreases n
  {
    if m < n {
      NeverBack(states, m, n - 1, k);
      AlwaysInv(states, n - 1);
      assert StepAt(states, n - 1);
      var a :| Enabled(states[n - 1], a) && Step(states[n - 1], a) == states[n];
      OverStaysOver(states[n - 1], states[0].rows, states[0].pid, a, k);
    }
  }

  lemma OverStaysOver(st: State, initial: Rows, start: nat, a: Action, k: nat)
    requires Inv(st, initial, start) && Enabled(st, a) && k < |st.log| && !InFlight(st, k)
    ensures var st' := Step(st, a); k < |st'.log| && !InFlight(st', k) && st'.log[k] == st.log[k]
  {
    hide CountsOk, Copies, LogOk, RunOk;
    var st' := Step(st, a);
    forall r | At(st', r, CursorWritten)
      ensures st'.runs[r].at != k
    {
      assert !At(st, r, CursorWritten) || st.runs[r].at != k;
    }
  }

  /** One step of the run of cursor write k: it goes on, or commits, or is lost. */
  lemma FlightStep(st: State, initial: Rows, start: nat, a: Action, r: RunId)
    requires Inv(st, initial, start) && Enabled(st, a) && At(st, r, CursorWritten)
    ensures var st', k := Step(st, a), st.runs[r].at;
            && k < |st.log| <= |st'.log|
            && (r in st'.runs ==> st'.runs[r] == st.runs[r] && !st'.log[k].committed)
            && (r !in st'.runs ==> !InFlight(st', k) && (st'.log[k].committed <==> !Loses(st, st', r)))
  {
    assert RunOk(st, start, st.runs[r]);
    var st', run := Step(st, a), st.runs[r];
    WindowCounts(run.s, run.e, run.s);
    hide CountsOk, Copies, LogOk, RunOk;
    if a == Commit(r) {
      assert st'.rows[run.s] == st.rows[run.s] + 1;
    } else if a.Commit? {
      assert st.runs[a.r].at != run.at;
    }
  }

  /** A cursor write lacks its rows iff its run is still in flight, or ended without them in some step. */
  lemma {:induction false} LostByOneStepOnly(states: seq<State>, n: nat, k: nat)
    requires Behaviour(states) && n < |states| && k < |states[n].log|
    ensures !states[n].log[k].committed <==> InFlight(states[n], k) || Lost(states, n, k)
  {
    assert n > 0;
    AlwaysInv(states, n - 1);
    AlwaysInv(states, n);
    assert StepAt(states, n - 1);
    var st, st' := states[n - 1], states[n];
    var a :| Enabled(st, a) && Step(st, a) == st';
    if k == |st.log| {
      assert a.WriteCursor? && At(st', a.r, CursorWritten) && st'.runs[a.r].at == k;
    } else {
      LostByOneStepOnly(states, n - 1, k);
      hide Inv, Step, Enabled;
      LostGrows(states, n - 1, k);
      if InFlight(st, k) {
        var r :| At(st, r, CursorWritten) && st.runs[r].at == k;
        FlightStep(st, states[0].rows, states[0].pid, a, r);
        InFlightWasNotLost(states, n - 1, k);
      } else {
        OverStaysOver(st, states[0].rows, states[0].pid, a, k);
      }
    }
  }

  lemma LostGrows(states: seq<State>, m: nat, k: nat)
    requires m + 1 < |states|
    ensures Lost(states, m + 1, k) <==>
            Lost(states, m, k) || exists r :: LosesAt(states, m, r) && states[m].runs[r].at == k
  {
  }

  lemma InFlightWasNotLost(states: seq<State>, n: nat, k: nat)
    requires Behaviour(states) && n < |states| && InFlight(states[n], k)
    ensures !Lost(states, n, k)
  {
    if m, r :| 0 <= m < n && LosesAt(states, m, r) && states[m].runs[r].at == k {
      LostForGood(states, m, r, n);
      assert false;
    }
  }

  /** A losing step is final: the cursor write is there for good, and its rows never come. */
  lemma LostForGood(states: seq<State>, m: nat, r: RunId, n: nat)
    requires Behaviour(states) && m < n < |states| && LosesAt(states, m, r)
    ensures var run := states[m].runs[r];
            run.at < |states[n].log| && !InFlight(states[n], run.at)
            && states[n].log[run.at] == Write(run.s, run.e, run.readAt, false)
  {
    AlwaysInv(states, m);
    assert RunOk(states[m], states[0].pid, states[m].runs[r]);
    assert StepAt(states, m);
    hide Inv, Behaviour, InFlight;
    var a :| Enabled(states[m], a) && Step(states[m], a) == states[m + 1];
    FlightStep(states[m], states[0].rows, states[0].pid, a, r);
    LosingKeepsLog(states[m], states[0].rows, states[0].pid, a, r);
    NeverBack(states, m + 1, n, states[m].runs[r].at);
  }

  lemma CommitAddsRows(st: State, initial: Rows, start: nat, a: Action)
    requires Inv(st, initial, start) && Enabled(st, a)
    ensures a.Commit? ==> Step(st, a).rows != st.rows
  {
    if a.Commit? {
      var run := st.runs[a.r];
      assert RunOk(st, start, run);
      WindowCounts(run.s, run.e, run.s);
      assert Step(st, a).rows[run.s] == st.rows[run.s] + 1;
    }
  }

  lemma LosingKeepsLog(st: State, initial: Rows, start: nat, a: Action, r: RunId)
    requires Inv(st, initial, start) && Enabled(st, a) && Loses(st, Step(st, a), r)
    ensures Step(st, a).log == st.log
  {
    CommitAddsRows(st, initial, start, a);
  }

  /** The index lies in the window of a run that ended between its cursor write and its commit. */
  ghost predicate LostIndex(states: seq<State>, n: nat, i: nat)
    requires n < |states|
  {
    exists m, r :: 0 <= m < n && LosesAt(states, m, r) && states[m].runs[r].s <= i < states[m].runs[r].e
  }

  /** Between sequential runs every index the crawl has passed has exactly one new row, unless a run whose window
      holds it ended between its cursor write and its commit; then it has none. Nothing else is touched. */
  lemma RowsBelowCursor(states: seq<State>, n: nat, i: nat)
    requires Sequential(states) && n < |states| && states[n].runs == map[]
    ensures var st, start := states[n], states[0].pid;
            && start <= st.pid
            && (start <= i < st.pid ==>
                  (st.rows[i] == states[0].rows[i] + 1 <==> !LostIndex(states, n, i))
                  && (st.rows[i] == states[0].rows[i] <==> LostIndex(states, n, i)))
            && (!(start <= i < st.pid) ==> st.rows[i] == states[0].rows[i] && !LostIndex(states, n, i))
  {
    var st, start := states[n], states[0].pid;
    AlwaysInv(states, n);
    SequentialIsFresh(states, n);
    hide RunOk, Apart, WriteOk, CountsOk, Copies;
    FreshWindowsTile(start, st.log, st.length);
    FreshCopies(start, st.log, st.length, i);
    CountsAt(st, states[0].rows, i);
    hide Fresh, LogOk;
    if start <= i < st.pid {
      assert CoveredBefore(st.log, |st.log|, i);
      var k :| 0 <= k < |st.log| && Covers(st.log[k], i);
      LostByOneStepOnly(states, n, k);
      LostWrite(states, n, k, i);
    } else {
      NotLostOutside(states, n, i);
    }
  }

  lemma CountsAt(st: State, initial: Rows, i: nat)
    requires CountsOk(st, initial)
    ensures st.rows[i] == initial[i] + Copies(st.log, i)
  {
  }

  lemma FreshCopies(start: nat, log: seq<Write>, length: nat, i: nat)
    requires LogOk(start, log, length) && Fresh(log)
    ensures !(start <= i < CursorAt(start, log, |log|)) ==> Copies(log, i) == 0
    ensures forall k :: 0 <= k < |log| && Covers(log[k], i) ==>
                          start <= i < CursorAt(start, log, |log|)
                          && Copies(log, i) == if log[k].committed then 1 else 0
    ensures forall j, k :: 0 <= j < |log| && 0 <= k < |log| && Covers(log[j], i) && Covers(log[k], i) ==> j == k
  {
    FreshWindowsTile(start, log, length);
    OneCopy(log, i);
    TwoCopies(log, i);
    hide Copies, LogOk, Fresh;
    if Copies(log, i) >= 1 {
      var k :| 0 <= k < |log| && Holds(log[k], i);
      assert Covers(log[k], i);
    }
    forall k | 0 <= k < |log| && Covers(log[k], i) && log[k].committed
      ensures Copies(log, i) >= 1
    {
      assert Holds(log[k], i);
    }
  }

  lemma NotLostOutside(states: seq<State>, n: nat, i: nat)
    requires Behaviour(states) && n < |states|
    requires forall k :: 0 <= k < |states[n].log| ==> !Covers(states[n].log[k], i)
    ensures !LostIndex(states, n, i)
  {
    if m, r :| 0 <= m < n && LosesAt(states, m, r) && states[m].runs[r].s <= i < states[m].runs[r].e {
      LostForGood(states, m, r, n);
      assert Covers(states[n].log[states[m].runs[r].at], i);
      assert false;
    }
  }

  /** With windows that do not overlap, losing the index and losing the write that covers it are the same. */
  lemma LostWrite(states: seq<State>, n: nat, k: nat, i: nat)
    requires Behaviour(states) && n < |states| && k < |states[n].log| && Covers(states[n].log[k], i)
    requires forall j :: 0 <= j < |states[n].log| && Covers(states[n].log[j], i) ==> j == k
    ensures LostIndex(states, n, i) <==> Lost(states, n, k)
  {
    if m, r :| 0 <= m < n && LosesAt(states, m, r) && states[m].runs[r].s <= i < states[m].runs[r].e {
      LostForGood(states, m, r, n);
      assert Covers(states[n].log[states[m].runs[r].at], i);
    }
    if m, r :| 0 <= m < n && LosesAt(states, m, r) && states[m].runs[r].at == k {
      LostForGood(states, m, r, n);
    }
  }

  /** The losing step does lose, and for good: after it the window stays below the rows that were there at first,
      whatever sequential runs follow. */
  lemma LosingStepLosesTheWindow(states: seq<State>, m: nat, r: RunId, n: nat, i: nat)
    requires Sequential(states) && m < n < |states| && LosesAt(states, m, r) && states[n].runs == map[]
    requires states[m].runs[r].s <= i < states[m].runs[r].e
    ensures states[0].pid <= i < states[n].pid && states[n].rows[i] == states[0].rows[i]
  {
    RowsBelowCursor(states, n, i);
    assert LostIndex(states, n, i);
  }

  /** From any idle state with something to crawl: a run that fails between its cursor write and its commit. The
      cursor has moved, no row has come. */
  lemma FailureLosesTheWindow(st: State) returns (states: seq<State>)
    requires st.runs == map[] && st.log == [] && st.pid < st.length
    ensures states != [] && Behaviour(states) && states[0] == st
    ensures var last := states[|states| - 1];
            last.runs == map[] && last.pid == WindowEnd(st.pid, st.length) > st.pid && last.rows == st.rows
  {
    states := [st];
    states := Stages(states, 0, st.length);
    hide Behaviour;
    states := Extend(states, WriteCursor(0));
    states := Extend(states, Fail(0));
    assert states[|states| - 1].runs == map[];
  }

  // ---------- the run of the source ----------

  /** Where a run is stopped: not at all, before its cursor write, or between it and the end of the commit. */
  datatype Stop = Never | BeforeCursor | AfterCursor

  datatype Outcome = NothingNew | Committed | Failed

  /** How a run ends, and the rows and the cursor it leaves. */
  function RunOnce(rows: Rows, pid: nat, networkPid: nat, stop: Stop): (Outcome, Rows, nat) {
    if stop == BeforeCursor then (Failed, rows, pid)
    else if pid >= networkPid then (NothingNew, rows, pid)
    else if stop == AfterCursor then (Failed, rows, WindowEnd(pid, networkPid))
    else (Committed, rows + WindowRows(pid, WindowEnd(pid, networkPid)), WindowEnd(pid, networkPid))
  }

  class NftJob {
    var rows: Rows
    var pid: nat

    /** `run`. */
    method Run(networkPid: nat, stop: Stop) returns (outcome: Outcome)
      modifies this
      ensures (outcome, rows, pid) == RunOnce(old(rows), old(pid), networkPid, stop)
      ensures outcome == NothingNew <==> stop != BeforeCursor && old(pid) >= networkPid
      ensures outcome == Committed <==> stop == Never && old(pid) < networkPid
      ensures pid == if stop != BeforeCursor && old(pid) < networkPid then WindowEnd(old(pid), networkPid) else old(pid)
      ensures forall i: nat :: rows[i] == old(rows)[i] + if outcome == Committed && old(pid) <= i < pid then 1 else 0
    {
      if stop == BeforeCursor {
        return Failed;
      }
      var sPid, ePid := pid, networkPid;
      if sPid >= ePid {
        return NothingNew;
      }
      if ePid - sPid > CHUNK_SIZE {
        ePid := sPid + CHUNK_SIZE;
      }
      var staged: Rows := multiset{};
      for i := sPid to ePid
        invariant forall k: nat :: staged[k] == if sPid <= k < i then 1 else 0
      {
        staged := staged + multiset{i};
      }
      pid := ePid;
      if stop == AfterCursor {
        return Failed;
      }
      SameRows(staged, sPid, ePid);
      rows := rows + staged;
      return Committed;
    }
  }

  lemma SameRows(staged: Rows, s: nat, e: nat)
    requires s <= e && forall k: nat :: staged[k] == if s <= k < e then 1 else 0
    ensures staged == WindowRows(s, e)
  {
    forall k: nat
      ensures staged[k] == WindowRows(s, e)[k]
    {
      WindowCounts(s, e, k);
    }
  }

  /** The run of the source, meeting no other run, is a behaviour: from any idle state, by enabled steps, to the rows
      and the cursor that `Run` leaves, wherever it is stopped. */
  lemma RunIsABehaviour(states: seq<State>, networkPid: nat, stop: Stop) returns (longer: seq<State>)
    requires states != [] && Behaviour(states) && states[|states| - 1].runs == map[]
    requires networkPid <= states[|states| - 1].length
    ensures longer != [] && Behaviour(longer) && longer[0] == states[0]
    ensures var st, st' := states[|states| - 1], longer[|longer| - 1];
            var (_, rows, pid) := RunOnce(st.rows, st.pid, networkPid, stop);
            st'.runs == map[] && st'.rows == rows && st'.pid == pid
  {
    hide Behaviour;
    var st := states[|states| - 1];
    if stop == BeforeCursor {
      longer := Extend(states, Tick(0));
      longer := Extend(longer, Fail(0));
    } else if st.pid >= networkPid {
      longer := ReadsBoth(states, 0, networkPid);
      longer := Extend(longer, Window(0));
    } else {
      longer := Stages(states, 0, networkPid);
      longer := Extend(longer, WriteCursor(0));
      longer := Extend(longer, if stop == AfterCursor then Fail(0) else Commit(0));
    }
    assert longer[|longer| - 1].runs == map[];
  }
}
