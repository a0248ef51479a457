/** The run of the source, taken on its own, is one of the behaviours of the transition system. */
module PairRefinement {
  import opened Addresses
  import opened Arrays
  import opened CrawlWindow
  import opened PairPipeline
  import opened PairCrawl
  import T = PairDoTask

  /** The states of an interleaving that starts in st and ends in st'. */
  ghost predicate Leads(c: Code, states: seq<State>, st: State, st': State) {
    && states != [] && states[0] == st && states[|states| - 1] == st'
    && forall i :: 0 <= i < |states| - 1 ==> StepAt(c, states, i)
  }

  lemma Extend(c: Code, states: seq<State>, st: State, st': State, a: Action) returns (longer: seq<State>)
    requires Leads(c, states, st, st') && Enabled(c, st', a)
    ensures Leads(c, longer, st, Step(c, st', a))
    ensures |longer| == |states| + 1 && longer[..|states|] == states
  {
    longer := states + [Step(c, st', a)];
    assert Next(c, st', Step(c, st', a));
    forall i | 0 <= i < |longer| - 1
      ensures StepAt(c, longer, i)
    {
      if i < |states| - 1 {
        assert StepAt(c, states, i);
      }
    }
  }

  /** The state of base with r, beside its other runs, at the point run. */
  function With(base: State, r: RunId, run: Run): State { base.(runs := base.runs[r := run]) }

  /** None of the other runs has staged rows. */
  predicate Quiet(base: State, r: RunId) {
    r !in base.runs && forall q :: q in base.runs ==> base.runs[q].staged == map[]
  }

  lemma ExtendLocally(c: Code, states: seq<State>, st: State, base: State, r: RunId, run: Run, a: Action)
    returns (longer: seq<State>)
    requires Leads(c, states, st, With(base, r, run))
    requires Enabled(c, With(base, r, run), a) && Local(With(base, r, run), a) && a.r == r
    ensures Leads(c, longer, st, With(base, r, Move(c, With(base, r, run), a)))
  {
    var here := With(base, r, run);
    longer := Extend(c, states, st, here, a);
    assert here.runs[r := Move(c, here, a)] == base.runs[r := Move(c, here, a)];
    hide Leads, Enabled, Move;
    assert Step(c, here, a) == With(base, r, Move(c, here, a));
  }

  lemma ExtendByInsert(c: Code, states: seq<State>, st: State, base: State, r: RunId, run: Run, a: Action)
    returns (longer: seq<State>)
    requires Leads(c, states, st, With(base, r, run)) && Enabled(c, With(base, r, run), a)
    requires (a.InsertSingles? || a.InsertOne? || a.InsertTwo?) && a.r == r
    ensures var (params, moved) := Inserting(With(base, r, run), a);
            Leads(c, longer, st,
                  With(base.(nextId := base.nextId + |params|), r,
                       moved.(staged := InsertAll(base.table, run.staged, params, base.nextId))))
  {
    hide Leads, InsertAll, SingleParams, Free, AllSound, PassTwo, Enabled, Step, Insert, Inserting;
    var here := With(base, r, run);
    longer := Extend(c, states, st, here, a);
    StepInserts(c, here, a);
    StagedKept(here, a);
    InsertBeside(base, r, run, Inserting(here, a).0, Inserting(here, a).1);
  }

  lemma StepInserts(c: Code, st: State, a: Action)
    requires Enabled(c, st, a) && (a.InsertSingles? || a.InsertOne? || a.InsertTwo?)
    ensures Step(c, st, a) == Insert(st, a.r, Inserting(st, a).0, Inserting(st, a).1)
  {
    hide InsertAll, SingleParams, Free, AllSound, PassTwo, Insert;
  }

  lemma StagedKept(st: State, a: Action)
    requires (a.InsertSingles? || a.InsertOne? || a.InsertTwo?) && a.r in st.runs
    ensures Inserting(st, a).1.staged == st.runs[a.r].staged
  {
  }

  lemma InsertBeside(base: State, r: RunId, run: Run, params: seq<Params>, moved: Run)
    requires moved.staged == run.staged
    ensures Insert(With(base, r, run), r, params, moved)
         == With(base.(nextId := base.nextId + |params|), r,
                 moved.(staged := InsertAll(base.table, run.staged, params, base.nextId)))
  {
    hide InsertAll;
    var after := moved.(staged := InsertAll(base.table, run.staged, params, base.nextId));
    assert With(base, r, run).runs[r := after] == base.runs[r := after];
  }

  lemma FreeBeside(base: State, r: RunId, run: Run, params: seq<Params>)
    requires Quiet(base, r)
    ensures Free(With(base, r, run), r, params)
  {
  }

  lemma ExactIsSound(c: Code, t: Table, multis: seq<Address>)
    ensures AllSound(c, t, multis, T.LookUpAll(c, t, multis))
  {
  }

  function Read(job: JobId, length: nat, cursor: nat): Run {
    Start(job).(length := Some(length), cursor := Some(cursor))
  }

  /** From the tick to both reads. */
  lemma Reads(c: Code, states: seq<State>, st: State, base: State, r: RunId, job: JobId, length: nat)
    returns (longer: seq<State>)
    requires Leads(c, states, st, base) && r !in base.runs && job in base.factories && job in base.cursors
    requires length <= |base.factories[job]|
    ensures Leads(c, longer, st, With(base, r, Read(job, length, base.cursors[job])))
  {
    hide Leads, AllSound, PassTwo, Free;
    var run0 := Start(job);
    longer := Extend(c, states, st, base, Tick(r, job));
    longer := ExtendLocally(c, longer, st, base, r, run0, ReadLength(r, length));
    longer := ExtendLocally(c, longer, st, base, r, run0.(length := Some(length)), ReadCursor(r));
  }

  function Opening(job: JobId, length: nat, cursor: nat, pairs: seq<Address>): Run {
    Read(job, length, cursor).(pc := Opened, s := cursor, e := WindowEnd(cursor, length), pairs := pairs)
  }

  /** From the reads to the open transaction. */
  lemma OpensWindow(c: Code, states: seq<State>, st: State, base: State, r: RunId, job: JobId, length: nat, s: nat)
    returns (longer: seq<State>)
    requires Leads(c, states, st, With(base, r, Read(job, length, s)))
    requires job in base.factories && s < length <= |base.factories[job]|
    ensures var e := WindowEnd(s, length);
            e <= |base.factories[job]|
            && Leads(c, longer, st, With(base, r, Opening(job, length, s, base.factories[job][s..e])))
  {
    hide Leads, AllSound, PassTwo, Free;
    var run2 := Read(job, length, s);
    longer := ExtendLocally(c, states, st, base, r, run2, Window(r));
    var run3 := run2.(pc := Windowed, s := s, e := WindowEnd(s, length));
    longer := ExtendLocally(c, longer, st, base, r, run3, Fetch(r));
    var run4 := run3.(pc := Fetched, pairs := base.factories[job][run3.s..run3.e]);
    longer := ExtendLocally(c, longer, st, base, r, run4, Begin(r));
  }

  lemma Singleton(c: Code, st: State) returns (states: seq<State>)
    ensures Leads(c, states, st, st)
  {
    states := [st];
  }

  function ClassifiedRun(ch: T.Chain, base: State, run: Run): Run {
    run.(pc := Classified, seenMultis := Some(base.table.Keys), seenSingles := Some(base.table.Keys),
         multis := T.Multis(ch, base.table, run.pairs),
         singles := T.PureSingles(ch, base.table, run.pairs),
         invalid := T.InvalidSingles(ch, base.table, run.pairs))
  }

  /** From the open transaction to the classification. */
  lemma Classifies(ch: T.Chain, states: seq<State>, st: State, base: State, r: RunId, run: Run)
    returns (longer: seq<State>)
    requires Leads(ch.code, states, st, With(base, r, run)) && run.pc == Opened && ch.contracts == base.contracts
    ensures Leads(ch.code, longer, st, With(base, r, ClassifiedRun(ch, base, run)))
  {
    hide Leads, AllSound, PassTwo, Free, Coded, Uncoded, Pure, LpInSinglePosition, NewMultis, NewSingles, Remaining;
    var c := ch.code;
    longer := ExtendLocally(c, states, st, base, r, run, ReadMultis(r));
    var run1 := run.(seenMultis := Some(base.table.Keys));
    longer := ExtendLocally(c, longer, st, base, r, run1, ReadSingles(r));
    var run2 := run1.(seenSingles := Some(base.table.Keys));
    longer := ExtendLocally(c, longer, st, base, r, run2, CheckContracts(r));
    var run3 := Move(c, With(base, r, run2), CheckContracts(r));
    longer := ExtendLocally(c, longer, st, base, r, run3, CheckLps(r));
  }

  /** From the classification to the staged rows: what `doTask` computes. */
  lemma Inserts(ch: T.Chain, states: seq<State>, st: State, base: State, r: RunId, run: Run)
    returns (longer: seq<State>)
    requires Leads(ch.code, states, st, With(base, r, run)) && Quiet(base, r)
    requires run.pc == Classified && run.staged == map[] && run.bulk == [] && run.later == []
    requires run == ClassifiedRun(ch, base, run)
    requires T.DoTask(ch, base.table, base.nextId, run.pairs).Some?
    ensures var (staged, nextId) := T.DoTask(ch, base.table, base.nextId, run.pairs).value;
            Leads(ch.code, longer, st, With(base.(nextId := nextId), r, run.(pc := TwoIn, staged := staged)))
  {
    hide Leads, InsertAll, PassOne, PassTwo, AllSound, Free, T.Multis, T.PureSingles, T.InvalidSingles;
    var c, infos := ch.code, ch.infos;
    FreeBeside(base, r, run, SingleParams(run.singles, infos));
    longer := ExtendByInsert(c, states, st, base, r, run, InsertSingles(r, infos));
    var base1 := base.(nextId := base.nextId + |run.singles|);
    var run1 := run.(pc := SinglesIn, staged := T.AfterSingles(ch, base.table, base.nextId, run.pairs));
    assert |SingleParams(run.singles, infos)| == |run.singles|;
    longer := FirstPasses(ch, longer, st, base1, r, run1, base.nextId);
    var (bulk, later) := T.FirstPass(ch, base.table, base.nextId, run.pairs);
    var base2 := base1.(nextId := base1.nextId + |bulk|);
    var run3 := run1.(pc := OneIn, later := later, staged := T.AfterFirst(ch, base.table, base.nextId, run.pairs));
    longer := SecondPass(ch, longer, st, base2, r, run3, base.nextId);
    var done := T.DoTask(ch, base.table, base.nextId, run.pairs).value;
    assert base2.(nextId := done.1) == base.(nextId := done.1);
    assert run3.(pc := TwoIn, later := [], staged := done.0) == run.(pc := TwoIn, staged := done.0);
  }

  lemma FirstPasses(ch: T.Chain, states: seq<State>, st: State, base: State, r: RunId, run: Run, firstId: nat)
    returns (longer: seq<State>)
    requires Leads(ch.code, states, st, With(base, r, run)) && Quiet(base, r) && run.pc == SinglesIn && run.bulk == []
    requires run.multis == T.Multis(ch, base.table, run.pairs)
    requires run.invalid == T.InvalidSingles(ch, base.table, run.pairs)
    requires run.staged == T.AfterSingles(ch, base.table, firstId, run.pairs)
    requires base.nextId == firstId + |T.PureSingles(ch, base.table, run.pairs)|
    ensures var (bulk, later) := T.FirstPass(ch, base.table, firstId, run.pairs);
            Leads(ch.code, longer, st,
                  With(base.(nextId := base.nextId + |bulk|), r,
                       run.(pc := OneIn, later := later, staged := T.AfterFirst(ch, base.table, firstId, run.pairs))))
  {
    hide Leads, InsertAll, PassOne, PassTwo, AllSound, Free;
    hide T.Multis, T.PureSingles, T.InvalidSingles, T.AfterSingles;
    var c := ch.code;
    var one := T.LookUpAll(c, base.table + run.staged, run.multis);
    ExactIsSound(c, base.table + run.staged, run.multis);
    longer := ExtendLocally(c, states, st, base, r, run, LookUpOne(r, ch.infos, one));
    var (bulk, later) := T.FirstPass(ch, base.table, firstId, run.pairs);
    var run2 := run.(pc := OneRead, bulk := bulk, later := later);
    FreeBeside(base, r, run2, bulk);
    longer := ExtendByInsert(c, longer, st, base, r, run2, InsertOne(r));
  }

  lemma SecondPass(ch: T.Chain, states: seq<State>, st: State, base: State, r: RunId, run: Run, firstId: nat)
    returns (longer: seq<State>)
    requires Leads(ch.code, states, st, With(base, r, run)) && Quiet(base, r) && run.pc == OneIn && run.bulk == []
    requires run.staged == T.AfterFirst(ch, base.table, firstId, run.pairs)
    requires run.later == T.FirstPass(ch, base.table, firstId, run.pairs).1
    requires base.nextId == firstId + |T.PureSingles(ch, base.table, run.pairs)|
                                    + |T.FirstPass(ch, base.table, firstId, run.pairs).0|
    requires T.DoTask(ch, base.table, firstId, run.pairs).Some?
    ensures var (staged, nextId) := T.DoTask(ch, base.table, firstId, run.pairs).value;
            Leads(ch.code, longer, st,
                  With(base.(nextId := nextId), r, run.(pc := TwoIn, later := [], staged := staged)))
  {
    hide Leads, InsertAll, PassOne, PassTwo, AllSound, Free, T.PureSingles, T.FirstPass, T.AfterFirst;
    var c := ch.code;
    var two := T.LookUpAll(c, base.table + run.staged, run.later);
    ExactIsSound(c, base.table + run.staged, run.later);
    longer := ExtendLocally(c, states, st, base, r, run, LookUpTwo(r, ch.infos, two));
    var bulk := PassTwo(c, ch.infos, run.later, two).value;
    var run1 := run.(pc := TwoRead, bulk := bulk, later := []);
    FreeBeside(base, r, run1, bulk);
    longer := ExtendByInsert(c, longer, st, base, r, run1, InsertTwo(r));
  }

  /** The store after a chunk of the job from s to e committed what `doTask` staged. */
  function Committed(base: State, job: JobId, s: nat, e: nat, staged: Table, invalid: seq<Address>): State {
    base.(table := base.table + staged, cursors := base.cursors[job := e],
          handled := WithChunk(base.handled, job, s, e, invalid))
  }

  /** The commit, and the state just before it. */
  lemma CommitsStaged(c: Code, states: seq<State>, st: State, base: State, r: RunId, run: Run)
    returns (longer: seq<State>)
    requires Leads(c, states, st, With(base, r, run)) && Quiet(base, r) && run.pc == TwoIn
    ensures Leads(c, longer, st, Committed(base, run.job, run.s, run.e, run.staged, run.invalid))
    ensures |longer| >= 2 && longer[|longer| - 2].cursors == base.cursors
  {
    hide Leads, Enabled, Step, Local, Move, WithChunk;
    CursorStep(c, base, r, run);
    longer := ExtendLocally(c, states, st, base, r, run, StageCursor(r));
    var run1 := run.(pc := CursorIn);
    var here := With(base, r, run1);
    NotEmpty(c, longer, st, here);
    CommitStep(c, base, r, run1);
    longer := Extend(c, longer, st, here, Commit(r));
  }

  lemma CursorStep(c: Code, base: State, r: RunId, run: Run)
    requires run.pc == TwoIn
    ensures Enabled(c, With(base, r, run), StageCursor(r)) && Local(With(base, r, run), StageCursor(r))
    ensures Move(c, With(base, r, run), StageCursor(r)) == run.(pc := CursorIn)
  {
    hide AllSound, PassTwo, Free;
  }

  lemma CommitStep(c: Code, base: State, r: RunId, run: Run)
    requires r !in base.runs && run.pc == CursorIn
    ensures Enabled(c, With(base, r, run), Commit(r))
    ensures Step(c, With(base, r, run), Commit(r))
         == Committed(base, run.job, run.s, run.e, run.staged, run.invalid)
  {
    assert With(base, r, run).runs - {r} == base.runs;
    hide AllSound, PassTwo, Free, WithChunk;
  }

  lemma NotEmpty(c: Code, states: seq<State>, st: State, st': State)
    requires Leads(c, states, st, st')
    ensures |states| >= 1 && states[|states| - 1] == st'
  {
  }

  /** From the reads of a run to its commit, beside runs without staged rows. */
  lemma RunToCommit(ch: T.Chain, states: seq<State>, st: State, base: State, r: RunId, job: JobId, length: nat, s: nat)
    returns (longer: seq<State>)
    requires Leads(ch.code, states, st, With(base, r, Read(job, length, s))) && Quiet(base, r)
    requires job in base.factories && s < length <= |base.factories[job]| && ch.contracts == base.contracts
    requires T.DoTask(ch, base.table, base.nextId, base.factories[job][s..WindowEnd(s, length)]).Some?
    ensures var e := WindowEnd(s, length);
            var pairs := base.factories[job][s..e];
            var (staged, nextId) := T.DoTask(ch, base.table, base.nextId, pairs).value;
            Leads(ch.code, longer, st,
                  Committed(base, job, s, e, staged, T.InvalidSingles(ch, base.table, pairs)).(nextId := nextId))
    ensures |longer| >= 2 && longer[|longer| - 2].cursors == base.cursors
  {
    hide Leads, T.Multis, T.PureSingles, T.InvalidSingles, T.DoTask;
    var pairs := base.factories[job][s..WindowEnd(s, length)];
    longer := OpensWindow(ch.code, states, st, base, r, job, length, s);
    var begun := Opening(job, length, s, pairs);
    longer := Classifies(ch, longer, st, base, r, begun);
    var classified := ClassifiedRun(ch, base, begun);
    longer := Inserts(ch, longer, st, base, r, classified);
    var (staged, nextId) := T.DoTask(ch, base.table, base.nextId, pairs).value;
    var done := classified.(pc := TwoIn, staged := staged);
    longer := CommitsStaged(ch.code, longer, st, base.(nextId := nextId), r, done);
  }

  lemma RunOnceCommits(w: T.World, table: Table, nextId: nat, pid: nat, pairs: seq<Address>)
    requires pid < w.length && T.RunOnce(w, table, nextId, pid).0 == T.Committed
    requires forall i :: 0 <= i < |pairs| ==> w.pairAt(pid + i) == Some(pairs[i])
    requires |pairs| == WindowEnd(pid, w.length) - pid
    ensures T.DoTask(w.chain, table, nextId, pairs).Some?
    ensures var done := T.DoTask(w.chain, table, nextId, pairs).value;
            T.RunOnce(w, table, nextId, pid) == (T.Committed, table + done.0, done.1, WindowEnd(pid, w.length))
  {
    hide T.DoTask;
    assert T.Values(T.Entries(w, pid, WindowEnd(pid, w.length))) == pairs;
  }

  /** A run that meets no other run's staged rows and no failure goes, step by step, from its tick to the store that
      `run` computes in one go: rows, next id and cursor. */
  lemma IsolatedRunIsABehaviour(st: State, r: RunId, job: JobId, w: T.World) returns (states: seq<State>)
    requires Quiet(st, r) && job in st.factories && job in st.cursors
    requires st.cursors[job] < w.length <= |st.factories[job]|
    requires w.chain.contracts == st.contracts
    requires forall i :: 0 <= i < w.length ==> w.pairAt(i) == Some(st.factories[job][i])
    requires T.RunOnce(w, st.table, st.nextId, st.cursors[job]).0 == T.Committed
    ensures states != [] && states[0] == st && forall i :: 0 <= i < |states| - 1 ==> StepAt(w.chain.code, states, i)
    ensures var st' := states[|states| - 1];
            && st'.runs == st.runs && st'.factories == st.factories && job in st'.cursors
            && T.RunOnce(w, st.table, st.nextId, st.cursors[job])
               == (T.Committed, st'.table, st'.nextId, st'.cursors[job])
  {
    hide StepAt, T.DoTask, T.InvalidSingles, T.RunOnce;
    var s := st.cursors[job];
    var pairs := st.factories[job][s..WindowEnd(s, w.length)];
    RunOnceCommits(w, st.table, st.nextId, s, pairs);
    states := Singleton(w.chain.code, st);
    states := Reads(w.chain.code, states, st, st, r, job, w.length);
    states := RunToCommit(w.chain, states, st, st, r, job, w.length, s);
  }

  /** A cursor does go back: a run that read both the list and the cursor early commits after another run of the same
      job has gone further. From any initial state with two plain pairs, without any failure. */
  lemma CursorGoesBack(ch: T.Chain, st: State, job: JobId) returns (states: seq<State>)
    requires Initial(ch.code, st) && ch.contracts == st.contracts
    requires job in st.factories && job in st.cursors && |st.factories[job]| >= 2
    requires forall p, q :: p in st.factories[job] && q in st.factories[job] ==> !T.TokenOf(ch.code, p, q)
    ensures Behaviour(ch.code, states)
    ensures |states| >= 2 && job in states[|states| - 2].cursors && job in states[|states| - 1].cursors
    ensures states[|states| - 2].cursors[job] == 2 && states[|states| - 1].cursors[job] == 1
  {
    hide Initial, T.DoTask, T.InvalidSingles, StepAt;
    var c := ch.code;
    InitialReady(c, st, job);
    states := Singleton(c, st);
    states := Reads(c, states, st, st, 0, job, 1);
    var early := Read(job, 1, 0);
    var beside := With(st, 0, early);
    states := Reads(c, states, st, beside, 1, job, 2);
    PlainPairsCommit(ch, st.table, st.nextId, st.factories[job], 2);
    states := RunToCommit(ch, states, st, beside, 1, job, 2, 0);
    var pairs := st.factories[job][0..2];
    var (staged, nextId) := T.DoTask(ch, st.table, st.nextId, pairs).value;
    var far := Committed(st, job, 0, 2, staged, T.InvalidSingles(ch, st.table, pairs)).(nextId := nextId);
    assert Committed(beside, job, 0, 2, staged, T.InvalidSingles(ch, st.table, pairs)).(nextId := nextId)
        == With(far, 0, early);
    PlainPairsCommit(ch, far.table, far.nextId, far.factories[job], 1);
    states := RunToCommit(ch, states, st, far, 0, job, 1, 0);
  }

  lemma InitialReady(c: Code, st: State, job: JobId)
    requires Initial(c, st) && job in st.cursors
    ensures st.runs == map[] && st.cursors[job] == 0
  {
  }

  lemma PlainPairsCommit(ch: T.Chain, table: Table, nextId: nat, factory: seq<Address>, n: nat)
    requires n <= |factory|
    requires forall p, q :: p in factory && q in factory ==> !T.TokenOf(ch.code, p, q)
    ensures T.DoTask(ch, table, nextId, factory[0..n]).Some?
  {
    var pairs := factory[0..n];
    forall m | m in pairs
      ensures ch.code.token0(m) !in pairs && ch.code.token1(m) !in pairs
    {
      assert !(ch.code.token0(m) in factory) || !T.TokenOf(ch.code, m, ch.code.token0(m));
      assert !(ch.code.token1(m) in factory) || !T.TokenOf(ch.code, m, ch.code.token1(m));
    }
    T.FlatChunkCommits(ch, table, nextId, pairs);
  }

  /** So the run of the source loses nothing: after a committed chunk every pair has a row, or a token that was
      classified invalid, or a token whose row is inactive. */
  lemma DoTaskLosesNothing(ch: T.Chain, committed: Table, nextId: nat, pairs: seq<Address>, p: Address)
    requires Fits(ch.code, committed) && IdsBelow(committed, nextId) && p in pairs
    requires T.DoTask(ch, committed, nextId, pairs).Some?
    ensures var table := committed + T.DoTask(ch, committed, nextId, pairs).value.0;
            || p in table || HasInvalid(ch.code, T.InvalidSingles(ch, committed, pairs), p)
            || InactiveComponent(ch.code, table, p)
  {
    var c := ch.code;
    var st := State(map[0 := pairs], ch.contracts, committed, nextId, map[0 := 0], map[], map[]);
    assert Initial(c, st);
    var run := Opening(0, |pairs|, 0, pairs).(e := |pairs|);
    InitialInv(c, st, run);
    var states := Singleton(c, With(st, 0, run));
    states := Classifies(ch, states, With(st, 0, run), st, 0, run);
    var classified := ClassifiedRun(ch, st, run);
    hide Inv, T.Multis, T.PureSingles, T.InvalidSingles, T.DoTask;
    states := Inserts(ch, states, With(st, 0, run), st, 0, classified);
    var (staged, nextId') := T.DoTask(ch, committed, nextId, pairs).value;
    var done := classified.(pc := TwoIn, staged := staged);
    LeadsKeepInv(c, states, With(st, 0, run), With(st.(nextId := nextId'), 0, done));
    FinishedChunk(c, With(st.(nextId := nextId'), 0, done), 0, p);
  }

  lemma InitialInv(c: Code, st: State, run: Run)
    requires Initial(c, st) && st.factories == map[0 := run.pairs] && st.cursors == map[0 := 0]
    requires run == Opening(0, |run.pairs|, 0, run.pairs).(e := |run.pairs|)
    ensures Inv(c, With(st, 0, run))
  {
    assert View(With(st, 0, run), run) == st.table;
    assert run.pairs[0..|run.pairs|] == run.pairs;
  }

  lemma {:induction false} LeadsKeepInv(c: Code, states: seq<State>, st: State, st': State)
    requires Leads(c, states, st, st') && Inv(c, st)
    ensures Inv(c, st')
    decreases |states|
  {
    hide Inv, Next;
    if |states| > 1 {
      var n := |states| - 1;
      var init := states[..n];
      forall i | 0 <= i < |init| - 1
        ensures StepAt(c, init, i)
      {
        assert StepAt(c, states, i);
      }
      LeadsKeepInv(c, init, st, states[n - 1]);
      assert StepAt(c, states, n - 1);
      NextKeepsInv(c, states[n - 1], st');
    }
  }

  lemma NextKeepsInv(c: Code, st: State, st': State)
    requires Inv(c, st) && Next(c, st, st')
    ensures Inv(c, st')
  {
    hide Inv, Enabled, Step;
    var a: Action :| Enabled(c, st, a) && Step(c, st, a) == st';
    StepKeeps(c, st, a);
  }

  lemma FinishedChunk(c: Code, st: State, r: RunId, p: Address)
    requires Inv(c, st) && r in st.runs && st.runs[r].pc == TwoIn && p in st.runs[r].pairs
    ensures var view := View(st, st.runs[r]);
            p in view || HasInvalid(c, st.runs[r].invalid, p) || InactiveComponent(c, view, p)
  {
    RunOkOf(c, st, r);
    var run := st.runs[r];
    if p !in st.table {
      assert Handled(c, View(st, run), run.invalid, run.bulk, run.later, p);
    }
  }
}
