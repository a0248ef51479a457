/** The pair jobs as a transition system: any number of jobs over one token table, any number of runs of each,
    a step at every `await` of `run` and `doTask` (src/scheduler-job/template/pair.template.ts:457-582).
    Nothing excludes overlapping runs: the `process` flag is checked and set in separate steps. */
module PairCrawl {
  import opened Addresses
  import opened Arrays
  import opened CrawlWindow
  import opened PairPipeline

  type JobId = nat
  type RunId = nat

  /** How far a run has come; each name is the last thing it has done. */
  datatype Pc =
    | Ticked | Windowed | Fetched | Opened | Checked | Classified
    | SinglesIn | OneRead | OneIn | TwoRead | TwoIn | CursorIn

  function Rank(pc: Pc): nat {
    match pc
    case Ticked => 0 case Windowed => 1 case Fetched => 2 case Opened => 3 case Checked => 4 case Classified => 5
    case SinglesIn => 6 case OneRead => 7 case OneIn => 8 case TwoRead => 9 case TwoIn => 10 case CursorIn => 11
  }

  /** The local variables of one run and the rows its transaction has staged. */
  datatype Run = Run(
    job: JobId, pc: Pc,
    length: Option<nat>, cursor: Option<nat>, // networkPid and schedulerPid, once read
    s: nat, e: nat, pairs: seq<Address>,
    seenMultis: Option<set<Address>>, seenSingles: Option<set<Address>>, // registered addresses, once read
    multis: seq<Address>, singles: seq<Address>, invalid: seq<Address>,
    bulk: seq<Params>, later: seq<Address>,
    staged: Table)

  /** What committed chunks have handled: the indices of every job, each with the addresses that the chunks which
      handled it classified invalid. */
  type Handling = map<(JobId, nat), set<Address>>

  /** The chain (factory lists and contracts, both growing), the committed store, and the runs in flight. */
  datatype State = State(
    factories: map<JobId, seq<Address>>, contracts: set<Address>,
    table: Table, nextId: nat, cursors: map<JobId, nat>,
    runs: map<RunId, Run>,
    handled: Handling)

  datatype Action =
    | Create(job: JobId, pair: Address)            // the chain: a factory lists one more pair
    | Deploy(contract: Address)                    // the chain: one more address has code
    | Tick(r: RunId, job: JobId)
    | ReadLength(r: RunId, length: nat)            // a lagging node may answer an earlier length
    | ReadCursor(r: RunId)
    | Window(r: RunId)
    | Fetch(r: RunId)
    | Begin(r: RunId)
    | ReadMultis(r: RunId)
    | ReadSingles(r: RunId)
    | CheckContracts(r: RunId)
    | CheckLps(r: RunId)
    | InsertSingles(r: RunId, infos: Address -> Info)
    | LookUpOne(r: RunId, infos: Address -> Info, lookups: seq<Lookup>)
    | InsertOne(r: RunId)
    | LookUpTwo(r: RunId, infos: Address -> Info, lookups: seq<Lookup>)
    | InsertTwo(r: RunId)
    | StageCursor(r: RunId)
    | Commit(r: RunId)
    | Fail(r: RunId)                               // any failure at any point, with rollback
    | Crash                                        // the application dies with all its runs

  function SetRun(st: State, r: RunId, run: Run): State { st.(runs := st.runs[r := run]) }

  function Drop(st: State, r: RunId): State { st.(runs := st.runs - {r}) }

  /** The unique key makes an insert wait for the other open transactions that hold one of its keys. */
  predicate Free(st: State, r: RunId, params: seq<Params>) {
    forall q, i :: q in st.runs && q != r && 0 <= i < |params| ==> params[i].address !in st.runs[q].staged
  }

  function Insert(st: State, r: RunId, params: seq<Params>, run: Run): State {
    var staged := InsertAll(st.table, run.staged, params, st.nextId);
    SetRun(st, r, run.(staged := staged)).(nextId := st.nextId + |params|)
  }

  function Start(job: JobId): Run {
    Run(job, Ticked, None, None, 0, 0, [], None, None, [], [], [], [], [], map[])
  }

  /** What the transaction sees at most: the committed rows and its own. */
  function View(st: State, run: Run): Table { st.table + run.staged }

  predicate At(st: State, r: RunId, pc: Pc) { r in st.runs && st.runs[r].pc == pc }

  function WithChunk(handled: Handling, job: JobId, s: nat, e: nat, invalid: seq<Address>): (r: Handling)
    ensures forall key :: key in r <==> key in handled || InChunk(key, job, s, e)
    ensures forall key :: key in handled ==> handled[key] <= r[key]
    ensures forall key :: InChunk(key, job, s, e) ==> forall x :: x in invalid ==> x in r[key]
    ensures forall key, x :: key in r && x in r[key] ==>
                               (key in handled && x in handled[key]) || (InChunk(key, job, s, e) && x in invalid)
  {
    handled + map k: nat | s <= k < e :: (job, k) :=
                (if (job, k) in handled then handled[(job, k)] else {}) + set x | x in invalid
  }

  predicate InChunk(key: (JobId, nat), job: JobId, s: nat, e: nat) { key.0 == job && s <= key.1 < e }

  predicate Enabled(c: Code, st: State, a: Action) {
    match a
    case Create(job, _) => job in st.factories
    case Deploy(_) => true
    case Tick(r, job) => r !in st.runs && job in st.factories && job in st.cursors
    case ReadLength(r, length) =>
      At(st, r, Ticked) && st.runs[r].job in st.factories && length <= |st.factories[st.runs[r].job]|
    case ReadCursor(r) => At(st, r, Ticked) && st.runs[r].job in st.cursors
    case Window(r) => At(st, r, Ticked) && st.runs[r].length.Some? && st.runs[r].cursor.Some?
    case Fetch(r) => At(st, r, Windowed) && st.runs[r].job in st.factories
                     && st.runs[r].s <= st.runs[r].e <= |st.factories[st.runs[r].job]|
    case Begin(r) => At(st, r, Fetched)
    case ReadMultis(r) => At(st, r, Opened)
    case ReadSingles(r) => At(st, r, Opened)
    case CheckContracts(r) => At(st, r, Opened) && st.runs[r].seenMultis.Some? && st.runs[r].seenSingles.Some?
    case CheckLps(r) => At(st, r, Checked)
    case InsertSingles(r, infos) => At(st, r, Classified) && Free(st, r, SingleParams(st.runs[r].singles, infos))
    case LookUpOne(r, _, lookups) =>
      At(st, r, SinglesIn) && AllSound(c, View(st, st.runs[r]), st.runs[r].multis, lookups)
    case InsertOne(r) => At(st, r, OneRead) && Free(st, r, st.runs[r].bulk)
    case LookUpTwo(r, infos, lookups) =>
      At(st, r, OneIn) && AllSound(c, View(st, st.runs[r]), st.runs[r].later, lookups)
      && PassTwo(c, infos, st.runs[r].later, lookups).Some?
    case InsertTwo(r) => At(st, r, TwoRead) && Free(st, r, st.runs[r].bulk)
    case StageCursor(r) => At(st, r, TwoIn)
    case Commit(r) => At(st, r, CursorIn)
    case Fail(r) => r in st.runs
    case Crash => true
  }

  /** The steps that touch nothing but the run's own variables. */
  predicate Local(st: State, a: Action) {
    || a.ReadLength? || a.ReadCursor? || a.Fetch? || a.Begin? || a.ReadMultis? || a.ReadSingles?
    || a.CheckContracts? || a.CheckLps? || a.LookUpOne? || a.LookUpTwo? || a.StageCursor?
    || (a.Window? && a.r in st.runs && st.runs[a.r].cursor.Some? && st.runs[a.r].length.Some?
        && st.runs[a.r].cursor.value < st.runs[a.r].length.value)
  }

  function Move(c: Code, st: State, a: Action): Run
    requires Enabled(c, st, a) && Local(st, a)
  {
    var run := st.runs[a.r];
    match a
    case ReadLength(_, length) => run.(length := Some(length))
    case ReadCursor(_) => run.(cursor := Some(st.cursors[run.job]))
    case Window(_) =>
      var s, e := run.cursor.value, run.length.value;
      run.(pc := Windowed, s := s, e := WindowEnd(s, e))
    case Fetch(_) => run.(pc := Fetched, pairs := st.factories[run.job][run.s..run.e])
    case Begin(_) => run.(pc := Opened)
    // both reads of the token table bypass the transaction
    case ReadMultis(_) => run.(seenMultis := Some(st.table.Keys))
    case ReadSingles(_) => run.(seenSingles := Some(st.table.Keys))
    case CheckContracts(_) =>
      var multis := NewMultis(c, run.pairs, run.seenMultis.value);
      var rest := Remaining(multis, NewSingles(c, run.pairs, run.seenSingles.value));
      run.(pc := Checked, multis := multis,
           singles := Coded(st.contracts, rest), invalid := Uncoded(st.contracts, rest))
    case CheckLps(_) =>
      run.(pc := Classified,
           singles := Pure(c, run.singles), invalid := run.invalid + LpInSinglePosition(c, run.singles))
    case LookUpOne(_, infos, lookups) =>
      var (bulk, later) := PassOne(c, infos, run.invalid, run.multis, lookups);
      run.(pc := OneRead, bulk := bulk, later := later)
    case LookUpTwo(_, infos, lookups) =>
      run.(pc := TwoRead, bulk := PassTwo(c, infos, run.later, lookups).value, later := [])
    case StageCursor(_) => run.(pc := CursorIn)
  }

  function Step(c: Code, st: State, a: Action): State
    requires Enabled(c, st, a)
  {
    if Local(st, a) then SetRun(st, a.r, Move(c, st, a))
    else
      match a
      case Create(job, pair) => st.(factories := st.factories[job := st.factories[job] + [pair]])
      case Deploy(contract) => st.(contracts := st.contracts + {contract})
      case Tick(r, job) => SetRun(st, r, Start(job))
      case Window(r) => Drop(st, r) // nothing new
      case InsertSingles(r, infos) =>
        Insert(st, r, SingleParams(st.runs[r].singles, infos), st.runs[r].(pc := SinglesIn))
      case InsertOne(r) => Insert(st, r, st.runs[r].bulk, st.runs[r].(pc := OneIn, bulk := []))
      case InsertTwo(r) => Insert(st, r, st.runs[r].bulk, st.runs[r].(pc := TwoIn, bulk := []))
      case Commit(r) =>
        var run := st.runs[r];
        Drop(st, r).(table := st.table + run.staged,
                     cursors := st.cursors[run.job := run.e],
                     handled := WithChunk(st.handled, run.job, run.s, run.e, run.invalid))
      case Fail(r) => Drop(st, r)
      case Crash => st.(runs := map[])
  }

  // ---------- the invariant ----------

  /** What becomes of a pair: it has a row, or one of its tokens was classified invalid or has an inactive row. */
  predicate Accounted(c: Code, table: Table, invalid: set<Address>, pair: Address) {
    || pair in table
    || c.token0(pair) in invalid || c.token1(pair) in invalid
    || InactiveComponent(c, table, pair)
  }

  /** The job's pair at index k was handled by a committed chunk of the job itself, and is accounted for by the store
      and by what chunks that handled it classified. */
  predicate Dealt(c: Code, st: State, job: JobId, k: nat)
    requires job in st.factories && k < |st.factories[job]|
  {
    (job, k) in st.handled && Accounted(c, st.table, st.handled[(job, k)], st.factories[job][k])
  }

  ghost predicate DealtBelow(c: Code, st: State, job: JobId, n: nat) {
    && job in st.factories && n <= |st.factories[job]|
    && forall k :: 0 <= k < n ==> Dealt(c, st, job, k)
  }

  ghost predicate CoverageOk(c: Code, st: State) {
    forall job :: job in st.cursors ==> DealtBelow(c, st, job, st.cursors[job])
  }

  /** The window of a run: what it has read is still true of the chain, and what lies before it is dealt with. */
  ghost predicate WindowOk(c: Code, st: State, run: Run) {
    && run.job in st.factories && run.job in st.cursors
    && var factory := st.factories[run.job];
    && (run.length.Some? ==> run.length.value <= |factory|)
    && (run.cursor.Some? ==> DealtBelow(c, st, run.job, run.cursor.value))
    && (Rank(run.pc) >= 1 ==> run.s <= run.e <= |factory| && DealtBelow(c, st, run.job, run.s))
    && (Rank(run.pc) >= 2 ==> run.pairs == factory[run.s..run.e])
  }

  /** The transaction of a run: only free keys, well-formed rows, and references to rows it can see. */
  ghost predicate StagedOk(c: Code, st: State, run: Run) {
    && run.staged.Keys !! st.table.Keys
    && Fits(c, View(st, run))
    && IdsBelow(run.staged, st.nextId)
    && ParamsFit(c, View(st, run), run.bulk, st.nextId)
    && (Rank(run.pc) < 6 ==> run.staged == map[])
  }

  /** Nothing is lost inside a run: every pair of the chunk has a row or is new, and every new one is handled. */
  ghost predicate ProgressOk(c: Code, st: State, run: Run) {
    && (run.seenMultis.Some? ==> run.seenMultis.value <= st.table.Keys)
    && (Rank(run.pc) >= 4 ==> forall p :: p in run.pairs ==> p in st.table || p in run.multis)
    && (Rank(run.pc) >= 7 ==>
          forall a :: a in run.multis ==> Handled(c, View(st, run), run.invalid, run.bulk, run.later, a))
    && (run.pc !in {OneRead, TwoRead} ==> run.bulk == [])
    && (run.pc !in {OneRead, OneIn} ==> run.later == [])
  }

  ghost predicate RunOk(c: Code, st: State, run: Run) {
    WindowOk(c, st, run) && StagedOk(c, st, run) && ProgressOk(c, st, run)
  }

  ghost predicate StoreOk(c: Code, st: State) {
    && Fits(c, st.table) && IdsBelow(st.table, st.nextId)
    && CoverageOk(c, st)
  }

  ghost predicate Apart(st: State) {
    forall q, r :: q in st.runs && r in st.runs && q != r ==> st.runs[q].staged.Keys !! st.runs[r].staged.Keys
  }

  ghost predicate Inv(c: Code, st: State) {
    && StoreOk(c, st) && Apart(st)
    && forall r :: r in st.runs ==> RunOk(c, st, st.runs[r])
  }

  /** Where it all begins: a well-formed token table, every cursor at zero, no run. */
  ghost predicate Initial(c: Code, st: State) {
    && Fits(c, st.table) && IdsBelow(st.table, st.nextId)
    && st.runs == map[] && st.handled == map[]
    && forall job :: job in st.cursors ==> job in st.factories && st.cursors[job] == 0
  }

  // ---------- every step keeps it ----------

  /** Chain and store only grow; what was true of a run outside its own transaction stays true. */
  ghost predicate Grows(c: Code, st: State, st': State) {
    && Extends(st.table, st'.table) && Fits(c, st'.table)
    && st.nextId <= st'.nextId
    && HandlingGrows(st.handled, st'.handled)
    && st.cursors.Keys <= st'.cursors.Keys
    && (forall job :: job in st.factories ==> job in st'.factories && st.factories[job] <= st'.factories[job])
  }

  predicate HandlingGrows(h: Handling, h': Handling) {
    forall key :: key in h ==> key in h' && h[key] <= h'[key]
  }

  lemma DealtGrows(c: Code, st: State, st': State, job: JobId, n: nat)
    requires Grows(c, st, st') && DealtBelow(c, st, job, n)
    ensures DealtBelow(c, st', job, n)
  {
    hide Fits;
    forall k | 0 <= k < n
      ensures Dealt(c, st', job, k)
    {
      assert Dealt(c, st, job, k);
    }
  }

  lemma WindowGrows(c: Code, st: State, st': State, run: Run)
    requires Grows(c, st, st') && WindowOk(c, st, run)
    ensures WindowOk(c, st', run)
  {
    var factory, factory' := st.factories[run.job], st'.factories[run.job];
    if run.cursor.Some? {
      DealtGrows(c, st, st', run.job, run.cursor.value);
    }
    if Rank(run.pc) >= 1 {
      DealtGrows(c, st, st', run.job, run.s);
    }
    hide DealtBelow, Fits;
    if Rank(run.pc) >= 2 {
      assert factory'[run.s..run.e] == factory[run.s..run.e];
    }
  }

  lemma StagedGrows(c: Code, st: State, st': State, run: Run)
    requires Grows(c, st, st') && StagedOk(c, st, run)
    requires run.staged.Keys !! st'.table.Keys
    ensures StagedOk(c, st', run) && Extends(View(st, run), View(st', run))
  {
    var v, v' := View(st, run), View(st', run);
    assert Extends(v, v');
    forall a | a in v'
      ensures RowFits(c, v', a)
    {
      if a in st'.table {
        assert RowFits(c, st'.table, a);
      } else {
        assert RowFits(c, v, a);
      }
    }
  }

  lemma ProgressGrows(c: Code, st: State, st': State, run: Run)
    requires Extends(st.table, st'.table) && Extends(View(st, run), View(st', run)) && ProgressOk(c, st, run)
    ensures ProgressOk(c, st', run)
  {
    if Rank(run.pc) >= 7 {
      forall a | a in run.multis
        ensures Handled(c, View(st', run), run.invalid, run.bulk, run.later, a)
      {
        StillHandled(c, View(st, run), View(st', run), run.invalid, run.bulk, run.bulk, run.later, run.later, a);
      }
    }
  }

  lemma RunGrows(c: Code, st: State, st': State, run: Run)
    requires Grows(c, st, st') && RunOk(c, st, run) && run.staged.Keys !! st'.table.Keys
    ensures RunOk(c, st', run)
  {
    WindowGrows(c, st, st', run);
    StagedGrows(c, st, st', run);
    ProgressGrows(c, st, st', run);
  }

  lemma CoverageGrows(c: Code, st: State, st': State)
    requires Grows(c, st, st') && CoverageOk(c, st) && st'.cursors == st.cursors
    ensures CoverageOk(c, st')
  {
    forall job | job in st'.cursors
      ensures DealtBelow(c, st', job, st'.cursors[job])
    {
      DealtGrows(c, st, st', job, st.cursors[job]);
    }
  }

  /** A step that leaves the store alone and replaces one run by a run that is all right. */
  lemma ReplaceRun(c: Code, st: State, st': State, r: RunId, run: Run)
    requires Inv(c, st)
    requires st' == SetRun(st, r, run).(nextId := st'.nextId) && st'.nextId >= st.nextId
    requires RunOk(c, st', run)
    requires forall q :: q in st.runs && q != r ==> run.staged.Keys !! st.runs[q].staged.Keys
    ensures Inv(c, st')
  {
    assert Grows(c, st, st');
    CoverageGrows(c, st, st');
    forall q | q in st'.runs
      ensures RunOk(c, st', st'.runs[q])
    {
      if q != r {
        RunGrows(c, st, st', st.runs[q]);
      }
    }
  }

  lemma DropKeeps(c: Code, st: State, runs: map<RunId, Run>)
    requires Inv(c, st) && forall r :: r in runs ==> r in st.runs && runs[r] == st.runs[r]
    ensures Inv(c, st.(runs := runs))
  {
    var st' := st.(runs := runs);
    forall r | r in runs
      ensures RunOk(c, st', runs[r])
    {
      RunGrows(c, st, st', runs[r]);
    }
    CoverageGrows(c, st, st');
  }

  lemma ChainStepKeeps(c: Code, st: State, a: Action)
    requires Inv(c, st) && Enabled(c, st, a) && (a.Create? || a.Deploy?)
    ensures Inv(c, Step(c, st, a))
  {
    hide Fits, IdsBelow, ParamsFit, Handled, DealtBelow, WindowOk, ProgressOk, AllSound, Free;
    var st' := Step(c, st, a);
    assert Grows(c, st, st');
    CoverageGrows(c, st, st');
    forall r | r in st'.runs
      ensures RunOk(c, st', st'.runs[r])
    {
      RunGrows(c, st, st', st.runs[r]);
    }
  }

  lemma TickKeeps(c: Code, st: State, r: RunId, job: JobId)
    requires Inv(c, st) && Enabled(c, st, Tick(r, job))
    ensures Inv(c, SetRun(st, r, Start(job)))
  {
    hide Handled, AllSound, Free, DealtBelow, CoverageOk, PassTwo;
    var run := Start(job);
    var st' := SetRun(st, r, run);
    assert View(st', run) == st.table;
    assert RunOk(c, st', run);
    hide RunOk, StoreOk;
    ReplaceRun(c, st, st', r, run);
  }

  lemma RunOkOf(c: Code, st: State, r: RunId)
    requires Inv(c, st) && r in st.runs
    ensures RunOk(c, st, st.runs[r])
  {
    hide RunOk, StoreOk, Apart;
  }

  lemma OwnStagedApart(c: Code, st: State, r: RunId)
    requires Inv(c, st) && r in st.runs
    ensures forall q :: q in st.runs && q != r ==> st.runs[r].staged.Keys !! st.runs[q].staged.Keys
  {
    hide StoreOk, RunOk;
  }

  lemma DealtElsewhere(c: Code, st: State, runs: map<RunId, Run>, job: JobId, n: nat)
    requires DealtBelow(c, st, job, n)
    ensures DealtBelow(c, st.(runs := runs), job, n)
  {
    forall k | 0 <= k < n
      ensures Dealt(c, st.(runs := runs), job, k)
    {
      assert Dealt(c, st, job, k);
    }
  }

  /** What a run must satisfy does not mention the other runs. */
  lemma RunOkElsewhere(c: Code, st: State, runs: map<RunId, Run>, run: Run)
    requires RunOk(c, st, run)
    ensures RunOk(c, st.(runs := runs), run)
  {
    hide Fits, IdsBelow, ParamsFit, DealtBelow, Handled;
    var st' := st.(runs := runs);
    assert View(st', run) == View(st, run);
    if run.cursor.Some? {
      DealtElsewhere(c, st, runs, run.job, run.cursor.value);
    }
    if Rank(run.pc) >= 1 {
      DealtElsewhere(c, st, runs, run.job, run.s);
    }
  }

  lemma LocalStepKeeps(c: Code, st: State, r: RunId, run': Run)
    requires Inv(c, st) && r in st.runs && run'.staged == st.runs[r].staged && RunOk(c, st, run')
    ensures Inv(c, SetRun(st, r, run'))
  {
    OwnStagedApart(c, st, r);
    RunOkElsewhere(c, st, st.runs[r := run'], run');
    hide Inv, RunOk;
    ReplaceRun(c, st, SetRun(st, r, run'), r, run');
  }

  /** Reads and the window before the classification. */
  lemma ReadMoves(c: Code, st: State, a: Action)
    requires Enabled(c, st, a) && Local(st, a) && RunOk(c, st, st.runs[a.r]) && CoverageOk(c, st)
    requires a.ReadLength? || a.ReadCursor? || a.Window? || a.Fetch? || a.Begin? || a.ReadMultis? || a.ReadSingles?
    ensures RunOk(c, st, Move(c, st, a)) && Move(c, st, a).staged == st.runs[a.r].staged
  {
    hide Fits, IdsBelow, ParamsFit, DealtBelow, Handled, AllSound, Free;
    var run, run' := st.runs[a.r], Move(c, st, a);
    assert View(st, run') == View(st, run);
    assert WindowOk(c, st, run');
    assert StagedOk(c, st, run');
    assert ProgressOk(c, st, run');
  }

  lemma NewMultisExact(c: Code, pairs: seq<Address>, registered: set<Address>)
    ensures forall p :: p in NewMultis(c, pairs, registered) <==> p in pairs && p !in registered
  {
    var infos := MapSeq((p: PairInfo) => p.pair, Composed(c, pairs));
    assert infos == pairs;
    UniqueIsSet(infos);
    FilterMembers(a => a !in registered, Unique(infos));
  }

  lemma ClassifyMoves(c: Code, st: State, a: Action)
    requires Enabled(c, st, a) && Local(st, a) && RunOk(c, st, st.runs[a.r])
    requires a.CheckContracts? || a.CheckLps? || a.StageCursor?
    ensures RunOk(c, st, Move(c, st, a)) && Move(c, st, a).staged == st.runs[a.r].staged
  {
    hide Fits, IdsBelow, ParamsFit, DealtBelow, Handled, AllSound, Free;
    hide NewMultis, NewSingles, Remaining, Coded, Uncoded, Pure, LpInSinglePosition;
    var run, run' := st.runs[a.r], Move(c, st, a);
    if a.CheckContracts? {
      NewMultisExact(c, run.pairs, run.seenMultis.value);
    }
    assert View(st, run') == View(st, run);
    assert WindowOk(c, st, run');
    assert StagedOk(c, st, run');
    assert ProgressOk(c, st, run');
  }

  /** An insert of well-formed rows under keys no other transaction holds. */
  lemma InsertKeeps(c: Code, st: State, r: RunId, params: seq<Params>, run: Run)
    requires Inv(c, st) && r in st.runs && Free(st, r, params)
    requires ParamsFit(c, View(st, st.runs[r]), params, st.nextId)
    requires run.staged == st.runs[r].staged && run.bulk == [] && Rank(run.pc) >= 6
    requires WindowOk(c, st, run)
    requires ProgressOk(c, Insert(st, r, params, run), Insert(st, r, params, run).runs[r])
    ensures Inv(c, Insert(st, r, params, run))
  {
    var st' := Insert(st, r, params, run);
    var run' := st'.runs[r];
    assert RunOk(c, st, st.runs[r]);
    InsertAllExact(st.table, run.staged, params, st.nextId);
    InsertAllFits(c, st.table, run.staged, params, st.nextId);
    InsertAllIds(st.table, run.staged, params, st.nextId);
    assert Grows(c, st, st');
    WindowGrows(c, st, st', run);
    assert WindowOk(c, st', run');
    forall q | q in st.runs && q != r
      ensures run'.staged.Keys !! st.runs[q].staged.Keys
    {
      assert st.runs[r].staged.Keys !! st.runs[q].staged.Keys;
      forall x | x in run'.staged && x !in run.staged
        ensures x !in st.runs[q].staged
      {
        assert Written(params, st.nextId, x, run'.staged[x]);
      }
    }
    ReplaceRun(c, st, st', r, run');
  }

  lemma InsertedIsThere(c: Code, table: Table, staged: Table, params: seq<Params>, nextId: nat,
                        invalid: seq<Address>, later: seq<Address>, a: Address)
    requires Handled(c, table + staged, invalid, params, later, a)
    ensures Handled(c, table + InsertAll(table, staged, params, nextId), invalid, [], later, a)
  {
    InsertAllExact(table, staged, params, nextId);
    var t, t' := table + staged, table + InsertAll(table, staged, params, nextId);
    if InParams(params, a) {
      var i :| 0 <= i < |params| && params[i].address == a;
      assert a in t';
    } else if InactiveComponent(c, t, a) {
      ComponentsKept(c, table, staged, InsertAll(table, staged, params, nextId), a);
    }
  }

  lemma ComponentsKept(c: Code, table: Table, staged: Table, staged': Table, a: Address)
    requires Extends(staged, staged') && (forall x :: x in staged' && x !in staged ==> x !in table)
    requires InactiveComponent(c, table + staged, a)
    ensures InactiveComponent(c, table + staged', a)
  {
  }

  lemma InsertProgress(c: Code, st: State, r: RunId, params: seq<Params>, run: Run)
    requires r in st.runs && ProgressOk(c, st, st.runs[r])
    requires run == st.runs[r].(pc := run.pc, bulk := []) && Rank(run.pc) >= 6
    requires run.pc == SinglesIn <==> st.runs[r].pc == Classified
    requires run.pc == OneIn <==> st.runs[r].pc == OneRead
    requires run.pc == TwoIn <==> st.runs[r].pc == TwoRead
    requires run.pc in {SinglesIn, OneIn, TwoIn} && (run.pc != SinglesIn ==> params == st.runs[r].bulk)
    ensures ProgressOk(c, Insert(st, r, params, run), Insert(st, r, params, run).runs[r])
  {
    var st' := Insert(st, r, params, run);
    var before, after := st.runs[r], st'.runs[r];
    if run.pc != SinglesIn {
      forall x | x in after.multis
        ensures Handled(c, View(st', after), after.invalid, [], after.later, x)
      {
        assert Handled(c, View(st, before), before.invalid, before.bulk, before.later, x);
        InsertedIsThere(c, st.table, run.staged, params, st.nextId, run.invalid, run.later, x);
      }
    }
    hide InsertAll, Handled;
  }

  function Inserting(st: State, a: Action): (seq<Params>, Run)
    requires (a.InsertSingles? || a.InsertOne? || a.InsertTwo?) && a.r in st.runs
  {
    var run := st.runs[a.r];
    if a.InsertSingles? then (SingleParams(run.singles, a.infos), run.(pc := SinglesIn))
    else (run.bulk, run.(pc := if a.InsertOne? then OneIn else TwoIn, bulk := []))
  }

  lemma InsertMoves(c: Code, st: State, a: Action)
    requires Enabled(c, st, a) && (a.InsertSingles? || a.InsertOne? || a.InsertTwo?) && RunOk(c, st, st.runs[a.r])
    ensures var (params, run) := Inserting(st, a);
            && Step(c, st, a) == Insert(st, a.r, params, run)
            && Free(st, a.r, params)
            && ParamsFit(c, View(st, st.runs[a.r]), params, st.nextId)
            && run.staged == st.runs[a.r].staged && run.bulk == [] && Rank(run.pc) >= 6
            && WindowOk(c, st, run)
            && ProgressOk(c, Insert(st, a.r, params, run), Insert(st, a.r, params, run).runs[a.r])
  {
    hide Fits, ParamsFit, Handled, InsertAll, DealtBelow, AllSound, PassTwo, Free, SingleParams;
    var (params, moved) := Inserting(st, a);
    var run := st.runs[a.r];
    if a.InsertSingles? {
      BulkEmptyBefore(c, st, run);
      SinglesReferToNothing(c, View(st, run), run.singles, a.infos, st.nextId);
      assert moved == run.(pc := SinglesIn, bulk := []);
    }
    assert WindowOk(c, st, moved);
    hide ProgressOk, WindowOk;
    InsertProgress(c, st, a.r, params, moved);
  }

  lemma InsertStepKeeps(c: Code, st: State, a: Action)
    requires Inv(c, st) && Enabled(c, st, a) && (a.InsertSingles? || a.InsertOne? || a.InsertTwo?)
    ensures Inv(c, Step(c, st, a))
  {
    hide Inv, RunOk, WindowOk, ProgressOk, ParamsFit, Free, AllSound, PassTwo, Insert, SingleParams, Inserting, Step;
    RunOkOf(c, st, a.r);
    InsertMoves(c, st, a);
    InsertKeeps(c, st, a.r, Inserting(st, a).0, Inserting(st, a).1);
  }

  lemma BulkEmptyBefore(c: Code, st: State, run: Run)
    requires ProgressOk(c, st, run) && run.pc == Classified
    ensures run.bulk == []
  {
  }

  lemma SinglesReferToNothing(c: Code, t: Table, singles: seq<Address>, infos: Address -> Info, nextId: nat)
    ensures ParamsFit(c, t, SingleParams(singles, infos), nextId)
  {
  }

  lemma ViewIdsBelow(c: Code, st: State, run: Run)
    requires IdsBelow(st.table, st.nextId) && StagedOk(c, st, run)
    ensures IdsBelow(View(st, run), st.nextId)
  {
    hide Fits, ParamsFit;
  }

  lemma LookUpOneMoves(c: Code, st: State, a: Action)
    requires Enabled(c, st, a) && a.LookUpOne? && RunOk(c, st, st.runs[a.r]) && IdsBelow(st.table, st.nextId)
    ensures RunOk(c, st, Move(c, st, a)) && Move(c, st, a).staged == st.runs[a.r].staged
  {
    hide Fits, ParamsFit, Handled, DealtBelow, PassOne, PassTwo, IdsBelow, AllSound, Free;
    var run, run' := st.runs[a.r], Move(c, st, a);
    ViewIdsBelow(c, st, run);
    PassOneExact(c, View(st, run), st.nextId, a.infos, run.invalid, run.multis, a.lookups);
    assert View(st, run') == View(st, run);
    assert WindowOk(c, st, run');
    assert StagedOk(c, st, run');
    assert ProgressOk(c, st, run');
  }

  lemma LookUpTwoMoves(c: Code, st: State, a: Action)
    requires Enabled(c, st, a) && a.LookUpTwo? && RunOk(c, st, st.runs[a.r]) && IdsBelow(st.table, st.nextId)
    ensures RunOk(c, st, Move(c, st, a)) && Move(c, st, a).staged == st.runs[a.r].staged
  {
    hide Fits, ParamsFit, Handled, DealtBelow, PassOne, PassTwo, IdsBelow, AllSound, Free, InactiveComponent, InParams;
    var run, run' := st.runs[a.r], Move(c, st, a);
    ViewIdsBelow(c, st, run);
    PassTwoExact(c, View(st, run), st.nextId, a.infos, run.later, a.lookups);
    LaterBecomesBulk(c, View(st, run), run.invalid, run.later, run'.bulk, run.multis);
    assert View(st, run') == View(st, run);
    assert WindowOk(c, st, run');
    assert StagedOk(c, st, run');
    assert ProgressOk(c, st, run');
  }

  lemma LocalKeeps(c: Code, st: State, a: Action)
    requires Inv(c, st) && Enabled(c, st, a) && Local(st, a)
    ensures Inv(c, Step(c, st, a))
  {
    hide RunOk, CoverageOk, Fits, Apart, IdsBelow, AllSound, PassTwo, Free;
    RunOkOf(c, st, a.r);
    if a.LookUpOne? {
      LookUpOneMoves(c, st, a);
    } else if a.LookUpTwo? {
      LookUpTwoMoves(c, st, a);
    } else if a.CheckContracts? || a.CheckLps? || a.StageCursor? {
      ClassifyMoves(c, st, a);
    } else {
      ReadMoves(c, st, a);
    }
    hide Inv, Move;
    LocalStepKeeps(c, st, a.r, Move(c, st, a));
  }

  lemma LaterBecomesBulk(c: Code, t: Table, invalid: seq<Address>, later: seq<Address>, bulk: seq<Params>,
                         multis: seq<Address>)
    requires forall a :: a in multis ==> Handled(c, t, invalid, [], later, a)
    requires forall i :: 0 <= i < |later| ==> InactiveComponent(c, t, later[i]) || InParams(bulk, later[i])
    ensures forall a :: a in multis ==> Handled(c, t, invalid, bulk, [], a)
  {
    forall a | a in multis
      ensures Handled(c, t, invalid, bulk, [], a)
    {
      assert Handled(c, t, invalid, [], later, a);
    }
  }

  /** At commit every pair of the window is accounted for by what becomes visible in the same instant. */
  lemma ChunkAccounted(c: Code, st: State, run: Run, table: Table, invalid: set<Address>)
    requires RunOk(c, st, run) && run.pc == CursorIn
    requires table == View(st, run) && forall a :: a in run.invalid ==> a in invalid
    ensures forall p :: p in run.pairs ==> Accounted(c, table, invalid, p)
  {
    forall p | p in run.pairs
      ensures Accounted(c, table, invalid, p)
    {
      if p !in st.table {
        assert Handled(c, View(st, run), run.invalid, run.bulk, run.later, p);
      }
    }
  }

  lemma CommitGrows(c: Code, st: State, r: RunId)
    requires Inv(c, st) && Enabled(c, st, Commit(r))
    ensures Grows(c, st, Step(c, st, Commit(r)))
    ensures IdsBelow(Step(c, st, Commit(r)).table, st.nextId)
  {
    hide Inv, Fits, Extends, IdsBelow, HandlingGrows, RunOk;
    var run := st.runs[r];
    CommittedTable(c, st, r);
    ChunkRecorded(st.handled, run.job, run.s, run.e, run.invalid);
    hide WithChunk;
  }

  lemma CommittedTable(c: Code, st: State, r: RunId)
    requires Inv(c, st) && r in st.runs
    ensures var table := st.table + st.runs[r].staged;
            Extends(st.table, table) && Fits(c, table) && IdsBelow(table, st.nextId)
  {
    hide Fits, ParamsFit, DealtBelow, CoverageOk, WindowOk, ProgressOk, Apart;
    RunOkOf(c, st, r);
    hide Inv;
  }

  lemma ChunkRecorded(handled: Handling, job: JobId, s: nat, e: nat, invalid: seq<Address>)
    ensures HandlingGrows(handled, WithChunk(handled, job, s, e, invalid))
  {
  }

  lemma CommitStepKeeps(c: Code, st: State, r: RunId)
    requires Inv(c, st) && Enabled(c, st, Commit(r))
    ensures Inv(c, Step(c, st, Commit(r)))
  {
    hide ParamsFit, Handled, DealtBelow, AllSound, Free, Fits, IdsBelow, WindowOk, ProgressOk, WithChunk, Grows;
    var st' := Step(c, st, Commit(r));
    var run := st.runs[r];
    CommitGrows(c, st, r);
    CommitCoverage(c, st, r);
    forall q | q in st'.runs
      ensures RunOk(c, st', st'.runs[q])
    {
      RunOkOf(c, st, q);
      assert st.runs[q].staged.Keys !! run.staged.Keys;
      RunGrows(c, st, st', st.runs[q]);
    }
  }

  lemma CommitCoverage(c: Code, st: State, r: RunId)
    requires Inv(c, st) && Enabled(c, st, Commit(r)) && Grows(c, st, Step(c, st, Commit(r)))
    ensures CoverageOk(c, Step(c, st, Commit(r)))
  {
    var st' := Step(c, st, Commit(r));
    RunOkOf(c, st, r);
    hide RunOk, Grows, Apart, Fits, IdsBelow, DealtBelow;
    forall job | job in st'.cursors
      ensures DealtBelow(c, st', job, st'.cursors[job])
    {
      if job == st.runs[r].job {
        OwnCoverage(c, st, r);
      } else {
        DealtGrows(c, st, st', job, st.cursors[job]);
      }
    }
  }

  lemma OwnCoverage(c: Code, st: State, r: RunId)
    requires Enabled(c, st, Commit(r)) && RunOk(c, st, st.runs[r]) && Grows(c, st, Step(c, st, Commit(r)))
    ensures DealtBelow(c, Step(c, st, Commit(r)), st.runs[r].job, st.runs[r].e)
  {
    var st', run := Step(c, st, Commit(r)), st.runs[r];
    assert WindowOk(c, st, run);
    DealtGrows(c, st, st', run.job, run.s);
    hide StagedOk, ProgressOk, Fits, Accounted;
    forall k | run.s <= k < run.e
      ensures Dealt(c, st', run.job, k)
    {
      assert InChunk((run.job, k), run.job, run.s, run.e);
      assert st'.factories[run.job][k] == run.pairs[k - run.s];
      ChunkAccounted(c, st, run, st'.table, st'.handled[(run.job, k)]);
    }
  }

  lemma StepKeeps(c: Code, st: State, a: Action)
    requires Inv(c, st) && Enabled(c, st, a)
    ensures Inv(c, Step(c, st, a))
  {
    hide Inv;
    if Local(st, a) {
      LocalKeeps(c, st, a);
    } else {
      match a
      case Create(_, _) => ChainStepKeeps(c, st, a);
      case Deploy(_) => ChainStepKeeps(c, st, a);
      case Tick(r, job) => TickKeeps(c, st, r, job);
      case Window(r) => DropKeeps(c, st, st.runs - {r});
      case InsertSingles(_, _) => InsertStepKeeps(c, st, a);
      case InsertOne(_) => InsertStepKeeps(c, st, a);
      case InsertTwo(_) => InsertStepKeeps(c, st, a);
      case Commit(r) => CommitStepKeeps(c, st, r);
      case Fail(r) => DropKeeps(c, st, st.runs - {r});
      case Crash => DropKeeps(c, st, map[]);
    }
  }

  // ---------- behaviours ----------

  /** A behaviour: any sequence of states that starts in an initial one and goes on by enabled steps. */
  ghost predicate Behaviour(c: Code, states: seq<State>) {
    && states != [] && Initial(c, states[0])
    && forall i :: 0 <= i < |states| - 1 ==> StepAt(c, states, i)
  }

  ghost predicate StepAt(c: Code, states: seq<State>, i: nat)
    requires i < |states| - 1
  {
    Next(c, states[i], states[i + 1])
  }

  ghost predicate Next(c: Code, st: State, st': State) {
    exists a: Action :: Enabled(c, st, a) && Step(c, st, a) == st'
  }

  lemma {:induction false} AlwaysInv(c: Code, states: seq<State>, i: nat)
    requires Behaviour(c, states) && i < |states|
    ensures Inv(c, states[i])
  {
    if i > 0 {
      AlwaysInv(c, states, i - 1);
      assert StepAt(c, states, i - 1);
      var a: Action :| Enabled(c, states[i - 1], a) && Step(c, states[i - 1], a) == states[i];
      StepKeeps(c, states[i - 1], a);
    }
  }

  /** Coverage survives every interleaving of overlapping runs, failures, crashes and cursor regressions: no
      cursor passes the factory's length, and every pair below a cursor was handled by a committed chunk of its own
      job and is accounted for, by its row, by an inactive component, or by what those chunks classified. */
  lemma CoverageAlways(c: Code, states: seq<State>, i: nat, job: JobId)
    requires Behaviour(c, states) && i < |states| && job in states[i].cursors
    ensures var st := states[i];
            && job in st.factories && st.cursors[job] <= |st.factories[job]|
            && forall k :: 0 <= k < st.cursors[job] ==>
                             (job, k) in st.handled
                             && Accounted(c, st.table, st.handled[(job, k)], st.factories[job][k])
  {
    AlwaysInv(c, states, i);
    var st := states[i];
    hide RunOk, Behaviour, Fits;
    assert DealtBelow(c, st, job, st.cursors[job]);
    forall k | 0 <= k < st.cursors[job]
      ensures (job, k) in st.handled && Accounted(c, st.table, st.handled[(job, k)], st.factories[job][k])
    {
      assert Dealt(c, st, job, k);
    }
  }

  /** The run commits between the two states. */
  predicate Commits(c: Code, st: State, st': State, r: RunId)
    ensures Commits(c, st, st', r) ==> r in st.runs
  {
    Enabled(c, st, Commit(r)) && Step(c, st, Commit(r)) == st'
  }

  predicate CommitsAt(c: Code, states: seq<State>, n: nat, r: RunId)
    requires n < |states| - 1
    ensures CommitsAt(c, states, n, r) ==> r in states[n].runs
  {
    Commits(c, states[n], states[n + 1], r)
  }

  /** Some step before i committed a chunk of the job whose window holds k. */
  ghost predicate CommittedChunk(c: Code, states: seq<State>, i: nat, key: (JobId, nat))
    requires i < |states|
  {
    exists n, r :: 0 <= n < i && CommitsAt(c, states, n, r) && ChunkOf(states[n].runs[r], key)
  }

  predicate ChunkOf(run: Run, key: (JobId, nat)) { InChunk(key, run.job, run.s, run.e) }

  /** Some step before i committed a chunk of the job that holds k and had classified x invalid. */
  ghost predicate ClassifiedBy(c: Code, states: seq<State>, i: nat, key: (JobId, nat), x: Address)
    requires i < |states|
  {
    exists n, r :: 0 <= n < i && CommitsAt(c, states, n, r)
                   && ChunkOf(states[n].runs[r], key) && x in states[n].runs[r].invalid
  }

  /** `handled` is what it says: an index is in it iff a chunk of the job that holds it was committed, and an address
      is recorded for the index iff such a chunk classified it invalid. */
  lemma {:induction false} HandledByACommit(c: Code, states: seq<State>, i: nat, key: (JobId, nat), x: Address)
    requires Behaviour(c, states) && i < |states|
    ensures key in states[i].handled <==> CommittedChunk(c, states, i, key)
    ensures key in states[i].handled && x in states[i].handled[key] <==> ClassifiedBy(c, states, i, key, x)
  {
    if i > 0 {
      HandledByACommit(c, states, i - 1, key, x);
      assert StepAt(c, states, i - 1);
      StepHandles(c, states[i - 1], states[i], key, x);
      MoreChunks(c, states, i - 1, key, x);
    }
  }

  lemma MoreChunks(c: Code, states: seq<State>, n: nat, key: (JobId, nat), x: Address)
    requires n + 1 < |states|
    ensures CommittedChunk(c, states, n + 1, key) <==>
            CommittedChunk(c, states, n, key)
            || exists r :: Commits(c, states[n], states[n + 1], r) && ChunkOf(states[n].runs[r], key)
    ensures ClassifiedBy(c, states, n + 1, key, x) <==>
            ClassifiedBy(c, states, n, key, x)
            || exists r :: Commits(c, states[n], states[n + 1], r)
                           && ChunkOf(states[n].runs[r], key) && x in states[n].runs[r].invalid
  {
    hide Commits, ChunkOf;
    forall r
      ensures CommitsAt(c, states, n, r) <==> Commits(c, states[n], states[n + 1], r)
    {
    }
  }

  lemma StepHandles(c: Code, st: State, st': State, key: (JobId, nat), x: Address)
    requires Next(c, st, st')
    ensures key in st'.handled <==>
            key in st.handled || exists r :: Commits(c, st, st', r) && ChunkOf(st.runs[r], key)
    ensures key in st'.handled && x in st'.handled[key] <==>
            (key in st.handled && x in st.handled[key])
            || exists r :: Commits(c, st, st', r) && ChunkOf(st.runs[r], key) && x in st.runs[r].invalid
  {
    forall r | Commits(c, st, st', r)
      ensures st'.handled == WithChunk(st.handled, st.runs[r].job, st.runs[r].s, st.runs[r].e, st.runs[r].invalid)
    {
      CommitHandles(c, st, r);
    }
    var a: Action :| Enabled(c, st, a) && Step(c, st, a) == st';
    if a.Commit? {
      assert Commits(c, st, st', a.r);
    } else {
      OnlyCommitsWrite(c, st, a);
    }
    hide Commits, Enabled, Step;
  }

  lemma CommitHandles(c: Code, st: State, r: RunId)
    requires Enabled(c, st, Commit(r))
    ensures Step(c, st, Commit(r)).handled
         == WithChunk(st.handled, st.runs[r].job, st.runs[r].s, st.runs[r].e, st.runs[r].invalid)
  {
  }

  lemma OnlyCommitsWrite(c: Code, st: State, a: Action)
    requires Enabled(c, st, a) && !a.Commit?
    ensures Step(c, st, a).table == st.table && Step(c, st, a).handled == st.handled
  {
    hide AllSound, Free, PassTwo, Move, InsertAll, SingleParams;
  }

  lemma StepForgetsNothing(c: Code, st: State, a: Action)
    requires Inv(c, st) && Enabled(c, st, a)
    ensures Extends(st.table, Step(c, st, a).table) && HandlingGrows(st.handled, Step(c, st, a).handled)
  {
    hide Inv, Step, Enabled, Fits;
    if a.Commit? {
      CommitGrows(c, st, a.r);
    } else {
      OnlyCommitsWrite(c, st, a);
    }
  }

  lemma NextForgetsNothing(c: Code, st: State, st': State)
    requires Inv(c, st) && Next(c, st, st')
    ensures Extends(st.table, st'.table) && HandlingGrows(st.handled, st'.handled)
  {
    hide Inv, Enabled, Step, Extends;
    var a: Action :| Enabled(c, st, a) && Step(c, st, a) == st';
    StepForgetsNothing(c, st, a);
  }

  lemma ExtendsTransitive(t: Table, t': Table, t'': Table)
    requires Extends(t, t') && Extends(t', t'')
    ensures Extends(t, t'')
  {
  }

  /** Committed rows are never lost or changed, so a pair once accounted for stays accounted for. */
  lemma {:induction false} NothingIsForgotten(c: Code, states: seq<State>, i: nat, j: nat)
    requires Behaviour(c, states) && i <= j < |states|
    ensures Extends(states[i].table, states[j].table) && HandlingGrows(states[i].handled, states[j].handled)
    decreases j
  {
    if i < j {
      NothingIsForgotten(c, states, i, j - 1);
      AlwaysInv(c, states, j - 1);
      hide Inv, Next, Extends;
      assert StepAt(c, states, j - 1);
      NextForgetsNothing(c, states[j - 1], states[j]);
      ExtendsTransitive(states[i].table, states[j - 1].table, states[j].table);
    }
  }

  // ---------- composition of tokens ----------

  /** b is one of the two tokens row a says it is composed of. */
  predicate ComponentOf(t: Table, a: Address, b: Address) {
    a in t && b in t && t[a].kind == MULTI && (t[a].pair0 == Some(t[b].id) || t[a].pair1 == Some(t[b].id))
  }

  predicate Path(t: Table, path: seq<Address>) {
    forall i :: 0 <= i < |path| - 1 ==> ComponentOf(t, path[i], path[i + 1])
  }

  lemma {:induction false} IdsDecrease(c: Code, t: Table, path: seq<Address>)
    requires Fits(c, t) && |path| >= 2 && Path(t, path)
    ensures path[0] in t && path[|path| - 1] in t && t[path[|path| - 1]].id < t[path[0]].id
  {
    assert ComponentOf(t, path[0], path[1]) && RowFits(c, t, path[0]);
    if |path| > 2 {
      assert forall i :: 0 <= i < |path[1..]| - 1 ==> ComponentOf(t, path[1..][i], path[1..][i + 1]);
      IdsDecrease(c, t, path[1..]);
    }
  }

  /** In every reachable state the composition graph is well-founded: following pair0 and pair1 always leads to
      smaller ids, so no token is built, directly or through others, from itself; both components of a MULTI
      row are there and are the rows of the two tokens its own contract names. */
  lemma CompositionWellFounded(c: Code, states: seq<State>, i: nat)
    requires Behaviour(c, states) && i < |states|
    ensures var t := states[i].table;
            && (forall path :: |path| >= 2 && Path(t, path) ==> path[0] != path[|path| - 1])
            && forall a :: a in t && t[a].kind == MULTI ==>
                             c.token0(a) in t && c.token1(a) in t
                             && t[a].pair0 == Some(t[c.token0(a)].id) && t[a].pair1 == Some(t[c.token1(a)].id)
                             && t[c.token0(a)].id < t[a].id && t[c.token1(a)].id < t[a].id
  {
    AlwaysInv(c, states, i);
    var t := states[i].table;
    assert Fits(c, t);
    forall path | |path| >= 2 && Path(t, path)
      ensures path[0] != path[|path| - 1]
    {
      IdsDecrease(c, t, path);
    }
    forall a | a in t && t[a].kind == MULTI
      ensures Refers(c, t, a, t[a].pair0, t[a].pair1, t[a].id)
    {
      assert RowFits(c, t, a);
    }
  }

  // ---------- when a cursor goes back ----------

  /** A run past its window holds the window of what it has read. */
  predicate WindowRead(run: Run) {
    Rank(run.pc) >= 1 ==>
      && run.length.Some? && run.cursor.Some?
      && run.s == run.cursor.value < run.length.value && run.e == WindowEnd(run.s, run.length.value)
  }

  predicate WindowsRead(st: State) {
    forall r :: r in st.runs ==> WindowRead(st.runs[r])
  }

  lemma MoveReadsWindow(c: Code, st: State, a: Action)
    requires Enabled(c, st, a) && Local(st, a) && WindowRead(st.runs[a.r])
    ensures WindowRead(Move(c, st, a))
  {
    hide AllSound, Free, PassOne, PassTwo;
    hide NewMultis, NewSingles, Remaining, Coded, Uncoded, Pure, LpInSinglePosition;
  }

  lemma StepReadsWindows(c: Code, st: State, a: Action)
    requires WindowsRead(st) && Enabled(c, st, a)
    ensures WindowsRead(Step(c, st, a))
  {
    hide AllSound, Free, PassTwo, Move, InsertAll, SingleParams, WithChunk;
    if Local(st, a) {
      MoveReadsWindow(c, st, a);
      hide Enabled, WindowRead, Local;
    } else if a.InsertSingles? || a.InsertOne? || a.InsertTwo? {
      assert WindowRead(st.runs[a.r]);
    } else {
      hide WindowRead;
      assert a.Tick? ==> WindowRead(Start(a.job)) by { StartReadsNothing(); }
    }
  }

  lemma StartReadsNothing()
    ensures forall job :: WindowRead(Start(job))
  {
  }

  lemma {:induction false} AlwaysWindowsRead(c: Code, states: seq<State>, i: nat)
    requires Behaviour(c, states) && i < |states|
    ensures WindowsRead(states[i])
  {
    if i > 0 {
      AlwaysWindowsRead(c, states, i - 1);
      assert StepAt(c, states, i - 1);
      var a: Action :| Enabled(c, states[i - 1], a) && Step(c, states[i - 1], a) == states[i];
      hide Enabled, Step, WindowsRead;
      StepReadsWindows(c, states[i - 1], a);
    }
  }

  lemma OnlyCommitsMoveCursors(c: Code, st: State, a: Action)
    requires Enabled(c, st, a) && !a.Commit?
    ensures Step(c, st, a).cursors == st.cursors
  {
    hide AllSound, Free, PassTwo, Move, InsertAll, SingleParams;
  }

  /** A run of the job that has read an earlier cursor or a shorter list, so that its window ends below the cursor. */
  predicate EndsBelow(st: State, r: RunId, job: JobId)
    requires r in st.runs && job in st.cursors
  {
    var run := st.runs[r];
    && run.job == job && run.cursor.Some? && run.length.Some?
    && WindowEnd(run.cursor.value, run.length.value) < st.cursors[job]
  }

  /** The cursor of a job is not monotone. In every behaviour a step lowers it iff the step commits a run of the job
      whose window, computed from the cursor and the length it read, ends below the committed cursor. A run that
      commits while the cursor it read is still the committed one always raises it. */
  lemma CursorFallsExactly(c: Code, states: seq<State>, i: nat, job: JobId)
    requires Behaviour(c, states) && i + 1 < |states| && job in states[i].cursors
    ensures job in states[i + 1].cursors
    ensures states[i + 1].cursors[job] < states[i].cursors[job] <==>
            exists r :: CommitsAt(c, states, i, r) && EndsBelow(states[i], r, job)
    ensures forall r :: CommitsAt(c, states, i, r) && states[i].runs[r].job == job
                        && states[i].runs[r].cursor == Some(states[i].cursors[job]) ==>
                          states[i + 1].cursors[job] > states[i].cursors[job]
  {
    var st, st' := states[i], states[i + 1];
    AlwaysWindowsRead(c, states, i);
    assert StepAt(c, states, i);
    var a: Action :| Enabled(c, st, a) && Step(c, st, a) == st';
    forall r | CommitsAt(c, states, i, r)
      ensures st'.cursors == st.cursors[st.runs[r].job := st.runs[r].e]
      ensures WindowRead(st.runs[r]) && Rank(st.runs[r].pc) >= 1
    {
      CommitMovesCursor(c, st, r);
    }
    if a.Commit? {
      assert CommitsAt(c, states, i, a.r);
    } else {
      OnlyCommitsMoveCursors(c, st, a);
    }
    hide CommitsAt, Behaviour, Enabled, Step, WindowsRead;
  }

  lemma CommitMovesCursor(c: Code, st: State, r: RunId)
    requires WindowsRead(st) && Enabled(c, st, Commit(r))
    ensures Step(c, st, Commit(r)).cursors == st.cursors[st.runs[r].job := st.runs[r].e]
    ensures WindowRead(st.runs[r]) && Rank(st.runs[r].pc) >= 1
  {
  }
}
