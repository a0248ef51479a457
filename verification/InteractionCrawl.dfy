/** The block-window crawl of src/scheduler-job/template/interaction.template.ts. The network is fixed, so a row
    is its key: sender and contract. */
module InteractionCrawl {
  import opened Addresses
  import opened Arrays
  import opened CrawlWindow

  /** `to` is null for a transaction that creates a contract. */
  datatype Transaction = Transaction(sender: Address, to: Option<Address>)
  type Block = seq<Transaction>
  datatype Key = Key(fromAddress: Address, toAddress: Option<Address>)

  /** `parseContractInteractionTransaction`: a null receiver is looked up as the zero address. */
  predicate Targets(contracts: set<Address>, t: Transaction) {
    (if t.to.None? then ZERO_ADDRESS else t.to.value) in contracts
  }

  function Interactions(contracts: set<Address>, transactions: Block): seq<Key> {
    MapSeq((t: Transaction) => Key(t.sender, t.to), Filter(t => Targets(contracts, t), transactions))
  }

  lemma InteractionsExact(contracts: set<Address>, transactions: Block, k: Key)
    ensures k in Interactions(contracts, transactions) <==>
              exists i :: 0 <= i < |transactions|
                          && (if transactions[i].to == None then 0 else transactions[i].to.value) in contracts
                          && k == Key(transactions[i].sender, transactions[i].to)
    ensures ZERO_ADDRESS !in contracts && k in Interactions(contracts, transactions) ==>
              k.toAddress.Some? && k.toAddress.value in contracts
  {
    var chosen := Filter(t => Targets(contracts, t), transactions);
    FilterMembers(t => Targets(contracts, t), transactions);
    if k in Interactions(contracts, transactions) {
      var i :| 0 <= i < |chosen| && k == Key(chosen[i].sender, chosen[i].to);
      assert chosen[i] in chosen;
      var j :| 0 <= j < |transactions| && transactions[j] == chosen[i];
    }
    if i :| 0 <= i < |transactions| && Targets(contracts, transactions[i])
            && k == Key(transactions[i].sender, transactions[i].to) {
      assert transactions[i] in transactions && transactions[i] in chosen;
      var j :| 0 <= j < |chosen| && chosen[j] == transactions[i];
      assert Interactions(contracts, transactions)[j] == k;
    }
  }

  /** Insert or ignore on the unique key. */
  function InsertIgnore(committed: multiset<Key>, staged: multiset<Key>, keys: seq<Key>): multiset<Key> {
    if keys == [] then staged
    else
      var before := InsertIgnore(committed, staged, keys[..|keys| - 1]);
      var k := keys[|keys| - 1];
      if k in committed || k in before then before else before + multiset{k}
  }

  ghost predicate Once(rows: multiset<Key>) { forall k: Key :: rows[k] <= 1 }

  lemma {:induction false} InsertIgnoreExact(committed: multiset<Key>, staged: multiset<Key>, keys: seq<Key>)
    requires Once(committed + staged)
    ensures var r := InsertIgnore(committed, staged, keys);
            && Once(committed + r)
            && forall k :: k in committed + r <==> k in committed || k in staged || k in keys
  {
    if keys != [] {
      var init, last := keys[..|keys| - 1], keys[|keys| - 1];
      InsertIgnoreExact(committed, staged, init);
      assert keys == init + [last];
      assert forall k :: k in InsertIgnore(committed, staged, init) <==>
                           InsertIgnore(committed, staged, init)[k] > 0;
    }
  }

  // ---------- the transition system ----------

  type RunId = nat

  datatype Pc = Ticked | Windowed | Fetched | Opened | Inserted

  /** A run: what it has read, the blocks of its window whose entry is an error or missing from the batch, those
      parsed so far with the contracts known at that moment, and its transaction. */
  datatype Run = Run(
    pc: Pc, head: Option<nat>, cursor: Option<nat>, s: nat, e: nat, errors: set<nat>, missing: set<nat>,
    parsed: set<(nat, set<Address>)>, bulkParams: seq<Key>, staged: multiset<Key>)

  /** A committed window and the blocks its batch had no entry for. */
  datatype Batch = Batch(s: nat, e: nat, missing: set<nat>)

  /** `checked` and `failed` record, for committed windows, which block was parsed against which contracts and
      which block answered with an error. */
  datatype State = State(
    blocks: seq<Block>, contracts: set<Address>,
    rows: multiset<Key>, cursor: nat, runs: map<RunId, Run>,
    checked: set<(nat, set<Address>)>, failed: set<nat>, batches: seq<Batch>)

  datatype Action =
    | Mine(mined: Block)
    | Deploy(contract: Address)
    | Tick(r: RunId)
    | ReadCursor(r: RunId)
    | ReadHead(r: RunId, head: nat)                 // a lagging node may answer an earlier head
    | Window(r: RunId)
    | Fetch(r: RunId, errors: set<nat>, missing: set<nat>) // entries may be errors; nobody counts them
    | Parse(r: RunId, block: nat)                   // one entry, in any order
    | Begin(r: RunId)
    | Insert(r: RunId)
    | Commit(r: RunId)                              // cursor and rows
    | Fail(r: RunId)
    | Crash

  function Start(): Run { Run(Ticked, None, None, 0, 0, {}, {}, {}, [], multiset{}) }

  function SetRun(st: State, r: RunId, run: Run): State { st.(runs := st.runs[r := run]) }

  predicate At(st: State, r: RunId, pc: Pc) { r in st.runs && st.runs[r].pc == pc }

  function ParsedBlocks(run: Run): set<nat> { set p | p in run.parsed :: p.0 }

  /** An insert waits for the other open transactions that hold one of its keys. */
  predicate Free(st: State, r: RunId) {
    r in st.runs && forall q, k :: q in st.runs && q != r && k in st.runs[r].bulkParams ==> k !in st.runs[q].staged
  }

  /** `Promise.all` over the entries the batch has. */
  predicate AllEntriesDone(run: Run) {
    forall b :: run.s <= b < run.e ==> b in run.errors || b in run.missing || b in ParsedBlocks(run)
  }

  predicate Enabled(st: State, a: Action) {
    match a
    case Mine(_) => true
    case Deploy(contract) => contract != ZERO_ADDRESS
    case Tick(r) => r !in st.runs
    case ReadCursor(r) => At(st, r, Ticked)
    case ReadHead(r, head) => At(st, r, Ticked) && head < |st.blocks|
    case Window(r) => At(st, r, Ticked) && st.runs[r].head.Some? && st.runs[r].cursor.Some?
    case Fetch(r, errors, missing) =>
      At(st, r, Windowed) && errors !! missing
      && forall b :: b in errors + missing ==> st.runs[r].s <= b < st.runs[r].e
    case Parse(r, b) => At(st, r, Fetched) && st.runs[r].s <= b < st.runs[r].e && b < |st.blocks|
                        && b !in st.runs[r].errors && b !in st.runs[r].missing && b !in ParsedBlocks(st.runs[r])
    case Begin(r) => At(st, r, Fetched) && AllEntriesDone(st.runs[r])
    case Insert(r) => At(st, r, Opened) && Free(st, r)
    case Commit(r) => At(st, r, Inserted)
    case Fail(r) => r in st.runs
    case Crash => true
  }

  function Step(st: State, a: Action): State
    requires Enabled(st, a)
  {
    match a
    case Mine(block) => st.(blocks := st.blocks + [block])
    case Deploy(contract) => st.(contracts := st.contracts + {contract})
    case Tick(r) => SetRun(st, r, Start())
    case ReadCursor(r) => SetRun(st, r, st.runs[r].(cursor := Some(st.cursor)))
    case ReadHead(r, head) => SetRun(st, r, st.runs[r].(head := Some(head)))
    case Window(r) =>
      var s, e := st.runs[r].cursor.value, st.runs[r].head.value;
      if s >= e then st.(runs := st.runs - {r})
      else SetRun(st, r, st.runs[r].(pc := Windowed, s := s, e := WindowEnd(s, e)))
    case Fetch(r, errors, missing) => SetRun(st, r, st.runs[r].(pc := Fetched, errors := errors, missing := missing))
    case Parse(r, b) =>
      var run := st.runs[r];
      SetRun(st, r, run.(parsed := run.parsed + {(b, st.contracts)},
                         bulkParams := run.bulkParams + Interactions(st.contracts, st.blocks[b])))
    case Begin(r) => SetRun(st, r, st.runs[r].(pc := Opened))
    case Insert(r) =>
      SetRun(st, r, st.runs[r].(pc := Inserted, staged := InsertIgnore(st.rows, multiset{}, st.runs[r].bulkParams)))
    case Commit(r) =>
      var run := st.runs[r];
      st.(runs := st.runs - {r}, rows := st.rows + run.staged, cursor := run.e,
          checked := st.checked + run.parsed, failed := st.failed + run.errors,
          batches := st.batches + [Batch(run.s, run.e, run.missing)])
    case Fail(r) => st.(runs := st.runs - {r})
    case Crash => st.(runs := map[])
  }

  /** The key comes from a transaction of a parsed block that targets a contract known when it was parsed. */
  ghost predicate From(blocks: seq<Block>, parsed: set<(nat, set<Address>)>, k: Key) {
    exists b, contracts :: (b, contracts) in parsed && b < |blocks| && k in Interactions(contracts, blocks[b])
  }

  /** The block answered with an error, or was parsed. */
  ghost predicate Dealt(parsed: set<(nat, set<Address>)>, errors: set<nat>, b: nat) {
    b in errors || exists p :: p in parsed && p.0 == b
  }

  predicate HasEntry(w: Batch, b: nat) { w.s <= b < w.e && b !in w.missing }

  /** Some committed window holds the block. */
  ghost predicate InBatch(batches: seq<Batch>, b: nat) {
    exists j :: 0 <= j < |batches| && batches[j].s <= b < batches[j].e
  }

  /** Some committed window holds the block, and its batch had an entry for it. */
  ghost predicate EntryIn(batches: seq<Batch>, b: nat) {
    exists j :: 0 <= j < |batches| && HasEntry(batches[j], b)
  }

  ghost predicate Covered(st: State, start: nat, end: nat) {
    forall b :: start <= b < end ==> InBatch(st.batches, b)
  }

  ghost predicate EntriesOk(checked: set<(nat, set<Address>)>, failed: set<nat>, batches: seq<Batch>) {
    forall b :: Dealt(checked, failed, b) <==> EntryIn(batches, b)
  }

  ghost predicate ParsedOk(st: State, parsed: set<(nat, set<Address>)>) {
    forall p :: p in parsed ==> p.0 < |st.blocks| && ZERO_ADDRESS !in p.1
  }

  /** The run deals with blocks its batch has an entry for only, and with all of them before it opens. */
  ghost predicate RunEntries(run: Run) {
    && (run.pc in {Ticked, Windowed} ==> run.errors == {} && run.missing == {} && run.parsed == {})
    && (forall b :: Dealt(run.parsed, run.errors, b) ==> HasEntry(Batch(run.s, run.e, run.missing), b))
    && (run.pc in {Opened, Inserted} ==>
          forall b :: HasEntry(Batch(run.s, run.e, run.missing), b) ==> Dealt(run.parsed, run.errors, b))
  }

  ghost predicate RunOk(st: State, start: nat, run: Run) {
    && (run.head.Some? ==> run.head.value < |st.blocks|)
    && (run.cursor.Some? ==> Covered(st, start, run.cursor.value))
    && (run.pc != Ticked ==> run.s <= run.e < |st.blocks| && Covered(st, start, run.s))
    && ParsedOk(st, run.parsed)
    && (forall k :: k in run.bulkParams <==> From(st.blocks, run.parsed, k))
    && RunEntries(run)
    && (run.pc != Inserted ==> run.staged == multiset{})
    && (run.pc == Inserted ==> forall k :: (k in run.staged ==> k in run.bulkParams)
                                           && (k in run.bulkParams ==> k in run.staged || k in st.rows))
    && Once(st.rows + run.staged)
  }

  ghost predicate Inv(st: State, initial: multiset<Key>, start: nat) {
    && ZERO_ADDRESS !in st.contracts
    && Once(st.rows)
    && (forall k :: k in st.rows <==> k in initial || From(st.blocks, st.checked, k))
    && ParsedOk(st, st.checked) && EntriesOk(st.checked, st.failed, st.batches)
    && (st.cursor == start || st.cursor < |st.blocks|) && Covered(st, start, st.cursor)
    && Apart(st)
    && forall r :: r in st.runs ==> RunOk(st, start, st.runs[r])
  }

  ghost predicate Apart(st: State) {
    forall q, r :: q in st.runs && r in st.runs && q != r ==> st.runs[q].staged !! st.runs[r].staged
  }

  // ---------- every step keeps it ----------

  ghost predicate Grows(st: State, st': State) {
    && st.blocks <= st'.blocks
    && st.batches <= st'.batches
    && (forall k :: k in st.rows ==> k in st'.rows)
  }

  lemma FromGrows(blocks: seq<Block>, blocks': seq<Block>, parsed: set<(nat, set<Address>)>)
    requires blocks <= blocks' && forall p :: p in parsed ==> p.0 < |blocks|
    ensures forall k :: From(blocks, parsed, k) <==> From(blocks', parsed, k)
  {
    forall k
      ensures From(blocks, parsed, k) <==> From(blocks', parsed, k)
    {
      if From(blocks, parsed, k) {
        var b, contracts :| (b, contracts) in parsed && b < |blocks| && k in Interactions(contracts, blocks[b]);
        assert blocks'[b] == blocks[b];
      }
      if From(blocks', parsed, k) {
        var b, contracts :| (b, contracts) in parsed && b < |blocks'| && k in Interactions(contracts, blocks'[b]);
        assert (b, contracts).0 < |blocks|;
        assert blocks'[b] == blocks[b];
      }
    }
  }

  lemma CoveredGrows(st: State, st': State, start: nat, end: nat)
    requires Grows(st, st') && Covered(st, start, end)
    ensures Covered(st', start, end)
  {
    forall b | start <= b < end
      ensures InBatch(st'.batches, b)
    {
      assert InBatch(st.batches, b);
      var j :| 0 <= j < |st.batches| && st.batches[j].s <= b < st.batches[j].e;
      assert st'.batches[j] == st.batches[j];
    }
  }

  lemma RunGrows(st: State, st': State, start: nat, run: Run)
    requires Grows(st, st') && RunOk(st, start, run) && Once(st'.rows + run.staged)
    ensures RunOk(st', start, run)
  {
    FromGrows(st.blocks, st'.blocks, run.parsed);
    if run.cursor.Some? {
      CoveredGrows(st, st', start, run.cursor.value);
    }
    if run.pc != Ticked {
      CoveredGrows(st, st', start, run.s);
    }
    hide From, Covered, EntriesOk, RunEntries, Once;
  }

  /** A step of one run that leaves chain and store alone. */
  lemma ReplaceRun(st: State, initial: multiset<Key>, start: nat, r: RunId, run: Run)
    requires Inv(st, initial, start) && RunOk(st, start, run)
    requires forall q :: q in st.runs && q != r ==> run.staged !! st.runs[q].staged
    ensures Inv(SetRun(st, r, run), initial, start)
  {
    var st' := SetRun(st, r, run);
    hide From, InBatch, EntriesOk, RunEntries, Once, RunOk;
    assert Covered(st', start, st'.cursor);
    assert Apart(st') by { hide Covered, ParsedOk; }
    forall q | q in st'.runs
      ensures RunOk(st', start, st'.runs[q])
    {
      SameStore(st, st', start, if q == r then run else st.runs[q]);
    }
  }

  lemma SameStore(st: State, st': State, start: nat, run: Run)
    requires RunOk(st, start, run) && st' == st.(runs := st'.runs)
    ensures RunOk(st', start, run)
  {
    assert Grows(st, st');
    RunGrows(st, st', start, run);
  }

  lemma DropKeeps(st: State, initial: multiset<Key>, start: nat, runs: map<RunId, Run>)
    requires Inv(st, initial, start) && forall r :: r in runs ==> r in st.runs && runs[r] == st.runs[r]
    ensures Inv(st.(runs := runs), initial, start)
  {
    var st' := st.(runs := runs);
    hide From, InBatch, EntriesOk, RunEntries, Once;
    assert Covered(st', start, st'.cursor);
    forall r | r in runs
      ensures RunOk(st', start, runs[r])
    {
      SameStore(st, st', start, st.runs[r]);
    }
  }

  lemma ChainKeeps(st: State, initial: multiset<Key>, start: nat, a: Action)
    requires Inv(st, initial, start) && Enabled(st, a) && (a.Mine? || a.Deploy?)
    ensures Inv(Step(st, a), initial, start)
  {
    var st' := Step(st, a);
    assert Grows(st, st');
    FromGrows(st.blocks, st'.blocks, st.checked);
    CoveredGrows(st, st', start, st.cursor);
    hide From, Covered, EntriesOk, RunEntries, Once;
    forall r | r in st'.runs
      ensures RunOk(st', start, st'.runs[r])
    {
      assert RunOk(st, start, st.runs[r]);
      RunGrows(st, st', start, st.runs[r]);
    }
  }

  /** The steps that only change the variables of the run. */
  predicate Local(st: State, a: Action) {
    || a.ReadCursor? || a.ReadHead? || a.Fetch? || a.Parse? || a.Begin?
    || (a.Window? && a.r in st.runs && st.runs[a.r].head.Some? && st.runs[a.r].cursor.Some?
        && st.runs[a.r].cursor.value < st.runs[a.r].head.value)
  }

  lemma LocalKeeps(st: State, initial: multiset<Key>, start: nat, a: Action)
    requires Inv(st, initial, start) && Enabled(st, a) && Local(st, a)
    ensures Inv(Step(st, a), initial, start)
  {
    var run, run' := st.runs[a.r], Step(st, a).runs[a.r];
    assert RunOk(st, start, run);
    LocalRunOk(st, initial, start, a);
    assert Step(st, a) == SetRun(st, a.r, run');
    hide RunOk, Inv;
    NothingStaged(st, initial, start, a.r);
    ReplaceRun(st, initial, start, a.r, run');
  }

  lemma NothingStaged(st: State, initial: multiset<Key>, start: nat, r: RunId)
    requires Inv(st, initial, start) && r in st.runs
    ensures forall q :: q in st.runs && q != r ==> st.runs[r].staged !! st.runs[q].staged
  {
    hide RunOk, Covered, From, ParsedOk, Once;
  }

  lemma LocalRunOk(st: State, initial: multiset<Key>, start: nat, a: Action)
    requires Inv(st, initial, start) && Enabled(st, a) && Local(st, a)
    ensures Step(st, a) == SetRun(st, a.r, Step(st, a).runs[a.r])
    ensures RunOk(st, start, Step(st, a).runs[a.r]) && Step(st, a).runs[a.r].staged == st.runs[a.r].staged
  {
    hide From, Interactions, Covered, EntriesOk, RunEntries, Once, Apart, Free, InsertIgnore, AllEntriesDone;
    var run := st.runs[a.r];
    assert RunOk(st, start, run);
    LocalEntries(st, a);
    if a.Parse? {
      ParseRunOk(st, start, run, a.block);
    }
  }

  lemma LocalEntries(st: State, a: Action)
    requires Enabled(st, a) && Local(st, a) && RunEntries(st.runs[a.r])
    ensures RunEntries(Step(st, a).runs[a.r])
  {
    hide Interactions, Free, InsertIgnore;
    var run, run' := st.runs[a.r], Step(st, a).runs[a.r];
    forall b: nat | Dealt(run'.parsed, run'.errors, b)
      ensures HasEntry(Batch(run'.s, run'.e, run'.missing), b)
    {
      if a.Fetch? {
        assert b in a.errors + a.missing;
      } else if a.Parse? && b == a.block {
      } else if !a.Window? {
        assert Dealt(run.parsed, run.errors, b);
      }
    }
    if a.Begin? {
      forall b | HasEntry(Batch(run.s, run.e, run.missing), b)
        ensures Dealt(run.parsed, run.errors, b)
      {
        assert b in run.errors || b in ParsedBlocks(run);
      }
    }
  }

  lemma ParseRunOk(st: State, start: nat, run: Run, b: nat)
    requires RunOk(st, start, run) && run.pc == Fetched && b < |st.blocks| && ZERO_ADDRESS !in st.contracts
    requires var run' := run.(parsed := run.parsed + {(b, st.contracts)},
                              bulkParams := run.bulkParams + Interactions(st.contracts, st.blocks[b]));
             RunEntries(run')
    ensures RunOk(st, start, run.(parsed := run.parsed + {(b, st.contracts)},
                                  bulkParams := run.bulkParams + Interactions(st.contracts, st.blocks[b])))
  {
    ParseAdds(st, run, b);
    hide From, Interactions, Covered, RunEntries, Once;
  }

  lemma ParseAdds(st: State, run: Run, b: nat)
    requires b < |st.blocks| && forall k :: k in run.bulkParams <==> From(st.blocks, run.parsed, k)
    ensures forall k :: k in run.bulkParams + Interactions(st.contracts, st.blocks[b]) <==>
                          From(st.blocks, run.parsed + {(b, st.contracts)}, k)
  {
    var parsed' := run.parsed + {(b, st.contracts)};
    forall k
      ensures k in run.bulkParams + Interactions(st.contracts, st.blocks[b]) <==> From(st.blocks, parsed', k)
    {
      if k in Interactions(st.contracts, st.blocks[b]) {
        assert (b, st.contracts) in parsed';
      }
      if From(st.blocks, run.parsed, k) {
        var d, contracts :| (d, contracts) in run.parsed && d < |st.blocks|
                            && k in Interactions(contracts, st.blocks[d]);
        assert (d, contracts) in parsed';
      }
      if From(st.blocks, parsed', k) {
        var d, contracts :| (d, contracts) in parsed' && d < |st.blocks| && k in Interactions(contracts, st.blocks[d]);
        if (d, contracts) in run.parsed {
          assert From(st.blocks, run.parsed, k);
        }
      }
    }
  }

  lemma InsertKeeps(st: State, initial: multiset<Key>, start: nat, r: RunId)
    requires Inv(st, initial, start) && Enabled(st, Insert(r))
    ensures Inv(Step(st, Insert(r)), initial, start)
  {
    hide RunOk, Inv, Free, Once, InsertIgnore;
    InsertRunOk(st, initial, start, r);
    ReplaceRun(st, initial, start, r, Step(st, Insert(r)).runs[r]);
  }

  lemma InsertedRows(rows: multiset<Key>, keys: seq<Key>)
    requires Once(rows)
    ensures var staged := InsertIgnore(rows, multiset{}, keys);
            && Once(rows + staged)
            && forall k :: (k in staged ==> k in keys) && (k in keys ==> k in staged || k in rows)
  {
    assert rows + multiset{} == rows;
    InsertIgnoreExact(rows, multiset{}, keys);
    InsertIgnoreFrom(rows, multiset{}, keys);
    hide InsertIgnore, Once;
    var staged := InsertIgnore(rows, multiset{}, keys);
    forall k | k in keys
      ensures k in staged || k in rows
    {
      assert k in rows + staged;
    }
  }

  lemma InsertRunOk(st: State, initial: multiset<Key>, start: nat, r: RunId)
    requires Inv(st, initial, start) && Enabled(st, Insert(r))
    ensures RunOk(st, start, Step(st, Insert(r)).runs[r])
    ensures forall q :: q in st.runs && q != r ==> Step(st, Insert(r)).runs[r].staged !! st.runs[q].staged
  {
    hide From, Covered, EntriesOk, RunEntries, InsertIgnore, Once, Apart;
    var run := st.runs[r];
    assert RunOk(st, start, run);
    InsertedRows(st.rows, run.bulkParams);
    hide RunOk, ParsedOk;
    InsertedRunOk(st, start, run);
  }

  lemma InsertedRunOk(st: State, start: nat, run: Run)
    requires RunOk(st, start, run) && run.pc == Opened
    requires var staged := InsertIgnore(st.rows, multiset{}, run.bulkParams);
             && Once(st.rows + staged)
             && forall k :: (k in staged ==> k in run.bulkParams)
                            && (k in run.bulkParams ==> k in staged || k in st.rows)
    ensures RunOk(st, start, run.(pc := Inserted, staged := InsertIgnore(st.rows, multiset{}, run.bulkParams)))
  {
    hide From, Covered, Dealt, HasEntry, InsertIgnore, Once;
  }

  lemma {:induction false} InsertIgnoreFrom(committed: multiset<Key>, staged: multiset<Key>, keys: seq<Key>)
    ensures forall k :: k in InsertIgnore(committed, staged, keys) ==> k in staged || k in keys
  {
    if keys != [] {
      InsertIgnoreFrom(committed, staged, keys[..|keys| - 1]);
      assert keys == keys[..|keys| - 1] + [keys[|keys| - 1]];
    }
  }

  lemma FromUnion(blocks: seq<Block>, p: set<(nat, set<Address>)>, q: set<(nat, set<Address>)>, k: Key)
    ensures From(blocks, p + q, k) <==> From(blocks, p, k) || From(blocks, q, k)
  {
    if From(blocks, p + q, k) {
      var b, contracts :| (b, contracts) in p + q && b < |blocks| && k in Interactions(contracts, blocks[b]);
      assert (b, contracts) in p || (b, contracts) in q;
    }
    if From(blocks, p, k) {
      var b, contracts :| (b, contracts) in p && b < |blocks| && k in Interactions(contracts, blocks[b]);
      assert (b, contracts) in p + q;
    }
    if From(blocks, q, k) {
      var b, contracts :| (b, contracts) in q && b < |blocks| && k in Interactions(contracts, blocks[b]);
      assert (b, contracts) in p + q;
    }
  }

  lemma CommitRows(st: State, initial: multiset<Key>, start: nat, r: RunId)
    requires Inv(st, initial, start) && Enabled(st, Commit(r))
    ensures var st' := Step(st, Commit(r));
            && Once(st'.rows) && Grows(st, st') && EntriesOk(st'.checked, st'.failed, st'.batches)
            && (forall k :: k in st'.rows <==> k in initial || From(st'.blocks, st'.checked, k))
            && Covered(st', start, st'.cursor)
  {
    hide EntriesOk, RunEntries, InBatch;
    var st', run := Step(st, Commit(r)), st.runs[r];
    assert RunOk(st, start, run);
    forall k
      ensures k in st'.rows <==> k in initial || From(st'.blocks, st'.checked, k)
    {
      FromUnion(st.blocks, st.checked, run.parsed, k);
      hide From, Covered, Once;
    }
    assert Grows(st, st');
    CoveredGrows(st, st', start, run.s);
    CommitEntries(st, run);
    hide *;
    WindowCovered(st', start, run.s, run.e);
  }

  lemma WindowCovered(st: State, start: nat, s: nat, e: nat)
    requires Covered(st, start, s) && st.batches != []
    requires st.batches[|st.batches| - 1].s == s && st.batches[|st.batches| - 1].e == e
    ensures Covered(st, start, e)
  {
    forall b | start <= b < e
      ensures InBatch(st.batches, b)
    {
      if b >= s {
        assert st.batches[|st.batches| - 1].s <= b < st.batches[|st.batches| - 1].e;
      }
    }
  }

  lemma CommitEntries(st: State, run: Run)
    requires EntriesOk(st.checked, st.failed, st.batches) && RunEntries(run) && run.pc == Inserted
    ensures EntriesOk(st.checked + run.parsed, st.failed + run.errors,
                      st.batches + [Batch(run.s, run.e, run.missing)])
  {
    var w := Batch(run.s, run.e, run.missing);
    var batches := st.batches + [w];
    forall b
      ensures Dealt(st.checked + run.parsed, st.failed + run.errors, b) <==> EntryIn(batches, b)
    {
      assert Dealt(st.checked + run.parsed, st.failed + run.errors, b)
          <==> Dealt(st.checked, st.failed, b) || Dealt(run.parsed, run.errors, b);
      assert Dealt(st.checked, st.failed, b) <==> EntryIn(st.batches, b);
      EntryInMore(st.batches, w, b);
    }
  }

  lemma EntryInMore(batches: seq<Batch>, w: Batch, b: nat)
    ensures EntryIn(batches + [w], b) <==> EntryIn(batches, b) || HasEntry(w, b)
  {
    var more := batches + [w];
    if j :| 0 <= j < |batches| && HasEntry(batches[j], b) {
      assert HasEntry(more[j], b);
    }
    if HasEntry(w, b) {
      assert HasEntry(more[|batches|], b);
    }
  }

  lemma CommitKeeps(st: State, initial: multiset<Key>, start: nat, r: RunId)
    requires Inv(st, initial, start) && Enabled(st, Commit(r))
    ensures Inv(Step(st, Commit(r)), initial, start)
  {
    var st', run := Step(st, Commit(r)), st.runs[r];
    assert RunOk(st, start, run);
    CommitRows(st, initial, start, r);
    hide From, Covered, EntriesOk, RunEntries, Once;
    forall q | q in st'.runs
      ensures RunOk(st', start, st'.runs[q])
    {
      OtherRunOk(st, initial, start, r, q);
    }
    hide RunOk;
  }

  lemma OtherRunOk(st: State, initial: multiset<Key>, start: nat, r: RunId, q: RunId)
    requires Inv(st, initial, start) && Enabled(st, Commit(r)) && q in st.runs && q != r
    requires Grows(st, Step(st, Commit(r)))
    ensures RunOk(Step(st, Commit(r)), start, st.runs[q])
  {
    hide From, Covered, EntriesOk, RunEntries, Once;
    var st', run := Step(st, Commit(r)), st.runs[r];
    assert RunOk(st, start, run) && RunOk(st, start, st.runs[q]);
    NothingStaged(st, initial, start, r);
    OnceTogether(st.rows, run.staged, st.runs[q].staged);
    assert st'.rows + st.runs[q].staged == st.rows + run.staged + st.runs[q].staged;
    hide RunOk, Inv, Grows, Apart;
    RunGrows(st, st', start, st.runs[q]);
  }

  lemma OnceTogether(rows: multiset<Key>, a: multiset<Key>, b: multiset<Key>)
    requires Once(rows + a) && Once(rows + b) && forall k :: k in a ==> k !in b
    ensures Once(rows + a + b)
  {
    forall k: Key
      ensures (rows + a + b)[k] <= 1
    {
      assert (rows + a)[k] <= 1 && (rows + b)[k] <= 1;
      assert a[k] == 0 || b[k] == 0;
    }
  }

  lemma StepKeeps(st: State, initial: multiset<Key>, start: nat, a: Action)
    requires Inv(st, initial, start) && Enabled(st, a)
    ensures Inv(Step(st, a), initial, start)
  {
    hide Inv;
    if Local(st, a) {
      LocalKeeps(st, initial, start, a);
    } else {
      match a
      case Mine(_) => ChainKeeps(st, initial, start, a);
      case Deploy(_) => ChainKeeps(st, initial, start, a);
      case Tick(r) => TickKeeps(st, initial, start, r);
      case Window(r) => DropKeeps(st, initial, start, st.runs - {r});
      case Insert(r) => InsertKeeps(st, initial, start, r);
      case Commit(r) => CommitKeeps(st, initial, start, r);
      case Fail(r) => DropKeeps(st, initial, start, st.runs - {r});
      case Crash => DropKeeps(st, initial, start, map[]);
    }
  }

  lemma TickKeeps(st: State, initial: multiset<Key>, start: nat, r: RunId)
    requires Inv(st, initial, start) && r !in st.runs
    ensures Inv(SetRun(st, r, Start()), initial, start)
  {
    assert st.rows + multiset{} == st.rows;
    assert RunOk(st, start, Start());
    hide RunOk;
    ReplaceRun(st, initial, start, r, Start());
  }

  // ---------- behaviours ----------

  ghost predicate Initial(st: State) {
    && ZERO_ADDRESS !in st.contracts && Once(st.rows) && st.runs == map[] && st.checked == {} && st.failed == {}
    && st.batches == []
  }

  ghost predicate StepAt(states: seq<State>, i: nat)
    requires i < |states| - 1
  {
    Next(states[i], states[i + 1])
  }

  ghost predicate Next(st: State, st': State) {
    exists a: Action :: Enabled(st, a) && Step(st, a) == st'
  }

  ghost predicate Behaviour(states: seq<State>) {
    states != [] && Initial(states[0]) && forall i :: 0 <= i < |states| - 1 ==> StepAt(states, i)
  }

  lemma {:induction false} AlwaysInv(states: seq<State>, i: nat)
    requires Behaviour(states) && i < |states|
    ensures Inv(states[i], states[0].rows, states[0].cursor)
  {
    hide Inv, Step, Enabled, Initial;
    if i == 0 {
      InitialInv(states[0]);
    } else {
      AlwaysInv(states, i - 1);
      assert StepAt(states, i - 1);
      var a: Action :| Enabled(states[i - 1], a) && Step(states[i - 1], a) == states[i];
      StepKeeps(states[i - 1], states[0].rows, states[0].cursor, a);
    }
  }

  lemma InitialInv(st: State)
    requires Initial(st)
    ensures Inv(st, st.rows, st.cursor)
  {
  }

  /** After any interleaving of overlapping, repeated, failing and crashing runs the table holds exactly its
      initial keys and the keys of contract-targeted transactions of the blocks committed windows have parsed,
      and holds every new key once. */
  lemma TableIsUnionOfWindows(states: seq<State>, i: nat, k: Key)
    requires Behaviour(states) && i < |states|
    ensures var st := states[i];
            && (k in st.rows <==>
                  k in states[0].rows
                  || exists b, contracts, t :: (b, contracts) in st.checked && b < |st.blocks|
                                               && 0 <= t < |st.blocks[b]|
                                               && Targets(contracts, st.blocks[b][t])
                                               && k == Key(st.blocks[b][t].sender, st.blocks[b][t].to))
            && st.rows[k] <= 1
            && (k in st.rows && k !in states[0].rows ==> k.toAddress.Some?)
  {
    AlwaysInv(states, i);
    var st := states[i];
    if From(st.blocks, st.checked, k) {
      var b, contracts :| (b, contracts) in st.checked && b < |st.blocks| && k in Interactions(contracts, st.blocks[b]);
      assert (b, contracts) in st.checked && ZERO_ADDRESS !in (b, contracts).1;
      InteractionsExact(contracts, st.blocks[b], k);
      var t :| 0 <= t < |st.blocks[b]| && Targets(contracts, st.blocks[b][t])
               && k == Key(st.blocks[b][t].sender, st.blocks[b][t].to);
    }
    forall b, contracts, t | (b, contracts) in st.checked && b < |st.blocks| && 0 <= t < |st.blocks[b]|
                             && Targets(contracts, st.blocks[b][t])
                             && k == Key(st.blocks[b][t].sender, st.blocks[b][t].to)
      ensures From(st.blocks, st.checked, k)
    {
      InteractionsExact(contracts, st.blocks[b], k);
    }
  }

  /** Every block from the first cursor up to the current one lies in a committed window, and the cursor stays below
      the chain's height. A block was parsed in a committed window, or answered with an error in one, iff the batch
      of some committed window that holds it had an entry for it; so if no committed batch was short, every block
      below the cursor was. */
  lemma BlocksBelowCursorDealtWith(states: seq<State>, i: nat)
    requires Behaviour(states) && i < |states|
    ensures var st := states[i];
            && (st.cursor == states[0].cursor || st.cursor < |st.blocks|)
            && (forall b :: states[0].cursor <= b < st.cursor ==> InBatch(st.batches, b))
            && (forall b :: (b in st.failed || exists p :: p in st.checked && p.0 == b) <==> EntryIn(st.batches, b))
            && ((forall j :: 0 <= j < |st.batches| ==> st.batches[j].missing == {}) ==>
                  forall b :: states[0].cursor <= b < st.cursor ==>
                                b in st.failed || exists p :: p in st.checked && p.0 == b)
  {
    AlwaysInv(states, i);
    var st := states[i];
    hide From, RunOk, Behaviour;
    forall b
      ensures (b in st.failed || exists p :: p in st.checked && p.0 == b) <==> EntryIn(st.batches, b)
    {
      assert Dealt(st.checked, st.failed, b) <==> EntryIn(st.batches, b);
    }
    if forall j :: 0 <= j < |st.batches| ==> st.batches[j].missing == {} {
      forall b | states[0].cursor <= b < st.cursor
        ensures EntryIn(st.batches, b)
      {
        assert InBatch(st.batches, b);
        var j :| 0 <= j < |st.batches| && st.batches[j].s <= b < st.batches[j].e;
        assert HasEntry(st.batches[j], b);
      }
    }
  }

  // ---------- the records are what committed runs did ----------

  datatype Record = AFailure(block: nat) | AParse(block: nat, contracts: set<Address>) | ABatch(batch: Batch)

  ghost predicate Recorded(st: State, rec: Record) {
    match rec
    case AFailure(b) => b in st.failed
    case AParse(b, contracts) => (b, contracts) in st.checked
    case ABatch(w) => w in st.batches
  }

  /** What the run itself has done, as of its commit. */
  predicate Did(run: Run, rec: Record) {
    match rec
    case AFailure(b) => b in run.errors
    case AParse(b, contracts) => (b, contracts) in run.parsed
    case ABatch(w) => w == Batch(run.s, run.e, run.missing)
  }

  predicate Commits(st: State, st': State, r: RunId)
    ensures Commits(st, st', r) ==> r in st.runs
  {
    Enabled(st, Commit(r)) && Step(st, Commit(r)) == st'
  }

  predicate CommitsAt(states: seq<State>, n: nat, r: RunId)
    requires n < |states| - 1
    ensures CommitsAt(states, n, r) ==> r in states[n].runs
  {
    Commits(states[n], states[n + 1], r)
  }

  ghost predicate DoneByACommit(states: seq<State>, i: nat, rec: Record)
    requires i < |states|
  {
    exists n, r :: 0 <= n < i && CommitsAt(states, n, r) && Did(states[n].runs[r], rec)
  }

  /** `checked`, `failed` and `batches` hold exactly what the runs committed so far had parsed, what had failed for
      them, and their windows with the entries that were missing. */
  lemma {:induction false} RecordsAreCommits(states: seq<State>, i: nat, rec: Record)
    requires Behaviour(states) && i < |states|
    ensures Recorded(states[i], rec) <==> DoneByACommit(states, i, rec)
  {
    if i > 0 {
      RecordsAreCommits(states, i - 1, rec);
      assert StepAt(states, i - 1);
      StepRecords(states[i - 1], states[i], rec);
      MoreCommits(states, i - 1, rec);
    }
  }

  lemma MoreCommits(states: seq<State>, n: nat, rec: Record)
    requires n + 1 < |states|
    ensures DoneByACommit(states, n + 1, rec) <==>
            DoneByACommit(states, n, rec)
            || exists r :: Commits(states[n], states[n + 1], r) && Did(states[n].runs[r], rec)
  {
    hide Commits, Did;
    forall r
      ensures CommitsAt(states, n, r) <==> Commits(states[n], states[n + 1], r)
    {
    }
  }

  lemma StepRecords(st: State, st': State, rec: Record)
    requires Next(st, st')
    ensures Recorded(st', rec) <==>
            Recorded(st, rec) || exists r :: Commits(st, st', r) && Did(st.runs[r], rec)
  {
    forall r | Commits(st, st', r)
      ensures Recorded(st', rec) <==> Recorded(st, rec) || Did(st.runs[r], rec)
    {
    }
    var a: Action :| Enabled(st, a) && Step(st, a) == st';
    if a.Commit? {
      assert Commits(st, st', a.r);
    } else {
      OnlyCommitsRecord(st, a, rec);
    }
    hide Commits, Enabled, Step, Did, Recorded;
  }

  lemma OnlyCommitsRecord(st: State, a: Action, rec: Record)
    requires Enabled(st, a) && !a.Commit?
    ensures Recorded(Step(st, a), rec) <==> Recorded(st, rec)
  {
    hide Interactions, InsertIgnore, AllEntriesDone, Free;
  }

  // ---------- one run after the other ----------

  /** The batch's entry for a block: an error response, a block, an entry without result, or no entry at all. */
  datatype Response = Errored | Answered(transactions: Block) | NoResult | Absent

  datatype Outcome = NothingNew | Committed | RolledBack | EscapedError

  /** The outside of one run. The two reads before the `try` are not handled when they fail. */
  datatype World = World(head: nat, responses: nat -> Response, contracts: set<Address>,
                         readsFail: bool, batchFails: bool, commitFails: bool)

  /** The keys of the window's blocks, in order; None: an entry without result throws. */
  function WindowKeys(w: World, s: nat, e: nat): Option<seq<Key>>
    requires s <= e
  {
    if s == e then Some([])
    else
      var before := WindowKeys(w, s, e - 1);
      match w.responses(e - 1)
      case NoResult => None
      case Errored => before
      case Absent => before
      case Answered(transactions) =>
        if before.None? then None else Some(before.value + Interactions(w.contracts, transactions))
  }

  function RunOnce(w: World, rows: multiset<Key>, cursor: nat): (Outcome, multiset<Key>, nat) {
    if w.readsFail then (EscapedError, rows, cursor)
    else if cursor >= w.head then (NothingNew, rows, cursor)
    else
      var keys := WindowKeys(w, cursor, WindowEnd(cursor, w.head));
      if w.batchFails || keys.None? || w.commitFails then (RolledBack, rows, cursor)
      else (Committed, rows + InsertIgnore(rows, multiset{}, keys.value), WindowEnd(cursor, w.head))
  }

  /** What a committed run has done: no entry of the window came without result, the table has gained exactly the
      keys of the answered blocks' transactions to contracts, each key is there once, and the cursor is at the end
      of the window. A run that ends in any other way has changed nothing. */
  lemma RunOnceExact(w: World, rows: multiset<Key>, cursor: nat, k: Key)
    requires Once(rows)
    ensures var (outcome, rows', cursor') := RunOnce(w, rows, cursor);
            && Once(rows')
            && (outcome != Committed ==> rows' == rows && cursor' == cursor)
            && (outcome == Committed ==>
                  && cursor < cursor' <= w.head && cursor' <= cursor + 10
                  && (cursor' < cursor + 10 ==> cursor' == w.head)
                  && (forall b :: cursor <= b < cursor' ==> w.responses(b) != NoResult)
                  && (k in rows' <==>
                        k in rows || exists b :: cursor <= b < cursor' && w.responses(b).Answered?
                                                 && k in Interactions(w.contracts, w.responses(b).transactions)))
  {
    if !w.readsFail && cursor < w.head {
      var e := WindowEnd(cursor, w.head);
      var keys := WindowKeys(w, cursor, e);
      WindowKeysExact(w, cursor, e, k);
      if keys.Some? {
        InsertedRows(rows, keys.value);
      }
      hide Once, InsertIgnore, WindowKeys;
    }
  }

  /** Nobody counts the entries: a batch without any commits the run all the same, and its blocks are passed. */
  lemma ShortBatchPassesBlocks(w: World, rows: multiset<Key>, cursor: nat)
    requires !w.readsFail && !w.batchFails && !w.commitFails && cursor < w.head
    requires forall b :: w.responses(b) == Absent
    ensures RunOnce(w, rows, cursor) == (Committed, rows, WindowEnd(cursor, w.head))
    ensures WindowEnd(cursor, w.head) > cursor
  {
    NoEntriesNoKeys(w, cursor, WindowEnd(cursor, w.head));
    assert InsertIgnore(rows, multiset{}, []) == multiset{} && rows + multiset{} == rows;
  }

  lemma {:induction false} NoEntriesNoKeys(w: World, s: nat, e: nat)
    requires s <= e && forall b :: w.responses(b) == Absent
    ensures WindowKeys(w, s, e) == Some([])
    decreases e
  {
    if s < e {
      NoEntriesNoKeys(w, s, e - 1);
    }
  }

  lemma {:induction false} WindowKeysExact(w: World, s: nat, e: nat, k: Key)
    requires s <= e
    ensures WindowKeys(w, s, e).None? <==> exists b :: s <= b < e && w.responses(b) == NoResult
    ensures WindowKeys(w, s, e).Some? ==>
              (k in WindowKeys(w, s, e).value <==>
               exists b :: s <= b < e && w.responses(b).Answered?
                           && k in Interactions(w.contracts, w.responses(b).transactions))
    decreases e
  {
    if s < e {
      WindowKeysExact(w, s, e - 1, k);
      hide Interactions;
      var last := e - 1;
      assert s <= last < e;
    }
  }

  lemma {:induction false} NoKeysFrom(w: World, s: nat, m: nat, e: nat)
    requires s < m <= e && WindowKeys(w, s, m).None?
    ensures WindowKeys(w, s, e).None?
    decreases e
  {
    if m < e {
      NoKeysFrom(w, s, m, e - 1);
    }
  }

  class InteractionJob {
    var rows: multiset<Key>
    var blockNumber: nat

    /** `run`. */
    method Run(w: World) returns (outcome: Outcome)
      modifies this
      ensures (outcome, rows, blockNumber) == RunOnce(w, old(rows), old(blockNumber))
    {
      if w.readsFail {
        return EscapedError;
      }
      var sBlock, eBlock := blockNumber, w.head;
      if sBlock >= eBlock {
        return NothingNew;
      }
      if eBlock - sBlock > CHUNK_SIZE {
        eBlock := sBlock + CHUNK_SIZE;
      }
      if w.batchFails {
        return RolledBack;
      }
      var bulkParams: seq<Key> := [];
      for b := sBlock to eBlock
        invariant WindowKeys(w, sBlock, b) == Some(bulkParams)
      {
        match w.responses(b)
        case Errored =>
        case Absent =>
        case NoResult =>
          NoKeysFrom(w, sBlock, b + 1, eBlock);
          return RolledBack;
        case Answered(transactions) =>
          bulkParams := bulkParams + Interactions(w.contracts, transactions);
      }
      if w.commitFails {
        return RolledBack;
      }
      rows := rows + InsertIgnore(rows, multiset{}, bulkParams);
      blockNumber := eBlock;
      return Committed;
    }
  }

  /** The windows of successive successful runs towards a fixed head. */
  function Windows(s: nat, head: nat): seq<(nat, nat)>
    decreases head - s
  {
    if s >= head then [] else [(s, WindowEnd(s, head))] + Windows(WindowEnd(s, head), head)
  }

  /** They tile the range from s to the head: each begins where the one before ended, none is empty or longer than
      ten, the last one ends at the head, and there are exactly ceil((head - s) / 10) of them. */
  lemma {:induction false} WindowsTile(s: nat, head: nat)
    requires s <= head
    ensures var ws := Windows(s, head);
            && |ws| == (head - s + 9) / 10
            && (forall i :: 0 <= i < |ws| ==> ws[i].0 < ws[i].1 <= ws[i].0 + 10)
            && (ws != [] ==> ws[0].0 == s && ws[|ws| - 1].1 == head)
            && (forall i {:trigger ws[i].1} :: 0 <= i < |ws| - 1 ==> ws[i].1 == ws[i + 1].0)
    decreases head - s
  {
    if s < head {
      WindowsTile(WindowEnd(s, head), head);
    }
  }

  /** The cursor after n successful runs. */
  function CursorAfter(s: nat, head: nat, n: nat): nat {
    if n == 0 then s else WindowEnd(CursorAfter(s, head, n - 1), head)
  }

  lemma {:induction false} ReachesHead(s: nat, head: nat, n: nat)
    requires s <= head
    ensures CursorAfter(s, head, n) == if s + 10 * n < head then s + 10 * n else head
    ensures CursorAfter(s, head, n) == head <==> n >= (head - s + 9) / 10
  {
    if n > 0 {
      ReachesHead(s, head, n - 1);
    }
  }

  /** Successive runs against the same head that all commit are those runs: the cursor follows the windows, and
      once the head is reached nothing changes any more. */
  lemma {:induction false} RunsFollowWindows(worlds: seq<World>, rows: multiset<Key>, s: nat, head: nat)
    returns (finalRows: multiset<Key>)
    requires s <= head
    requires forall i :: 0 <= i < |worlds| ==>
                           worlds[i].head == head
                           && !worlds[i].readsFail && !worlds[i].batchFails && !worlds[i].commitFails
                           && forall b :: worlds[i].responses(b) != NoResult
    ensures After(worlds, rows, s) == (finalRows, CursorAfter(s, head, |worlds|))
  {
    if worlds == [] {
      finalRows := rows;
    } else {
      var n := |worlds| - 1;
      var before := RunsFollowWindows(worlds[..n], rows, s, head);
      ReachesHead(s, head, n);
      var cursor, w := CursorAfter(s, head, n), worlds[n];
      if cursor < head {
        KeysThere(w, cursor, WindowEnd(cursor, head));
      }
      finalRows := RunOnce(w, before, cursor).1;
    }
  }

  function After(worlds: seq<World>, rows: multiset<Key>, cursor: nat): (multiset<Key>, nat) {
    if worlds == [] then (rows, cursor)
    else
      var (before, at) := After(worlds[..|worlds| - 1], rows, cursor);
      var (_, rows', cursor') := RunOnce(worlds[|worlds| - 1], before, at);
      (rows', cursor')
  }

  lemma {:induction false} KeysThere(w: World, s: nat, e: nat)
    requires s <= e && forall b :: w.responses(b) != NoResult
    ensures WindowKeys(w, s, e).Some?
    decreases e
  {
    if s < e {
      KeysThere(w, s, e - 1);
    }
  }

  // ---------- the run of the source is a behaviour ----------

  /** The states of an interleaving that starts in st and ends in st'. */
  ghost predicate Leads(states: seq<State>, st: State, st': State) {
    && states != [] && states[0] == st && states[|states| - 1] == st'
    && forall i :: 0 <= i < |states| - 1 ==> StepAt(states, i)
  }

  lemma Extend(states: seq<State>, st: State, st': State, a: Action) returns (longer: seq<State>)
    requires Leads(states, st, st') && Enabled(st', a)
    ensures Leads(longer, st, Step(st', a))
  {
    longer := states + [Step(st', a)];
    forall i | 0 <= i < |longer| - 1
      ensures StepAt(longer, i)
    {
      if i < |states| - 1 {
        assert StepAt(states, i);
      } else {
        assert Next(st', Step(st', a));
      }
    }
  }

  function Solo(st: State, r: RunId, run: Run): State { st.(runs := map[r := run]) }

  lemma ExtendSolo(states: seq<State>, st: State, base: State, r: RunId, run: Run, a: Action, run': Run)
    returns (longer: seq<State>)
    requires Leads(states, st, Solo(base, r, run)) && Enabled(Solo(base, r, run), a)
    requires Step(Solo(base, r, run), a) == SetRun(Solo(base, r, run), r, run')
    ensures Leads(longer, st, Solo(base, r, run'))
  {
    longer := Extend(states, st, Solo(base, r, run), a);
    assert map[r := run][r := run'] == map[r := run'];
  }

  /** The run after its batch has answered and the entries below b have been parsed. */
  ghost predicate ParsedUpTo(w: World, st: State, run: Run, b: nat) {
    && run.pc == Fetched && run.s <= b <= run.e
    && (forall k :: k in run.errors <==> run.s <= k < run.e && w.responses(k) == Errored)
    && (forall k :: k in run.missing <==> run.s <= k < run.e && w.responses(k) == Absent)
    && (forall k :: k in ParsedBlocks(run) <==> run.s <= k < b && w.responses(k).Answered?)
    && WindowKeys(w, run.s, b) == Some(run.bulkParams)
    && run.staged == multiset{}
  }

  /** The answers are the chain's. */
  ghost predicate Truthful(w: World, st: State) {
    && w.head < |st.blocks| && w.contracts == st.contracts
    && forall b :: 0 <= b < w.head && w.responses(b).Answered? ==> w.responses(b).transactions == st.blocks[b]
  }

  lemma ParseOne(states: seq<State>, st: State, r: RunId, w: World, run: Run, b: nat)
    returns (longer: seq<State>, run': Run)
    requires Leads(states, st, Solo(st, r, run)) && Truthful(w, st)
    requires ParsedUpTo(w, st, run, b) && b < run.e <= w.head && w.responses(b) != NoResult
    ensures Leads(longer, st, Solo(st, r, run')) && ParsedUpTo(w, st, run', b + 1) && run'.s == run.s && run'.e == run.e
  {
    hide Leads, Interactions;
    longer, run' := states, run;
    if w.responses(b).Answered? {
      run' := run.(parsed := run.parsed + {(b, st.contracts)},
                   bulkParams := run.bulkParams + Interactions(st.contracts, st.blocks[b]));
      longer := ExtendSolo(states, st, st, r, run, Parse(r, b), run');
      assert ParsedBlocks(run') == ParsedBlocks(run) + {b};
    }
  }

  lemma Fetches(st: State, r: RunId, w: World) returns (states: seq<State>, run: Run)
    requires st.runs == map[] && Truthful(w, st) && st.cursor < w.head
    ensures Leads(states, st, Solo(st, r, run)) && ParsedUpTo(w, st, run, st.cursor)
    ensures run.s == st.cursor && run.e == WindowEnd(st.cursor, w.head)
  {
    hide ParsedUpTo, Truthful, StepAt, Interactions, InsertIgnore, AllEntriesDone, Free;
    var s, e := st.cursor, WindowEnd(st.cursor, w.head);
    var errors := set k: nat | s <= k < e && w.responses(k) == Errored;
    var missing := set k: nat | s <= k < e && w.responses(k) == Absent;
    HeadExists(w, st);
    states := [st];
    assert st.runs[r := Start()] == map[r := Start()];
    states := Extend(states, st, st, Tick(r));
    hide Leads;
    var run1 := Start().(cursor := Some(s));
    states := ExtendSolo(states, st, st, r, Start(), ReadCursor(r), run1);
    var run2 := run1.(head := Some(w.head));
    states := ExtendSolo(states, st, st, r, run1, ReadHead(r, w.head), run2);
    var run3 := run2.(pc := Windowed, s := s, e := e);
    states := ExtendSolo(states, st, st, r, run2, Window(r), run3);
    run := run3.(pc := Fetched, errors := errors, missing := missing);
    states := ExtendSolo(states, st, st, r, run3, Fetch(r, errors, missing), run);
    NothingParsed(w, st, run);
  }

  lemma NothingParsed(w: World, st: State, run: Run)
    requires run.pc == Fetched && run.s <= run.e && run.parsed == {} && run.bulkParams == [] && run.staged == multiset{}
    requires run.errors == set k: nat | run.s <= k < run.e && w.responses(k) == Errored
    requires run.missing == set k: nat | run.s <= k < run.e && w.responses(k) == Absent
    ensures ParsedUpTo(w, st, run, run.s)
  {
  }

  lemma HeadExists(w: World, st: State)
    requires Truthful(w, st)
    ensures w.head < |st.blocks|
  {
  }

  /** A run that meets no other run and commits goes, by enabled steps, from its tick to the rows and the cursor that
      `Run` computes in one go. */
  lemma RunIsABehaviour(st: State, r: RunId, w: World) returns (states: seq<State>)
    requires st.runs == map[] && Truthful(w, st)
    requires RunOnce(w, st.rows, st.cursor).0 == Committed
    ensures states != [] && states[0] == st && forall i :: 0 <= i < |states| - 1 ==> StepAt(states, i)
    ensures var st' := states[|states| - 1];
            st'.runs == map[] && RunOnce(w, st.rows, st.cursor) == (Committed, st'.rows, st'.cursor)
  {
    hide Interactions, InsertIgnore;
    var s, e := st.cursor, WindowEnd(st.cursor, w.head);
    var run: Run;
    states, run := Fetches(st, r, w);
    for b := s to e
      invariant Leads(states, st, Solo(st, r, run)) && ParsedUpTo(w, st, run, b) && run.s == s && run.e == e
    {
      EntryHasResult(w, s, b, e);
      hide Leads, ParsedUpTo, Truthful, StepAt;
      states, run := ParseOne(states, st, r, w, run, b);
    }
    AllParsed(w, st, run);
    states := Finishes(states, st, r, run);
  }

  lemma {:induction false} EntryHasResult(w: World, s: nat, b: nat, e: nat)
    requires s <= b < e && WindowKeys(w, s, e).Some?
    ensures w.responses(b) != NoResult
    decreases e
  {
    if w.responses(b) == NoResult {
      NoKeysFrom(w, s, b + 1, e);
    }
  }

  lemma AllParsed(w: World, st: State, run: Run)
    requires ParsedUpTo(w, st, run, run.e) && WindowKeys(w, run.s, run.e).Some?
    ensures AllEntriesDone(run) && run.pc == Fetched && run.staged == multiset{}
    ensures WindowKeys(w, run.s, run.e) == Some(run.bulkParams)
  {
    forall b | run.s <= b < run.e
      ensures b in run.errors || b in run.missing || b in ParsedBlocks(run)
    {
      EntryHasResult(w, run.s, b, run.e);
    }
  }

  lemma Finishes(states: seq<State>, st: State, r: RunId, run: Run) returns (longer: seq<State>)
    requires Leads(states, st, Solo(st, r, run)) && st.runs == map[] && AllEntriesDone(run) && run.pc == Fetched
    ensures longer != [] && longer[0] == st && forall i :: 0 <= i < |longer| - 1 ==> StepAt(longer, i)
    ensures var st' := longer[|longer| - 1];
            && st'.runs == map[] && st'.cursor == run.e
            && st'.rows == st.rows + InsertIgnore(st.rows, multiset{}, run.bulkParams)
  {
    hide Leads, InsertIgnore, AllEntriesDone;
    var begun := run.(pc := Opened);
    longer := ExtendSolo(states, st, st, r, run, Begin(r), begun);
    var inserted := begun.(pc := Inserted, staged := InsertIgnore(st.rows, multiset{}, run.bulkParams));
    longer := ExtendSolo(longer, st, st, r, begun, Insert(r), inserted);
    longer := Extend(longer, st, Solo(st, r, inserted), Commit(r));
    LeadsEnds(longer, st, Step(Solo(st, r, inserted), Commit(r)));
    assert map[r := inserted] - {r} == map[];
  }

  lemma LeadsEnds(states: seq<State>, st: State, st': State)
    requires Leads(states, st, st')
    ensures states != [] && states[0] == st && states[|states| - 1] == st'
    ensures forall i :: 0 <= i < |states| - 1 ==> StepAt(states, i)
  {
  }
}
