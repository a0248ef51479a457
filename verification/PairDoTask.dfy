/** `doTask` and `run` of the pair job on their own store, in the form of the source: a transaction works on a
    staged copy and either replaces the store or leaves it alone. */
module PairDoTask {
  import opened Addresses
  import opened Arrays
  import opened CrawlWindow
  import opened PairPipeline

  /** The answers of the chain during one run. */
  datatype Chain = Chain(code: Code, contracts: set<Address>, infos: Address -> Info)

  function LookUp(c: Code, t: Table, a: Address): Lookup {
    Lookup(if c.token0(a) in t then Some(t[c.token0(a)]) else None,
           if c.token1(a) in t then Some(t[c.token1(a)]) else None)
  }

  function LookUpAll(c: Code, t: Table, multis: seq<Address>): (r: seq<Lookup>)
    ensures |r| == |multis| && forall i :: 0 <= i < |r| ==> r[i] == LookUp(c, t, multis[i])
  {
    seq(|multis|, i requires 0 <= i < |multis| => LookUp(c, t, multis[i]))
  }

  /** The chunk's new pairs, and its single positions by class. */
  function Multis(ch: Chain, committed: Table, pairs: seq<Address>): seq<Address> {
    NewMultis(ch.code, pairs, committed.Keys)
  }

  function Rest(ch: Chain, committed: Table, pairs: seq<Address>): seq<Address> {
    Remaining(Multis(ch, committed, pairs), NewSingles(ch.code, pairs, committed.Keys))
  }

  function PureSingles(ch: Chain, committed: Table, pairs: seq<Address>): seq<Address> {
    Pure(ch.code, Coded(ch.contracts, Rest(ch, committed, pairs)))
  }

  function InvalidSingles(ch: Chain, committed: Table, pairs: seq<Address>): seq<Address> {
    Uncoded(ch.contracts, Rest(ch, committed, pairs))
    + LpInSinglePosition(ch.code, Coded(ch.contracts, Rest(ch, committed, pairs)))
  }

  function AfterSingles(ch: Chain, committed: Table, nextId: nat, pairs: seq<Address>): Table {
    InsertAll(committed, map[], SingleParams(PureSingles(ch, committed, pairs), ch.infos), nextId)
  }

  function FirstPass(ch: Chain, committed: Table, nextId: nat, pairs: seq<Address>): (seq<Params>, seq<Address>) {
    var multis := Multis(ch, committed, pairs);
    PassOne(ch.code, ch.infos, InvalidSingles(ch, committed, pairs), multis,
            LookUpAll(ch.code, committed + AfterSingles(ch, committed, nextId, pairs), multis))
  }

  function AfterFirst(ch: Chain, committed: Table, nextId: nat, pairs: seq<Address>): Table {
    InsertAll(committed, AfterSingles(ch, committed, nextId, pairs), FirstPass(ch, committed, nextId, pairs).0,
              nextId + |PureSingles(ch, committed, pairs)|)
  }

  /** The rows `doTask` stages and the next id; None: it throws. */
  function DoTask(ch: Chain, committed: Table, nextId: nat, pairs: seq<Address>): Option<(Table, nat)> {
    var (bulk, later) := FirstPass(ch, committed, nextId, pairs);
    var staged := AfterFirst(ch, committed, nextId, pairs);
    var second := PassTwo(ch.code, ch.infos, later, LookUpAll(ch.code, committed + staged, later));
    var id := nextId + |PureSingles(ch, committed, pairs)| + |bulk|;
    if second.None? then None
    else Some((InsertAll(committed, staged, second.value, id), id + |second.value|))
  }

  /** How one `run` ends. */
  datatype Outcome = NothingNew | Committed | RolledBack

  /** The outside of one run: the factory's length and pairs (None: an entry that could not be read, which no
      later call can encode), the chain, and whether some read or the commit fails. */
  datatype World = World(length: nat, pairAt: nat -> Option<Address>, chain: Chain, readsFail: bool, commitFails: bool)

  function Entries(w: World, s: nat, e: nat): (r: seq<Option<Address>>)
    requires s <= e
    ensures |r| == e - s && forall i :: 0 <= i < |r| ==> r[i] == w.pairAt(s + i)
  {
    seq(e - s, i requires 0 <= i < e - s => w.pairAt(s + i))
  }

  function Values(entries: seq<Option<Address>>): (r: seq<Address>)
    requires forall i :: 0 <= i < |entries| ==> entries[i].Some?
    ensures |r| == |entries| && forall i :: 0 <= i < |r| ==> r[i] == entries[i].value
  {
    seq(|entries|, i requires 0 <= i < |entries| => entries[i].value)
  }

  /** The outcome of one run and the store it leaves. */
  function RunOnce(w: World, table: Table, nextId: nat, pid: nat): (Outcome, Table, nat, nat) {
    if w.readsFail then (RolledBack, table, nextId, pid)
    else if pid >= w.length then (NothingNew, table, nextId, pid)
    else
      var e := WindowEnd(pid, w.length);
      var entries := Entries(w, pid, e);
      if exists i :: 0 <= i < |entries| && entries[i].None? then (RolledBack, table, nextId, pid)
      else
        var staged := DoTask(w.chain, table, nextId, Values(entries));
        if staged.None? || w.commitFails then (RolledBack, table, nextId, pid)
        else (Committed, table + staged.value.0, staged.value.1, e)
  }

  class PairJob {
    var table: Table
    var nextId: nat
    var pid: nat

    /** `createMultiTokens`: two passes over the transaction's view. None: a component is still missing in the
        second pass, and reading its status throws. */
    method CreateMultiTokens(ch: Chain, multis: seq<Address>, invalid: seq<Address>, staged: Table, id: nat)
      returns (r: Option<(Table, nat)>)
      ensures var lookups := LookUpAll(ch.code, table + staged, multis);
              var (bulk, later) := PassOne(ch.code, ch.infos, invalid, multis, lookups);
              var mid := InsertAll(table, staged, bulk, id);
              var second := PassTwo(ch.code, ch.infos, later, LookUpAll(ch.code, table + mid, later));
              r == if second.None? then None
                   else Some((InsertAll(table, mid, second.value, id + |bulk|), id + |bulk| + |second.value|))
    {
      hide PassOne, PassTwo, InsertAll, HasInvalid, MultiParams;
      var view := table + staged;
      var bulk: seq<Params>, later: seq<Address> := [], [];
      PassOneNext(ch, invalid, view, multis, 0);
      for i := 0 to |multis|
        invariant (bulk, later)
               == PassOne(ch.code, ch.infos, invalid, multis[..i], LookUpAll(ch.code, view, multis[..i]))
      {
        PassOneNext(ch, invalid, view, multis, i);
        var a := multis[i];
        if !HasInvalid(ch.code, invalid, a) {
          var l := LookUp(ch.code, view, a);
          if l.row0.None? || l.row1.None? {
            later := later + [a];
          } else if l.row0.value.status && l.row1.value.status {
            bulk := bulk + [MultiParams(a, ch.infos(a), l)];
          }
        }
      }
      assert multis[..|multis|] == multis;
      var mid := InsertAll(table, staged, bulk, id);
      var second: seq<Params> := [];
      PassTwoNext(ch, table + mid, later, 0);
      for i := 0 to |later|
        invariant PassTwo(ch.code, ch.infos, later[..i], LookUpAll(ch.code, table + mid, later[..i])) == Some(second)
      {
        PassTwoNext(ch, table + mid, later, i);
        var l := LookUp(ch.code, table + mid, later[i]);
        if Throws(l) {
          ThrowsStay(ch.code, ch.infos, later, LookUpAll(ch.code, table + mid, later), i);
          return None;
        }
        if l.row0.value.status && l.row1.value.status {
          second := second + [MultiParams(later[i], ch.infos(later[i]), l)];
        }
      }
      assert later[..|later|] == later;
      return Some((InsertAll(table, mid, second, id + |bulk|), id + |bulk| + |second|));
    }

    /** `doTask`. */
    method RunTask(ch: Chain, pairs: seq<Address>) returns (r: Option<(Table, nat)>)
      ensures r == DoTask(ch, table, nextId, pairs)
    {
      hide PassOne, PassTwo, InsertAll, Unique, Singles, RemoveRegistered, Remaining, SingleParams;
      hide Coded, Uncoded, Pure, LpInSinglePosition;
      hide HasInvalid, LookUpAll, Composed, Filter, MapSeq;
      var uniqueMultis, uniqueSingles := Grouping(Composed(ch.code, pairs));
      var newMultis := RemoveRegistered(table.Keys, uniqueMultis);
      var newSingles := RemoveRegistered(table.Keys, uniqueSingles);
      var valid, uncoded := RemoveInvalidTokens(ch.contracts, newMultis, newSingles);
      var pure, invalid := CheckMultiTokenInSinglePosition(ch.code, valid, uncoded);
      var staged := InsertAll(table, map[], SingleParams(pure, ch.infos), nextId);
      r := CreateMultiTokens(ch, newMultis, invalid, staged, nextId + |pure|);
    }

    /** `run`: at most ten pairs from the cursor on; rows and cursor are committed together or not at all. */
    method Run(w: World) returns (outcome: Outcome)
      modifies this
      ensures (outcome, table, nextId, pid) == RunOnce(w, old(table), old(nextId), old(pid))
    {
      hide DoTask;
      if w.readsFail {
        return RolledBack;
      }
      var sPid, ePid := pid, w.length;
      if sPid >= ePid {
        return NothingNew;
      }
      if ePid - sPid > CHUNK_SIZE {
        ePid := sPid + CHUNK_SIZE;
      }
      var multiTokens: seq<Address> := [];
      ghost var entries := Entries(w, sPid, ePid);
      for i := sPid to ePid
        invariant |multiTokens| == i - sPid
        invariant forall k :: 0 <= k < i - sPid ==> entries[k] == Some(multiTokens[k])
      {
        var entry := w.pairAt(i);
        assert entries[i - sPid] == entry;
        if entry.None? {
          return RolledBack;
        }
        multiTokens := multiTokens + [entry.value];
      }
      assert multiTokens == Values(entries);
      var staged := RunTask(w.chain, multiTokens);
      if staged.None? || w.commitFails {
        return RolledBack;
      }
      table, nextId, pid := table + staged.value.0, staged.value.1, ePid;
      return Committed;
    }
  }

  lemma PassOneNext(ch: Chain, invalid: seq<Address>, view: Table, multis: seq<Address>, i: nat)
    requires i <= |multis|
    ensures i == 0 ==>
              PassOne(ch.code, ch.infos, invalid, multis[..i], LookUpAll(ch.code, view, multis[..i])) == ([], [])
    ensures i < |multis| ==>
              var lookups := LookUpAll(ch.code, view, multis[..i]);
              var (bulk, later) := PassOne(ch.code, ch.infos, invalid, multis[..i], lookups);
              var a, l := multis[i], LookUp(ch.code, view, multis[i]);
              PassOne(ch.code, ch.infos, invalid, multis[..i + 1], LookUpAll(ch.code, view, multis[..i + 1]))
              == if HasInvalid(ch.code, invalid, a) then (bulk, later)
                 else if l.row0.None? || l.row1.None? then (bulk, later + [a])
                 else if l.row0.value.status && l.row1.value.status
                 then (bulk + [MultiParams(a, ch.infos(a), l)], later)
                 else (bulk, later)
  {
    if i < |multis| {
      assert multis[..i + 1][..i] == multis[..i];
      assert LookUpAll(ch.code, view, multis[..i + 1])[..i] == LookUpAll(ch.code, view, multis[..i]);
    }
  }

  lemma PassTwoNext(ch: Chain, view: Table, later: seq<Address>, i: nat)
    requires i <= |later|
    ensures i == 0 ==> PassTwo(ch.code, ch.infos, later[..i], LookUpAll(ch.code, view, later[..i])) == Some([])
    ensures i < |later| ==>
              var bulk := PassTwo(ch.code, ch.infos, later[..i], LookUpAll(ch.code, view, later[..i]));
              var l := LookUp(ch.code, view, later[i]);
              PassTwo(ch.code, ch.infos, later[..i + 1], LookUpAll(ch.code, view, later[..i + 1]))
              == if bulk.None? || Throws(l) then None
                 else if l.row0.value.status && l.row1.value.status
                 then Some(bulk.value + [MultiParams(later[i], ch.infos(later[i]), l)])
                 else bulk
  {
    if i < |later| {
      assert later[..i + 1][..i] == later[..i];
      assert LookUpAll(ch.code, view, later[..i + 1])[..i] == LookUpAll(ch.code, view, later[..i]);
    }
  }

  lemma {:induction false} ThrowsStay(
    c: Code, infos: Address -> Info, later: seq<Address>, lookups: seq<Lookup>, i: nat)
    requires |lookups| == |later| && i < |later| && Throws(lookups[i])
    ensures PassTwo(c, infos, later, lookups).None?
    decreases |later|
  {
    var n := |later| - 1;
    if i < n {
      ThrowsStay(c, infos, later[..n], lookups[..n], i);
    }
  }

  // ---------- when a chunk aborts, in terms of the chain and the committed rows ----------

  predicate New(committed: Table, pairs: seq<Address>, a: Address) { a in pairs && a !in committed }

  /** A token that gets no row: unknown, not a pair of the chunk, and without code or itself a pair contract. */
  predicate Rejected(ch: Chain, committed: Table, pairs: seq<Address>, t: Address) {
    t !in committed && t !in pairs && (t !in ch.contracts || ch.code.token0(t) != 0 || ch.code.token1(t) != 0)
  }

  /** The status its row has, or gets in this chunk if it gets one. */
  predicate Active(ch: Chain, committed: Table, t: Address) {
    if t in committed then committed[t].status
    else ch.infos(t).name != "UNKNOWN" && ch.infos(t).symbol != "UNKNOWN"
  }

  predicate NoneRejected(ch: Chain, committed: Table, pairs: seq<Address>, m: Address) {
    !Rejected(ch, committed, pairs, ch.code.token0(m)) && !Rejected(ch, committed, pairs, ch.code.token1(m))
  }

  /** A new pair the first pass inserts. */
  predicate GoesFirst(ch: Chain, committed: Table, pairs: seq<Address>, m: Address) {
    && New(committed, pairs, m) && NoneRejected(ch, committed, pairs, m)
    && !New(committed, pairs, ch.code.token0(m)) && Active(ch, committed, ch.code.token0(m))
    && !New(committed, pairs, ch.code.token1(m)) && Active(ch, committed, ch.code.token1(m))
  }

  /** A component that has no row even in the second pass: a new pair of the same chunk which the first pass
      does not insert. */
  predicate LeftOut(ch: Chain, committed: Table, pairs: seq<Address>, t: Address) {
    New(committed, pairs, t) && !GoesFirst(ch, committed, pairs, t)
  }

  /** The pair that makes a chunk abort: nothing wrong with its tokens, but one of them is a new pair of the same
      chunk that the first pass leaves out. (A left out second token goes unnoticed when the first is inactive.) */
  predicate Blocks(ch: Chain, committed: Table, pairs: seq<Address>, m: Address) {
    && New(committed, pairs, m) && NoneRejected(ch, committed, pairs, m)
    && (LeftOut(ch, committed, pairs, ch.code.token0(m))
        || (LeftOut(ch, committed, pairs, ch.code.token1(m)) && Active(ch, committed, ch.code.token0(m))))
  }

  lemma {:induction false} PassOneMembers(
    ch: Chain, invalid: seq<Address>, view: Table, multis: seq<Address>, a: Address)
    ensures var (bulk, later) := PassOne(ch.code, ch.infos, invalid, multis, LookUpAll(ch.code, view, multis));
            var l := LookUp(ch.code, view, a);
            && (InParams(bulk, a) <==>
                  a in multis && !HasInvalid(ch.code, invalid, a) && l.row0.Some? && l.row1.Some?
                  && l.row0.value.status && l.row1.value.status)
            && (a in later <==> a in multis && !HasInvalid(ch.code, invalid, a) && (l.row0.None? || l.row1.None?))
  {
    if multis != [] {
      var n := |multis| - 1;
      var init, last := multis[..n], multis[n];
      PassOneMembers(ch, invalid, view, init, a);
      assert LookUpAll(ch.code, view, multis)[..n] == LookUpAll(ch.code, view, init);
      assert multis == init + [last];
      var (bulk0, later0) := PassOne(ch.code, ch.infos, invalid, init, LookUpAll(ch.code, view, init));
      var (bulk, later) := PassOne(ch.code, ch.infos, invalid, multis, LookUpAll(ch.code, view, multis));
      AppendedParams(bulk0, bulk, a);
    }
  }

  lemma AppendedParams(bulk0: seq<Params>, bulk: seq<Params>, a: Address)
    requires bulk == bulk0 || (|bulk| == |bulk0| + 1 && bulk[..|bulk0|] == bulk0)
    ensures InParams(bulk, a) <==> InParams(bulk0, a) || (|bulk| > |bulk0| && bulk[|bulk0|].address == a)
  {
    if i :| 0 <= i < |bulk0| && bulk0[i].address == a {
      assert bulk[i] == bulk0[i];
    }
    if i :| 0 <= i < |bulk| && bulk[i].address == a {
      if i < |bulk0| {
        assert bulk0[i] == bulk[..|bulk0|][i];
      }
    }
  }

  lemma SingleOfChunk(c: Code, pairs: seq<Address>, m: Address)
    requires m in pairs
    ensures c.token0(m) in Singles(Composed(c, pairs)) && c.token1(m) in Singles(Composed(c, pairs))
  {
    var composed := Composed(c, pairs);
    SinglesMembers(composed);
    var k :| 0 <= k < |pairs| && pairs[k] == m;
    assert composed[k].token0 == c.token0(m) && composed[k].token1 == c.token1(m);
  }

  lemma MultisExact(ch: Chain, committed: Table, pairs: seq<Address>, m: Address)
    ensures m in Multis(ch, committed, pairs) <==> New(committed, pairs, m)
  {
    var registered := committed.Keys;
    assert MapSeq((p: PairInfo) => p.pair, Composed(ch.code, pairs)) == pairs;
    UniqueIsSet(pairs);
    FilterMembers(a => a !in registered, Unique(pairs));
  }

  lemma NewSinglesExact(c: Code, pairs: seq<Address>, registered: set<Address>, t: Address)
    ensures t in NewSingles(c, pairs, registered) <==> t in Singles(Composed(c, pairs)) && t !in registered
    ensures Distinct(NewSingles(c, pairs, registered))
  {
    UniqueIsSet(Singles(Composed(c, pairs)));
    FilterMembers(a => a !in registered, Unique(Singles(Composed(c, pairs))));
  }

  lemma SinglesInserted(ch: Chain, committed: Table, nextId: nat, pairs: seq<Address>, t: Address)
    ensures t in AfterSingles(ch, committed, nextId, pairs) <==>
            t in PureSingles(ch, committed, pairs) && t !in committed
    ensures t in AfterSingles(ch, committed, nextId, pairs) ==>
              AfterSingles(ch, committed, nextId, pairs)[t].status == Known(ch.infos(t))
  {
    var pure := PureSingles(ch, committed, pairs);
    var params := SingleParams(pure, ch.infos);
    InsertAllExact(committed, map[], params, nextId);
    hide InsertAll, PureSingles;
    if t in pure {
      var i :| 0 <= i < |pure| && pure[i] == t;
      assert params[i].address == t;
    }
    if t in AfterSingles(ch, committed, nextId, pairs) {
      var staged := AfterSingles(ch, committed, nextId, pairs);
      assert Written(params, nextId, t, staged[t]);
    }
  }

  predicate TokenOf(c: Code, m: Address, t: Address) { t == c.token0(m) || t == c.token1(m) }

  /** The invalid and the pure singles, for a token of a new pair. */
  lemma RejectedExactly(ch: Chain, committed: Table, pairs: seq<Address>, m: Address, t: Address)
    requires New(committed, pairs, m) && TokenOf(ch.code, m, t)
    ensures t in InvalidSingles(ch, committed, pairs) <==> Rejected(ch, committed, pairs, t)
    ensures t in PureSingles(ch, committed, pairs) <==>
            t !in committed && t !in pairs && !Rejected(ch, committed, pairs, t)
  {
    MultisExact(ch, committed, pairs, t);
    SingleOfChunk(ch.code, pairs, m);
    NewSinglesExact(ch.code, pairs, committed.Keys, t);
    var multis, singles := Multis(ch, committed, pairs), NewSingles(ch.code, pairs, committed.Keys);
    SinglesPartitioned(ch.code, ch.contracts, multis, singles, t);
    hide NewSingles, Multis, Uncoded, Coded, LpInSinglePosition, Pure, Remaining, Composed, Singles, IsLp;
  }

  lemma InvalidExactly(ch: Chain, committed: Table, pairs: seq<Address>, m: Address)
    requires New(committed, pairs, m)
    ensures HasInvalid(ch.code, InvalidSingles(ch, committed, pairs), m) <==> !NoneRejected(ch, committed, pairs, m)
  {
    RejectedExactly(ch, committed, pairs, m, ch.code.token0(m));
    RejectedExactly(ch, committed, pairs, m, ch.code.token1(m));
    hide InvalidSingles, PureSingles, Rejected;
  }

  /** Where a token of a new pair stands after the single tokens are in, unless it is rejected: it has a row, active
      as `Active` says, or it is itself a new pair of the chunk. */
  lemma ComponentPlace(ch: Chain, committed: Table, nextId: nat, pairs: seq<Address>, m: Address, t: Address)
    requires New(committed, pairs, m) && TokenOf(ch.code, m, t) && !Rejected(ch, committed, pairs, t)
    ensures var view := committed + AfterSingles(ch, committed, nextId, pairs);
            && (t in view <==> !New(committed, pairs, t))
            && (t in view ==> view[t].status == Active(ch, committed, t))
  {
    RejectedExactly(ch, committed, pairs, m, t);
    SinglesInserted(ch, committed, nextId, pairs, t);
    hide InvalidSingles, PureSingles, AfterSingles, Rejected;
  }

  /** Exactly which new pairs the first pass inserts, and which it puts off. */
  lemma FirstPassMembers(ch: Chain, committed: Table, nextId: nat, pairs: seq<Address>, m: Address)
    ensures var (bulk, later) := FirstPass(ch, committed, nextId, pairs);
            && (InParams(bulk, m) <==> GoesFirst(ch, committed, pairs, m))
            && (m in later <==>
                  New(committed, pairs, m) && NoneRejected(ch, committed, pairs, m)
                  && (New(committed, pairs, ch.code.token0(m)) || New(committed, pairs, ch.code.token1(m))))
  {
    MultisExact(ch, committed, pairs, m);
    PassOneMembers(ch, InvalidSingles(ch, committed, pairs), committed + AfterSingles(ch, committed, nextId, pairs),
                   Multis(ch, committed, pairs), m);
    hide InvalidSingles, Multis, AfterSingles, PassOne, LookUpAll, InParams, Rejected, Active, HasInvalid;
    if New(committed, pairs, m) {
      InvalidExactly(ch, committed, pairs, m);
      if NoneRejected(ch, committed, pairs, m) {
        ComponentPlace(ch, committed, nextId, pairs, m, ch.code.token0(m));
        ComponentPlace(ch, committed, nextId, pairs, m, ch.code.token1(m));
      }
    }
  }

  ghost predicate StatusesKnown(infos: Address -> Info, bulk: seq<Params>) {
    forall i :: 0 <= i < |bulk| ==> bulk[i].status == Known(infos(bulk[i].address))
  }

  lemma {:induction false} PassOneStatus(
    c: Code, infos: Address -> Info, invalid: seq<Address>, multis: seq<Address>, lookups: seq<Lookup>)
    requires |lookups| == |multis|
    ensures StatusesKnown(infos, PassOne(c, infos, invalid, multis, lookups).0)
  {
    if multis != [] {
      var n := |multis| - 1;
      PassOneStatus(c, infos, invalid, multis[..n], lookups[..n]);
    }
  }

  /** A token has a row in the second pass unless it is rejected or left out, and the row is as active as expected. */
  lemma PresentInSecondPass(ch: Chain, committed: Table, nextId: nat, pairs: seq<Address>, m: Address, t: Address)
    requires New(committed, pairs, m) && TokenOf(ch.code, m, t) && !Rejected(ch, committed, pairs, t)
    ensures var view := committed + AfterFirst(ch, committed, nextId, pairs);
            && (t in view <==> !LeftOut(ch, committed, pairs, t))
            && (t in view ==> view[t].status == Active(ch, committed, t))
  {
    hide AfterSingles, FirstPass, PureSingles, GoesFirst, Rejected, InsertAll, InParams, TokenOf, StatusesKnown;
    ComponentPlace(ch, committed, nextId, pairs, m, t);
    FirstPassMembers(ch, committed, nextId, pairs, t);
    var staged, bulk := AfterSingles(ch, committed, nextId, pairs), FirstPass(ch, committed, nextId, pairs).0;
    var id := nextId + |PureSingles(ch, committed, pairs)|;
    FirstPassStatus(ch, committed, nextId, pairs);
    assert AfterFirst(ch, committed, nextId, pairs) == InsertAll(committed, staged, bulk, id);
    hide AfterFirst;
    InsertedOrThere(ch, committed, staged, bulk, id, t);
  }

  lemma InsertedOrThere(ch: Chain, committed: Table, staged: Table, bulk: seq<Params>, id: nat, t: Address)
    requires StatusesKnown(ch.infos, bulk)
    ensures var after := InsertAll(committed, staged, bulk, id);
            && (t in committed + after <==> t in committed + staged || InParams(bulk, t))
            && (t in staged ==> t in after && after[t] == staged[t])
            && (t in after && t !in staged ==> t !in committed && after[t].status == Known(ch.infos(t)))
  {
    InsertAllExact(committed, staged, bulk, id);
    var after := InsertAll(committed, staged, bulk, id);
    hide InsertAll, Known;
    if t in after && t !in staged {
      var i :| 0 <= i < |bulk| && bulk[i].address == t && after[t] == NewRow(bulk[i], id + i);
    }
    if InParams(bulk, t) {
      var i :| 0 <= i < |bulk| && bulk[i].address == t;
      assert bulk[i].address in committed || bulk[i].address in after;
    }
  }

  lemma FirstPassStatus(ch: Chain, committed: Table, nextId: nat, pairs: seq<Address>)
    ensures StatusesKnown(ch.infos, FirstPass(ch, committed, nextId, pairs).0)
  {
    hide InvalidSingles, Multis, AfterSingles, PassOne, Known;
    var multis, view := Multis(ch, committed, pairs), committed + AfterSingles(ch, committed, nextId, pairs);
    var lookups := LookUpAll(ch.code, view, multis);
    PassOneStatus(ch.code, ch.infos, InvalidSingles(ch, committed, pairs), multis, lookups);
    assert FirstPass(ch, committed, nextId, pairs)
        == PassOne(ch.code, ch.infos, InvalidSingles(ch, committed, pairs), multis, lookups);
  }

  /** Exactly when `doTask` throws once its reads have succeeded. */
  lemma AbortsExactlyWhenBlocked(ch: Chain, committed: Table, nextId: nat, pairs: seq<Address>)
    ensures DoTask(ch, committed, nextId, pairs).None? <==> exists m :: Blocks(ch, committed, pairs, m)
  {
    var later := FirstPass(ch, committed, nextId, pairs).1;
    var view := committed + AfterFirst(ch, committed, nextId, pairs);
    PassTwoThrows(ch, view, later);
    forall m
      ensures Blocks(ch, committed, pairs, m) <==> m in later && Throws(LookUp(ch.code, view, m))
    {
      BlockedExactly(ch, committed, nextId, pairs, m);
    }
    hide Blocks, FirstPass, AfterFirst, Throws, PassTwo;
    if m :| Blocks(ch, committed, pairs, m) {
      var i :| 0 <= i < |later| && later[i] == m;
      assert Throws(LookUp(ch.code, view, later[i]));
    }
  }

  lemma BlockedExactly(ch: Chain, committed: Table, nextId: nat, pairs: seq<Address>, m: Address)
    ensures var view := committed + AfterFirst(ch, committed, nextId, pairs);
            Blocks(ch, committed, pairs, m) <==>
            m in FirstPass(ch, committed, nextId, pairs).1 && Throws(LookUp(ch.code, view, m))
  {
    FirstPassMembers(ch, committed, nextId, pairs, m);
    if New(committed, pairs, m) && NoneRejected(ch, committed, pairs, m) {
      PresentInSecondPass(ch, committed, nextId, pairs, m, ch.code.token0(m));
      PresentInSecondPass(ch, committed, nextId, pairs, m, ch.code.token1(m));
    }
    hide FirstPass, AfterFirst, GoesFirst, Rejected, Active;
  }

  /** A chunk none of whose new pairs has another new pair as a token never aborts. */
  lemma FlatChunkCommits(ch: Chain, committed: Table, nextId: nat, pairs: seq<Address>)
    requires forall m :: m in pairs && m !in committed ==>
                           (ch.code.token0(m) in pairs ==> ch.code.token0(m) in committed)
                           && (ch.code.token1(m) in pairs ==> ch.code.token1(m) in committed)
    ensures DoTask(ch, committed, nextId, pairs).Some?
  {
    AbortsExactlyWhenBlocked(ch, committed, nextId, pairs);
    hide DoTask, GoesFirst;
  }

  lemma {:induction false} PassTwoThrows(ch: Chain, view: Table, later: seq<Address>)
    ensures PassTwo(ch.code, ch.infos, later, LookUpAll(ch.code, view, later)).None?
       <==> exists i :: 0 <= i < |later| && Throws(LookUp(ch.code, view, later[i]))
  {
    if later != [] {
      var n := |later| - 1;
      PassTwoThrows(ch, view, later[..n]);
      PassTwoNext(ch, view, later, n);
      assert later[..n + 1] == later;
      hide PassTwo, Throws;
      if i :| 0 <= i < n && Throws(LookUp(ch.code, view, later[..n][i])) {
        assert Throws(LookUp(ch.code, view, later[i]));
      }
      if i :| 0 <= i < |later| && Throws(LookUp(ch.code, view, later[i])) {
        if i < n {
          assert Throws(LookUp(ch.code, view, later[..n][i]));
        }
      }
    }
  }

  // ---------- what the rows say ----------

  /** A row as the chain describes it, and, for a pair, as the rows of its two tokens do. */
  predicate WellMade(ch: Chain, pairs: seq<Address>, t: Table, m: Address, row: Row) {
    && (row.kind == SINGLE || row.kind == MULTI) && (row.kind == MULTI <==> m in pairs)
    && row.address == m && row.name == ch.infos(m).name && row.decimals == ch.infos(m).decimals
    && row.status == (ch.infos(m).name != "UNKNOWN" && ch.infos(m).symbol != "UNKNOWN")
    && (row.kind == SINGLE ==>
          && m in ch.contracts && ch.code.token0(m) == 0 && ch.code.token1(m) == 0
          && row.symbol == ch.infos(m).symbol && row.pair0 == None && row.pair1 == None)
    && (row.kind == MULTI ==>
          && ch.code.token0(m) in t && ch.code.token1(m) in t
          && var row0, row1 := t[ch.code.token0(m)], t[ch.code.token1(m)];
             && row0.status && row1.status
             && row.symbol == row0.symbol + "-" + row1.symbol
             && row.pair0 == Some(row0.id) && row.pair1 == Some(row1.id))
  }

  ghost predicate ParamsWellMade(ch: Chain, pairs: seq<Address>, t: Table, kind: Kind, params: seq<Params>) {
    forall i :: 0 <= i < |params| ==>
                  params[i].kind == kind && WellMade(ch, pairs, t, params[i].address, NewRow(params[i], 0))
  }

  /** An address with code that is no pair. */
  predicate IsPureSingle(ch: Chain, pairs: seq<Address>, a: Address) {
    a !in pairs && a in ch.contracts && ch.code.token0(a) == 0 && ch.code.token1(a) == 0
  }

  lemma PureAreSingle(ch: Chain, committed: Table, pairs: seq<Address>, a: Address)
    requires a in PureSingles(ch, committed, pairs)
    ensures IsPureSingle(ch, pairs, a)
  {
    MultisExact(ch, committed, pairs, a);
    NewSinglesExact(ch.code, pairs, committed.Keys, a);
    var multis, singles := Multis(ch, committed, pairs), NewSingles(ch.code, pairs, committed.Keys);
    SinglesPartitioned(ch.code, ch.contracts, multis, singles, a);
    hide NewSingles, Multis, Uncoded, Coded, LpInSinglePosition, Pure, Remaining, Composed, Singles;
  }

  lemma SinglesWellMade(ch: Chain, pairs: seq<Address>, t: Table, singles: seq<Address>)
    requires forall a :: a in singles ==> IsPureSingle(ch, pairs, a)
    ensures ParamsWellMade(ch, pairs, t, SINGLE, SingleParams(singles, ch.infos))
  {
    var params := SingleParams(singles, ch.infos);
    forall i | 0 <= i < |params|
      ensures WellMade(ch, pairs, t, params[i].address, NewRow(params[i], 0))
    {
      assert singles[i] in singles;
      var info := ch.infos(singles[i]);
      assert params[i] == Params(singles[i], SINGLE, info.name, info.symbol, info.decimals, None, None, Known(info));
    }
  }

  lemma MultiWellMade(ch: Chain, pairs: seq<Address>, t: Table, m: Address)
    requires m in pairs
    requires var l := LookUp(ch.code, t, m); l.row0.Some? && l.row1.Some? && l.row0.value.status && l.row1.value.status
    ensures var p := MultiParams(m, ch.infos(m), LookUp(ch.code, t, m));
            p.kind == MULTI && p.address == m && WellMade(ch, pairs, t, m, NewRow(p, 0))
  {
  }

  lemma AppendWellMade(ch: Chain, pairs: seq<Address>, t: Table, kind: Kind, params: seq<Params>, p: Params)
    requires ParamsWellMade(ch, pairs, t, kind, params)
    requires p.kind == kind && WellMade(ch, pairs, t, p.address, NewRow(p, 0))
    ensures ParamsWellMade(ch, pairs, t, kind, params + [p])
  {
    hide WellMade;
  }

  lemma {:induction false} PassOneWellMade(ch: Chain, pairs: seq<Address>, t: Table, invalid: seq<Address>,
                                           multis: seq<Address>)
    requires forall m :: m in multis ==> m in pairs
    ensures ParamsWellMade(ch, pairs, t, MULTI,
                           PassOne(ch.code, ch.infos, invalid, multis, LookUpAll(ch.code, t, multis)).0)
  {
    hide WellMade;
    if multis != [] {
      var n := |multis| - 1;
      PassOneWellMade(ch, pairs, t, invalid, multis[..n]);
      PassOneNext(ch, invalid, t, multis, n);
      assert multis[..n + 1] == multis;
      var before := PassOne(ch.code, ch.infos, invalid, multis[..n], LookUpAll(ch.code, t, multis[..n])).0;
      var l := LookUp(ch.code, t, multis[n]);
      hide PassOne;
      if l.row0.Some? && l.row1.Some? && l.row0.value.status && l.row1.value.status {
        MultiWellMade(ch, pairs, t, multis[n]);
        AppendWellMade(ch, pairs, t, MULTI, before, MultiParams(multis[n], ch.infos(multis[n]), l));
      }
    }
  }

  lemma {:induction false} PassTwoWellMade(ch: Chain, pairs: seq<Address>, t: Table, later: seq<Address>)
    requires forall m :: m in later ==> m in pairs
    ensures var second := PassTwo(ch.code, ch.infos, later, LookUpAll(ch.code, t, later));
            second.Some? ==> ParamsWellMade(ch, pairs, t, MULTI, second.value)
  {
    hide WellMade;
    if later != [] {
      var n := |later| - 1;
      PassTwoWellMade(ch, pairs, t, later[..n]);
      PassTwoNext(ch, t, later, n);
      assert later[..n + 1] == later;
      var before := PassTwo(ch.code, ch.infos, later[..n], LookUpAll(ch.code, t, later[..n]));
      var l := LookUp(ch.code, t, later[n]);
      hide PassTwo;
      if before.Some? && !Throws(l) && l.row0.value.status && l.row1.value.status {
        MultiWellMade(ch, pairs, t, later[n]);
        AppendWellMade(ch, pairs, t, MULTI, before.value, MultiParams(later[n], ch.infos(later[n]), l));
      }
    }
  }

  /** The staged rows are new and well made, with ids from `low` to below `high`. */
  ghost predicate RowsWellMade(ch: Chain, pairs: seq<Address>, t: Table, committed: Table, staged: Table,
                               low: nat, high: nat)
  {
    forall m :: m in staged ==>
                  m !in committed && WellMade(ch, pairs, t, m, staged[m]) && low <= staged[m].id < high
  }

  /** Inserting well made rows keeps all of them well made, in what is visible then. */
  lemma InsertWellMade(ch: Chain, pairs: seq<Address>, committed: Table, staged: Table, kind: Kind,
                       params: seq<Params>, low: nat, id: nat)
    requires RowsWellMade(ch, pairs, committed + staged, committed, staged, low, id) && low <= id
    requires ParamsWellMade(ch, pairs, committed + staged, kind, params)
    ensures var after := InsertAll(committed, staged, params, id);
            && RowsWellMade(ch, pairs, committed + after, committed, after, low, id + |params|)
            && Extends(committed + staged, committed + after)
  {
    var after := InsertAll(committed, staged, params, id);
    InsertAllExact(committed, staged, params, id);
    hide InsertAll;
    var t, t' := committed + staged, committed + after;
    assert Extends(t, t');
    forall m | m in after
      ensures m !in committed && WellMade(ch, pairs, t', m, after[m]) && low <= after[m].id < id + |params|
    {
      if m in staged {
        StaysWellMade(ch, pairs, t, t', m, staged[m]);
      } else {
        var i :| 0 <= i < |params| && params[i].address == m && after[m] == NewRow(params[i], id + i);
        assert WellMade(ch, pairs, t, m, NewRow(params[i], 0));
        StaysWellMade(ch, pairs, t, t', m, after[m]);
      }
    }
  }

  lemma StaysWellMade(ch: Chain, pairs: seq<Address>, t: Table, t': Table, m: Address, row: Row)
    requires Extends(t, t') && WellMade(ch, pairs, t, m, row)
    ensures WellMade(ch, pairs, t', m, row)
  {
  }

  lemma TaskWellMade(ch: Chain, committed: Table, nextId: nat, pairs: seq<Address>)
    requires DoTask(ch, committed, nextId, pairs).Some?
    ensures var (staged, nextId') := DoTask(ch, committed, nextId, pairs).value;
            RowsWellMade(ch, pairs, committed + staged, committed, staged, nextId, nextId')
  {
    hide WellMade, RowsWellMade, ParamsWellMade, InsertAll, PassOne, PassTwo, Extends, SingleParams;
    hide Multis, InvalidSingles, PureSingles;
    var pure := PureSingles(ch, committed, pairs);
    assert committed + map[] == committed;
    NoRowsWellMade(ch, pairs, committed, nextId);
    forall a | a in pure
      ensures IsPureSingle(ch, pairs, a)
    {
      PureAreSingle(ch, committed, pairs, a);
    }
    SinglesWellMade(ch, pairs, committed, pure);
    InsertWellMade(ch, pairs, committed, map[], SINGLE, SingleParams(pure, ch.infos), nextId, nextId);
    var one := AfterSingles(ch, committed, nextId, pairs);
    var (bulk, later) := FirstPass(ch, committed, nextId, pairs);
    PairsOnly(ch, committed, nextId, pairs);
    PassOneWellMade(ch, pairs, committed + one, InvalidSingles(ch, committed, pairs), Multis(ch, committed, pairs));
    assert |SingleParams(pure, ch.infos)| == |pure|;
    InsertWellMade(ch, pairs, committed, one, MULTI, bulk, nextId, nextId + |pure|);
    var two := AfterFirst(ch, committed, nextId, pairs);
    PassTwoWellMade(ch, pairs, committed + two, later);
    var second := PassTwo(ch.code, ch.infos, later, LookUpAll(ch.code, committed + two, later)).value;
    InsertWellMade(ch, pairs, committed, two, MULTI, second, nextId, nextId + |pure| + |bulk|);
  }

  lemma PairsOnly(ch: Chain, committed: Table, nextId: nat, pairs: seq<Address>)
    ensures forall m :: m in Multis(ch, committed, pairs) ==> m in pairs
    ensures forall m :: m in FirstPass(ch, committed, nextId, pairs).1 ==> m in pairs
  {
    hide Multis, FirstPass, NoneRejected, GoesFirst;
    forall m
      ensures m in Multis(ch, committed, pairs) ==> m in pairs
      ensures m in FirstPass(ch, committed, nextId, pairs).1 ==> m in pairs
    {
      MultisExact(ch, committed, pairs, m);
      FirstPassMembers(ch, committed, nextId, pairs, m);
    }
  }

  lemma NoRowsWellMade(ch: Chain, pairs: seq<Address>, committed: Table, id: nat)
    ensures RowsWellMade(ch, pairs, committed, committed, map[], id, id)
  {
  }

  /** Every row `doTask` stages is new, has a fresh id, and says what the chain and the visible rows say: name and
      decimals are the contract's own, status means that name and symbol are known; a pair of the chunk is a MULTI row,
      anything else a SINGLE row of a contract that is no pair; a single token has its own symbol, a pair the symbols
      of its two tokens in order, which are visible, active and referred to by id. */
  lemma StagedRowsExact(ch: Chain, committed: Table, nextId: nat, pairs: seq<Address>, m: Address)
    requires DoTask(ch, committed, nextId, pairs).Some? && m in DoTask(ch, committed, nextId, pairs).value.0
    ensures var (staged, nextId') := DoTask(ch, committed, nextId, pairs).value;
            var view, row, info := committed + staged, staged[m], ch.infos(m);
            && m !in committed && row.address == m && nextId <= row.id < nextId'
            && row.name == info.name && row.decimals == info.decimals
            && row.status == (info.name != "UNKNOWN" && info.symbol != "UNKNOWN")
            && row.kind == (if m in pairs then MULTI else SINGLE)
            && (m !in pairs ==>
                  && m in ch.contracts && ch.code.token0(m) == 0 && ch.code.token1(m) == 0
                  && row.symbol == info.symbol && row.pair0 == None && row.pair1 == None)
            && (m in pairs ==>
                  && ch.code.token0(m) in view && ch.code.token1(m) in view
                  && var row0, row1 := view[ch.code.token0(m)], view[ch.code.token1(m)];
                     && row0.status && row1.status
                     && row.symbol == row0.symbol + "-" + row1.symbol
                     && row.pair0 == Some(row0.id) && row.pair1 == Some(row1.id))
  {
    TaskWellMade(ch, committed, nextId, pairs);
    hide DoTask;
  }

  /** Pairs nested three deep in one chunk abort it: a new pair whose first token is a new pair that has itself a
      new pair as a token. */
  lemma ThreeLevelsAbort(ch: Chain, committed: Table, nextId: nat, pairs: seq<Address>, top: Address, inner: Address)
    requires New(committed, pairs, top) && New(committed, pairs, ch.code.token0(top)) && New(committed, pairs, inner)
    requires TokenOf(ch.code, ch.code.token0(top), inner)
    requires !Rejected(ch, committed, pairs, ch.code.token1(top))
    ensures DoTask(ch, committed, nextId, pairs).None?
  {
    assert LeftOut(ch, committed, pairs, ch.code.token0(top));
    assert Blocks(ch, committed, pairs, top);
    AbortsExactlyWhenBlocked(ch, committed, nextId, pairs);
  }

  function RunAll(worlds: seq<World>, table: Table, nextId: nat, pid: nat): (Table, nat, nat) {
    if worlds == [] then (table, nextId, pid)
    else
      var (before, id, at) := RunAll(worlds[..|worlds| - 1], table, nextId, pid);
      var (_, table', nextId', pid') := RunOnce(worlds[|worlds| - 1], before, id, at);
      (table', nextId', pid')
  }

  /** The run would take this chunk from the cursor. */
  ghost predicate Takes(w: World, pid: nat, ch: Chain, pairs: seq<Address>) {
    && pid < w.length && w.chain == ch
    && Entries(w, pid, WindowEnd(pid, w.length)) == seq(|pairs|, i requires 0 <= i < |pairs| => Some(pairs[i]))
  }

  /** A blocked chunk is rolled back, whatever id comes next. */
  lemma BlockedRun(w: World, ch: Chain, pairs: seq<Address>, m: Address, table: Table, nextId: nat, pid: nat)
    requires Blocks(ch, table, pairs, m) && Takes(w, pid, ch, pairs)
    ensures RunOnce(w, table, nextId, pid) == (RolledBack, table, nextId, pid)
  {
    AbortsExactlyWhenBlocked(ch, table, nextId, pairs);
    hide DoTask, Blocks;
    var entries := Entries(w, pid, WindowEnd(pid, w.length));
    assert Values(entries) == pairs;
  }

  /** As long as the chain answers alike and the rows are the same, every run that takes a blocked chunk leaves rows
      and cursor where they are. */
  lemma {:induction false} BlockedChunkStays(worlds: seq<World>, ch: Chain, pairs: seq<Address>, m: Address,
                                             table: Table, nextId: nat, pid: nat)
    requires Blocks(ch, table, pairs, m)
    requires forall i :: 0 <= i < |worlds| ==> Takes(worlds[i], pid, ch, pairs)
    ensures RunAll(worlds, table, nextId, pid) == (table, nextId, pid)
  {
    hide RunOnce, Blocks;
    if worlds != [] {
      var n := |worlds| - 1;
      assert forall i :: 0 <= i < n ==> worlds[..n][i] == worlds[i];
      BlockedChunkStays(worlds[..n], ch, pairs, m, table, nextId, pid);
      BlockedRun(worlds[n], ch, pairs, m, table, nextId, pid);
      hide Takes;
    }
  }
}
