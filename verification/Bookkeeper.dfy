/** The worker's event loop on the real objects: each event calls the running
    list, the status table and the recently-committed table, and does to their
    contents exactly what the event says. */
module Bookkeeper {
  import opened Options
  import opened TrxStatus
  import RL = RunningList
  import ST = StatusTable
  import opened Rct
  import opened Worker

  // ---------- invariants, wrapped so that they are unfolded only on request ----------

  ghost predicate TableHeld(t: ST.Table, k: nat)
    reads t, t.slots
  {
    if k == 0 then t.Valid() else TableHeld(t, k - 1)
  }

  lemma {:induction false} OpenTable(t: ST.Table, k: nat)
    ensures TableHeld(t, k) <==> t.Valid()
  {
    if k != 0 {
      OpenTable(t, k - 1);
    }
  }

  ghost predicate ListHeld(r: RL.RunningTrxList, k: nat)
    reads r, r.list, r.list.repr
  {
    if k == 0 then r.Valid() else ListHeld(r, k - 1)
  }

  lemma {:induction false} OpenList(r: RL.RunningTrxList, k: nat)
    ensures ListHeld(r, k) <==> r.Valid()
  {
    if k != 0 {
      OpenList(r, k - 1);
    }
  }

  ghost predicate SafeHeld(a: Abs, k: nat) {
    if k == 0 then Safe(a) else SafeHeld(a, k - 1)
  }

  lemma {:induction false} OpenSafe(a: Abs, k: nat)
    ensures SafeHeld(a, k) <==> Safe(a)
  {
    if k != 0 {
      OpenSafe(a, k - 1);
    }
  }

  // ---------- the operations, with the part of their contracts needed here ----------

  method EnterList(r: RL.RunningTrxList, ts: nat, ghost k: nat)
    requires ListHeld(r, k) && ts > r.maxBt
    modifies r, r.list, r.list.repr
    ensures ListHeld(r, k) && fresh(r.list.repr - old(r.list.repr))
    ensures r.bts == old(r.bts) + [ts] && r.maxBt == ts && r.minBt == if old(r.bts) == [] then ts else old(r.minBt)
  {
    OpenList(r, k);
    ghost var bts := r.bts;
    var ok := r.InsertTrx(ts);
    assert bts != [] ==> r.bts[0] == bts[0];
    OpenList(r, k);
  }

  method LeaveList(r: RL.RunningTrxList, bt: nat, ghost k: nat)
    requires ListHeld(r, k) && bt in r.bts
    modifies r, r.list, r.list.repr
    ensures ListHeld(r, k) && r.list.repr == old(r.list.repr) && r.maxBt == old(r.maxBt)
    ensures var i := FirstIndex(old(r.bts), bt);
            r.bts == RL.Without(old(r.bts), i) && r.minBt == RL.NextMin(old(r.bts), old(r.minBt), old(r.maxBt), i)
  {
    OpenList(r, k);
    ghost var bts := r.bts;
    var ok, i := r.EraseTrx(bt);
    OnlyIndex(bts, bt, i);
    OpenList(r, k);
  }

  lemma {:induction false} OnlyIndex(s: seq<nat>, x: nat, i: nat)
    requires RL.Ascending(s) && i < |s| && s[i] == x
    ensures FirstIndex(s, x) == i
  {
  }

  /** The status word of a transaction that nothing has been asked of yet. */
  ghost predicate JustBegun(w: TidStatus) {
    GetState(w) == Some(Processing) && w.ct == 0
  }

  method EnterTable(t: ST.Table, id: Id, ts: nat, readonly: bool, ghost k: nat) returns (ok: bool, ghost listed: bool)
    requires TableHeld(t, k) && id != 0 && id !in t.slotOf
    modifies t, t.slots
    ensures TableHeld(t, k) && (listed ==> readonly)
    ensures ok ==> t.model.Keys == old(t.model.Keys) + {id} && t.slotOf.Keys == old(t.slotOf.Keys) + {id}
    ensures ok ==> t.model == old(t.model)[id := t.model[id]] && JustBegun(t.model[id])
    ensures ok ==> t.due == if listed then old(t.due)[id := ts] else old(t.due)
  {
    OpenTable(t, k);
    listed := readonly && !t.Crowded(id);
    var r := t.Insert(id, ts, readonly);
    ok := r == ST.Inserted;
    OpenTable(t, k);
  }

  method SetValidating(t: ST.Table, id: Id, ct: nat, ghost k: nat) returns (ok: bool)
    requires TableHeld(t, k) && id != 0 && id in t.model
    modifies t.slots, t`model
    ensures TableHeld(t, k) && t.model.Keys == old(t.model.Keys)
    ensures ok <==> GetState(old(t.model)[id]) == Some(Processing)
    ensures ok ==> t.model == old(t.model)[id := old(t.model)[id].(ct := ct, V := true)]
  {
    OpenTable(t, k);
    var c := t.ModifyWithCt(id, ct);
    ok := c == ST.Changed;
    OpenTable(t, k);
  }

  method RecordEnd(t: ST.Table, id: Id, ts: nat, ghost k: nat)
    requires TableHeld(t, k) && id in t.model && id !in t.due
    modifies t`nro, t`due
    ensures TableHeld(t, k) && t.due == old(t.due)[id := ts]
  {
    OpenTable(t, k);
    t.RecordNro(id, ts);
    OpenTable(t, k);
  }

  method CollectTable(t: ST.Table, minBt: nat, ghost k: nat) returns (ghost gone: set<Id>)
    requires TableHeld(t, k)
    modifies t, t.slots
    ensures TableHeld(t, k) && t.model.Keys == old(t.model.Keys) - gone && t.due == old(t.due) - gone && t.slotOf == old(t.slotOf)
    ensures forall id | id in gone :: id in old(t.due) && old(t.due)[id] < minBt
    ensures ST.Exhausted(t.ro, minBt) && ST.Exhausted(t.nro, minBt)
  {
    OpenTable(t, k);
    ghost var roIds;
    var nroIds;
    nroIds, roIds := t.EraseViaMinBt(minBt);
    gone := ST.IdsIn(roIds) + ST.IdsIn(nroIds);
    OpenTable(t, k);
  }

  method AddRow(c: RCTable, ct: nat, id: Id, ghost a: Abs)
    requires SafeHeld(a, 3) && a.rows == c.rows && ct > a.clock
    modifies c
    ensures c.rows == old(c.rows) + [Row(ct, id)] && Sorted(c.rows)
  {
    OpenSafe(a, 3);
    RowsSorted(a);
    CommitSafe(a, id, ct);
    c.InsertTrx(ct, id);
  }

  lemma {:induction false} RowsSorted(a: Abs)
    requires Safe(a)
    ensures Sorted(a.rows)
  {
  }

  method DropRows(c: RCTable, minBt: nat, ghost a: Abs)
    requires SafeHeld(a, 3) && a.rows == c.rows && minBt == a.globalMin
    modifies c
    ensures c.rows == old(c.rows)[CountBelow(old(c.rows), minBt)..]
  {
    OpenSafe(a, 3);
    RowsSorted(a);
    ghost var rows := c.rows;
    ghost var k := c.EraseTrxs(minBt);
    ExactCut(rows, minBt, k);
  }

  /** The rows before the watermark are exactly a prefix. */
  lemma {:induction false} ExactCut(rows: seq<Row>, x: nat, k: nat)
    requires k <= |rows| && (forall i | 0 <= i < k :: rows[i].ct < x) && (forall i | k <= i < |rows| :: rows[i].ct >= x)
    ensures CountBelow(rows, x) == k
    decreases |rows|
  {
    if k > 0 {
      ExactCut(rows[1..], x, k - 1);
    }
  }

  /** What the books say about an event that can happen. */
  lemma {:induction false} EventFacts(a: Abs, e: Event)
    requires SafeHeld(a, 3) && Enabled(a, e)
    ensures e.Finish? ==> a.plans[e.id].bt in a.bts
    ensures e.End? ==> e.id in a.present && e.id !in a.due
    ensures e.Begin? ==> e.ts > a.maxBt
    ensures e.Commit? ==> e.id in a.present
  {
    OpenSafe(a, 3);
    if e.Finish? || e.Commit? {
      assert Running(a, e.id);
    }
  }

  /** Every benign event keeps the books safe. */
  lemma {:induction false} HeldAfter(a: Abs, e: Event)
    requires SafeHeld(a, 3) && Enabled(a, e) && Benign(a, e)
    ensures e.Finish? ==> a.plans[e.id].bt in a.bts
    ensures SafeHeld(Do(a, e), 3) && Do(a, e).minBt >= a.minBt
  {
    OpenSafe(a, 3);
    DoSafe(a, e);
    OpenSafe(Do(a, e), 3);
  }

  lemma {:induction false} SyncHeld(a: Abs, others: seq<nat>)
    requires SafeHeld(a, 3)
    ensures SafeHeld(a.(globalMin := MaxOf(a.minBt, others)), 3) <==> NoneAhead(a.minBt, others)
  {
    OpenSafe(a, 3);
    SyncSafe(a, others);
    OpenSafe(a.(globalMin := MaxOf(a.minBt, others)), 3);
  }

  /** The next id is the one with the next number. */
  ghost predicate Numbered(n: nat, id: Id, size: nat, rank: nat) {
    rank < size && id == TrxId(n, size, rank)
  }

  /** The worker can be told from the id. */
  ghost predicate From(id: Id, size: nat, rank: nat) {
    size > 0 && id >= TRX_ID_MASK && WorkerOf(id, size) == rank
  }

  ghost predicate Fresh(ids: set<Id>, next: Id) {
    next > 0 && forall id | id in ids :: id < next
  }

  class Books {
    const size: nat
    const rank: nat
    const running: RL.RunningTrxList
    const table: ST.Table
    const rct: RCTable
    var plans: map<Id, Plan>
    var globalMin: nat
    var clock: nat
    var nextTrx: nat
    var nextId: Id
    ghost var owner: map<nat, Id>
    ghost var ending: set<Id>
    ghost var log: seq<Row>
    ghost var cut: nat

    ghost function View(): Abs
      reads this, running, table, rct
    {
      Abs(running.bts, running.minBt, running.maxBt, table.model.Keys, table.due, rct.rows,
          plans, owner, ending, globalMin, clock, log, cut)
    }

    ghost predicate Valid()
      reads this, running, running.list, running.list.repr, table, table.slots, rct
    {
      && ListHeld(running, 3) && TableHeld(table, 3) && SafeHeld(View(), 3)
      && Numbered(nextTrx, nextId, size, rank) && Fresh(table.slotOf.Keys, nextId)
    }

    constructor (size: nat, rank: nat, nMain: nat, nIndirect: nat)
      requires rank < size && nMain > 0
      ensures Valid() && View() == Initial
      ensures fresh(running) && fresh(running.list) && fresh(running.list.repr) && fresh(table) && fresh(table.slots) && fresh(rct)
    {
      this.size, this.rank, nextTrx, nextId := size, rank, 1, TrxId(1, size, rank);
      running := new RL.RunningTrxList();
      table := new ST.Table(nMain, nIndirect);
      rct := new RCTable();
      plans, globalMin, clock := map[], 0, 0;
      owner, ending, log, cut := map[], {}, [], 0;
      new;
      OpenTable(table, 3);
      OpenList(running, 3);
      assert View() == Initial;
      OpenSafe(Initial, 3);
    }

    /** RegisterTrx. */
    method Register() returns (id: Id)
      requires Numbered(nextTrx, nextId, size, rank)
      modifies `nextTrx, `nextId
      ensures Numbered(nextTrx, nextId, size, rank) && id == old(nextId) < nextId && From(id, size, rank)
      ensures id == TrxId(old(nextTrx), size, rank) && nextTrx == old(nextTrx) + 1
    {
      TrxIdWorker(nextTrx, size, rank);
      id := nextId;
      nextTrx := nextTrx + 1;
      nextId := TrxId(nextTrx, size, rank);
    }

    /** A new id enters the running list and the status table. */
    method Enter(id: Id, ts: nat, readonly: bool) returns (ok: bool, ghost listed: bool)
      requires ListHeld(running, 3) && TableHeld(table, 3) && SafeHeld(View(), 3)
      requires ts > clock && id != 0 && id !in table.slotOf && id !in table.model
      modifies `plans, `clock, `owner, running, running.list, running.list.repr, table, table.slots
      ensures fresh(running.list.repr - old(running.list.repr)) && ListHeld(running, 3) && TableHeld(table, 3)
      ensures ok ==> Enabled(old(View()), Event.Begin(id, ts, readonly, listed))
      ensures ok ==> View() == Do(old(View()), Event.Begin(id, ts, readonly, listed)) && SafeHeld(View(), 3)
      ensures ok ==> table.slotOf.Keys == old(table.slotOf.Keys) + {id}
      ensures ok ==> id in table.model && table.model == old(table.model)[id := table.model[id]] && JustBegun(table.model[id])
    {
      ghost var a := View();
      EventFacts(a, Event.Begin(id, ts, readonly, false));
      EnterList(running, ts, 3);
      ok, listed := EnterTable(table, id, ts, readonly, 3);
      if ok {
        plans, clock, owner := plans[id := Plan(ts, readonly)], ts, owner[ts := id];
        HeldAfter(a, Event.Begin(id, ts, readonly, listed));
      }
    }

    /** A begin time was allocated to a new transaction. */
    method Begin(ts: nat, readonly: bool) returns (ok: bool, id: Id, ghost listed: bool)
      requires Valid() && ts > clock
      modifies this, running, running.list, running.list.repr, table, table.slots
      ensures fresh(running.list.repr - old(running.list.repr)) && From(id, size, rank)
      ensures id == TrxId(old(nextTrx), size, rank) && nextTrx == old(nextTrx) + 1
      ensures ok ==> Enabled(old(View()), Event.Begin(id, ts, readonly, listed))
      ensures ok ==> Valid() && View() == Do(old(View()), Event.Begin(id, ts, readonly, listed))
      ensures ok ==> id !in old(table.model) && id in table.model && table.model == old(table.model)[id := table.model[id]]
      ensures ok ==> GetState(table.model[id]) == Some(Processing) && table.model[id].ct == 0
    {
      id := Register();
      FreshAbsent(table, id);
      ok, listed := Enter(id, ts, readonly);
    }

    /** A commit time was allocated: note it, validate, and ask which local
        transactions committed meanwhile.  The check on the status fails exactly
        for a transaction that is not processing any more. */
    method Commit(id: Id, ts: nat) returns (ok: bool, answer: Answer)
      requires Valid() && id in plans && ts > clock
      modifies this, table.slots, table`model, rct
      ensures id in old(table.model) && (ok <==> GetState(old(table.model)[id]) == Some(Processing))
      ensures ok ==> Valid() && View() == Do(old(View()), Event.Commit(id, ts)) && [answer] == Reply(old(View()), Event.Commit(id, ts))
      ensures ok ==> table.model == old(table.model)[id := old(table.model)[id].(ct := ts, V := true)]
      ensures ok ==> GetState(table.model[id]) == Some(Validating)
    {
      ghost var a := View();
      EventFacts(a, Event.Commit(id, ts));
      var bt := plans[id].bt;
      AddRow(rct, ts, id, a);
      PresentNotZero(table, id);
      ok := SetValidating(table, id, ts, 3);
      if !ok {
        return false, Answer(bt, ts, []);
      }
      var ids := rct.QueryTrx(bt, ts - 1);
      answer := Answer(bt, ts, ids);
      clock := ts;
      log := log + [Row(ts, id)];
      HeldAfter(a, Event.Commit(id, ts));
    }

    /** The transaction has been answered: it leaves the running list. */
    method Finish(id: Id)
      requires Valid() && id in plans
      modifies this, running, running.list, running.list.repr
      ensures running.list.repr == old(running.list.repr)
      ensures old(plans)[id].bt in old(running.bts)
      ensures Valid() && View() == Do(old(View()), Event.Finish(id))
    {
      ghost var a := View();
      EventFacts(a, Event.Finish(id));
      var p := plans[id];
      LeaveList(running, p.bt, 3);
      plans := plans - {id};
      ending := if p.readonly then ending else ending + {id};
      HeldAfter(a, Event.Finish(id));
    }

    /** The end time of an update transaction was allocated. */
    method End(id: Id, ts: nat)
      requires Valid() && id in ending && ts > clock
      modifies this, table`nro, table`due
      ensures Valid() && View() == Do(old(View()), Event.End(id, ts))
    {
      ghost var a := View();
      EventFacts(a, Event.End(id, ts));
      RecordEnd(table, id, ts, 3);
      clock := ts;
      ending := ending - {id};
      HeldAfter(a, Event.End(id, ts));
    }

    /** UpdateGlobalMinBT: the collector folds the workers' minima; the books
        stay safe exactly when no other worker is ahead. */
    method Sync(others: seq<nat>)
      requires Valid()
      modifies `globalMin
      ensures View() == Do(old(View()), Event.Sync(others))
      ensures Valid() <==> NoneAhead(running.minBt, others)
    {
      ghost var a := View();
      globalMin := FoldMinima(running.minBt, others);
      SyncHeld(a, others);
    }

    method CollectRows()
      requires Valid()
      modifies this, rct
      ensures Valid() && View() == Do(old(View()), Event.CollectRows)
    {
      ghost var a := View();
      DropRows(rct, globalMin, a);
      cut := cut + CountBelow(a.rows, globalMin);
      HeldAfter(a, Event.CollectRows);
    }

    method CollectSlots() returns (ghost gone: set<Id>)
      requires Valid()
      modifies table, table.slots
      ensures Enabled(old(View()), Event.CollectSlots(gone))
      ensures Valid() && View() == Do(old(View()), Event.CollectSlots(gone))
      ensures ST.Exhausted(table.ro, globalMin) && ST.Exhausted(table.nro, globalMin)
    {
      ghost var a := View();
      gone := CollectTable(table, globalMin, 3);
      HeldAfter(a, Event.CollectSlots(gone));
    }

    /** A running transaction can always be looked up. */
    method Lookup(id: Id) returns (r: Option<Stat>)
      requires Valid() && id in plans
      ensures id in table.model && r.Some? && r == GetState(table.model[id])
    {
      OpenSafe(View(), 3);
      assert Running(View(), id);
      OpenTable(table, 3);
      r := table.QueryStatus(id);
    }
  }

  lemma {:induction false} FreshAbsent(t: ST.Table, id: Id)
    requires TableHeld(t, 3) && id !in t.slotOf
    ensures id !in t.model
  {
    OpenTable(t, 3);
  }

  lemma {:induction false} PresentNotZero(t: ST.Table, id: Id)
    requires TableHeld(t, 3) && id in t.model
    ensures id != 0
  {
    OpenTable(t, 3);
  }
}
