/** One worker's bookkeeping of its transactions: the running list with its
    watermark, the status table, the recently-committed table, and garbage
    collection against the watermark.  Timestamps come from one increasing clock. */
module Worker {
  import RL = RunningList
  import opened Rct

  datatype Plan = Plan(bt: nat, readonly: bool)

  /** The worker's state as values. */
  datatype Abs = Abs(
    bts: seq<nat>, minBt: nat, maxBt: nat,   // running list
    present: set<Id>, due: map<Id, nat>,     // status table
    rows: seq<Row>,                          // recently-committed table
    plans: map<Id, Plan>,                    // transactions that have not finished
    owner: map<nat, Id>,                     // whose begin time this is
    ending: set<Id>,                         // finished update transactions whose end is not recorded yet
    globalMin: nat, clock: nat,
    log: seq<Row>, cut: nat)                 // every local commit so far; the first `cut` were collected

  /** Nothing a running transaction needs has been collected. */
  ghost predicate Safe(a: Abs) {
    && RL.Ascending(a.bts) && RL.Watermark(a.bts, a.minBt, a.maxBt) && a.maxBt <= a.clock && a.globalMin <= a.minBt
    && a.due.Keys <= a.present
    && (forall id | id in a.plans :: Running(a, id))
    && (forall id | id in a.ending :: id in a.present && id !in a.due && id !in a.plans)
    && Recorded(a)
  }

  /** A running transaction is in the running list and in the status table. */
  ghost predicate Running(a: Abs, id: Id)
    requires id in a.plans
  {
    && id in a.present && a.plans[id].bt in a.bts && a.plans[id].bt <= a.clock
    && a.plans[id].bt in a.owner && a.owner[a.plans[id].bt] == id
    && (id in a.due ==> a.plans[id].readonly && a.due[id] == a.plans[id].bt)
    && (forall i | 0 <= i < |a.log| :: a.log[i].ct != a.plans[id].bt)
  }

  /** The table holds every commit that was not collected. */
  ghost predicate Recorded(a: Abs) {
    && Sorted(a.log) && (forall i | 0 <= i < |a.log| :: a.log[i].ct <= a.clock)
    && a.cut <= |a.log| && a.rows == a.log[a.cut..]
    && (forall i | 0 <= i < a.cut :: a.log[i].ct < a.globalMin)
  }

  lemma {:induction false} AppendTime(bts: seq<nat>, minBt: nat, maxBt: nat, ts: nat)
    requires RL.Ascending(bts) && RL.Watermark(bts, minBt, maxBt) && ts > maxBt
    ensures RL.Ascending(bts + [ts]) && RL.Watermark(bts + [ts], if bts == [] then ts else minBt, ts)
    ensures ts in bts + [ts] && forall x | x in bts :: x in bts + [ts]
  {
  }

  function Begun(a: Abs, id: Id, ts: nat, readonly: bool, listed: bool): Abs {
    a.(bts := a.bts + [ts], minBt := if a.bts == [] then ts else a.minBt, maxBt := ts,
       present := a.present + {id}, due := if listed then a.due[id := ts] else a.due,
       plans := a.plans[id := Plan(ts, readonly)], owner := a.owner[ts := id], clock := ts)
  }

  lemma {:induction false} BeginOthers(a: Abs, id: Id, ts: nat, readonly: bool, listed: bool, x: Id)
    requires x in a.plans && x != id && Running(a, x) && ts > a.clock
    requires forall t | t in a.bts :: t in a.bts + [ts]
    ensures Running(Begun(a, id, ts, readonly, listed), x)
  {
  }

  lemma {:induction false} BeginSelf(a: Abs, id: Id, ts: nat, readonly: bool, listed: bool)
    requires Recorded(a) && ts > a.clock && (listed ==> readonly) && id !in a.due
    ensures Running(Begun(a, id, ts, readonly, listed), id) && Recorded(Begun(a, id, ts, readonly, listed))
  {
  }

  lemma {:induction false} BeginSafe(a: Abs, id: Id, ts: nat, readonly: bool, listed: bool)
    requires Safe(a) && ts > a.clock && id !in a.present && (listed ==> readonly)
    ensures Safe(Begun(a, id, ts, readonly, listed))
  {
    var b := Begun(a, id, ts, readonly, listed);
    AppendTime(a.bts, a.minBt, a.maxBt, ts);
    BeginSelf(a, id, ts, readonly, listed);
    forall x | x in b.plans ensures Running(b, x) {
      if x != id {
        BeginOthers(a, id, ts, readonly, listed, x);
      }
    }
  }

  lemma {:induction false} CommitSafe(a: Abs, id: Id, ct: nat)
    requires Safe(a) && ct > a.clock
    ensures Safe(a.(rows := a.rows + [Row(ct, id)], log := a.log + [Row(ct, id)], clock := ct))
    ensures forall i | 0 <= i < |a.rows| :: a.rows[i].ct < ct
  {
  }

  /** query_trx with the arguments of a committing transaction. */
  function AnswerOf(rows: seq<Row>, bt: nat, ct: nat): seq<Id> {
    if ct - 1 <= bt then [] else Between(rows, bt, ct - 1)
  }

  /** Collected rows and the own row do not show in the answer. */
  lemma {:induction false} AnswerFromRows(log: seq<Row>, cut: nat, rows: seq<Row>, bt: nat, ct: nat, id: Id)
    requires cut <= |log| && rows == log[cut..] && ct > 0
    requires forall i | 0 <= i < cut :: log[i].ct < bt
    requires forall i | 0 <= i < |log| :: log[i].ct != bt
    ensures AnswerOf(rows + [Row(ct, id)], bt, ct) == Between(log + [Row(ct, id)], bt + 1, ct - 1)
  {
    var rows', all := rows + [Row(ct, id)], log + [Row(ct, id)];
    assert rows'[..|rows|] == rows && all[..|log|] == log;
    SameBetween(log, bt, ct - 1, bt + 1, ct - 1);
    DropBetween(log, cut, bt, ct - 1);
    if ct - 1 <= bt {
      NoneBetween(log, bt + 1, ct - 1);
    }
  }

  /** The watermark is at most every running begin time. */
  lemma {:induction false} WatermarkBelow(a: Abs, id: Id)
    requires Safe(a) && id in a.plans
    ensures a.globalMin <= a.minBt <= a.plans[id].bt
  {
  }

  lemma {:induction false} FinishSafe(a: Abs, id: Id, i: nat, minBt: nat)
    requires Safe(a) && id in a.plans && i < |a.bts| && a.bts[i] == a.plans[id].bt
    requires minBt == RL.NextMin(a.bts, a.minBt, a.maxBt, i)
    ensures Safe(Finished(a, id, i, minBt)) && minBt >= a.minBt
  {
    RL.WatermarkWithout(a.bts, a.minBt, a.maxBt, i);
    RL.AscendingWithout(a.bts, i);
    var b := Finished(a, id, i, minBt);
    assert Running(a, id);
    forall x | x in b.plans ensures Running(b, x) {
      assert Running(a, x);
      RL.StillIn(a.bts, i, a.plans[x].bt);
    }
  }

  function Finished(a: Abs, id: Id, i: nat, minBt: nat): Abs
    requires id in a.plans && i < |a.bts|
  {
    a.(bts := RL.Without(a.bts, i), minBt := minBt, plans := a.plans - {id},
       ending := if a.plans[id].readonly then a.ending else a.ending + {id})
  }

  lemma {:induction false} EndSafe(a: Abs, id: Id, ts: nat)
    requires Safe(a) && id in a.ending && ts > a.clock
    ensures Safe(a.(due := a.due[id := ts], ending := a.ending - {id}, clock := ts))
  {
  }

  /** UpdateGlobalMinBT folds the workers' minima with max. */
  function MaxOf(own: nat, others: seq<nat>): (m: nat)
    ensures m >= own && (forall i | 0 <= i < |others| :: m >= others[i]) && (m == own || m in others)
  {
    if others == [] then own
    else
      var m := MaxOf(own, others[..|others| - 1]);
      if m >= others[|others| - 1] then m else others[|others| - 1]
  }

  method FoldMinima(own: nat, others: seq<nat>) returns (m: nat)
    ensures m == MaxOf(own, others)
  {
    m := own;
    for i := 0 to |others|
      invariant m == MaxOf(own, others[..i])
    {
      assert others[..i + 1][..i] == others[..i];
      if m < others[i] {
        m := others[i];
      }
    }
    assert others[..|others|] == others;
  }

  /** No other worker's minimum is ahead of the own one. */
  predicate NoneAhead(own: nat, others: seq<nat>) {
    forall i | 0 <= i < |others| :: others[i] <= own
  }

  /** The folded watermark is safe exactly when no other worker's minimum is ahead. */
  lemma {:induction false} SyncSafe(a: Abs, others: seq<nat>)
    requires Safe(a)
    ensures Safe(a.(globalMin := MaxOf(a.minBt, others))) <==> NoneAhead(a.minBt, others)
  {
    var g := MaxOf(a.minBt, others);
    var b := a.(globalMin := g);
    assert g == a.minBt || !NoneAhead(a.minBt, others);
    if NoneAhead(a.minBt, others) {
      assert b.globalMin == b.minBt;
      forall id | id in b.plans ensures Running(b, id) {
        assert Running(a, id);
      }
    }
  }

  /** After all workers have folded, all of them are safe exactly when their minima agree. */
  lemma {:induction false} AllSafeExactly(mins: seq<nat>)
    ensures (forall w | 0 <= w < |mins| :: MaxOf(mins[w], mins) <= mins[w]) <==>
            (forall v, w | 0 <= v < |mins| && 0 <= w < |mins| :: mins[v] == mins[w])
  {
    if forall w | 0 <= w < |mins| :: MaxOf(mins[w], mins) <= mins[w] {
      forall v, w | 0 <= v < |mins| && 0 <= w < |mins| ensures mins[v] == mins[w] {
        assert mins[v] <= MaxOf(mins[w], mins) && mins[w] <= MaxOf(mins[v], mins);
      }
    }
  }

  lemma {:induction false} CollectRowsSafe(a: Abs, k: nat)
    requires Safe(a) && k <= |a.rows| && forall i | 0 <= i < k :: a.rows[i].ct < a.globalMin
    ensures Safe(a.(rows := a.rows[k..], cut := a.cut + k))
  {
  }

  /** Only entries due before the watermark go, and a running transaction is not among them. */
  lemma {:induction false} CollectSlotsSafe(a: Abs, gone: set<Id>)
    requires Safe(a) && forall id | id in gone :: id in a.due && a.due[id] < a.globalMin
    ensures Safe(a.(present := a.present - gone, due := a.due - gone))
  {
  }

  // ---------- transaction ids ----------

  const TRX_ID_MASK: nat := 0x8000_0000_0000_0000

  /** RegisterTrx: the n-th id of a worker. */
  function TrxId(n: nat, size: nat, rank: nat): Id {
    TRX_ID_MASK + (n * size + rank) * 256
  }

  function WorkerOf(id: Id, size: nat): nat
    requires size > 0 && id >= TRX_ID_MASK
  {
    (id - TRX_ID_MASK) / 256 % size
  }

  lemma {:induction false} DivRest(q: nat, size: nat, r: nat)
    requires r < size
    ensures (q * size + r) % size == r
  {
    var x := q * size + r;
    var q', r' := x / size, x % size;
    Multiple(q - q', size, r' - r);
  }

  lemma {:induction false} Multiple(d: int, size: int, r: int)
    requires d * size == r && 0 - size < r < size
    ensures r == 0
  {
  }

  /** Every worker can be recovered from the ids it hands out, and its ids increase. */
  lemma {:induction false} TrxIdWorker(n: nat, size: nat, rank: nat)
    requires rank < size
    ensures WorkerOf(TrxId(n, size, rank), size) == rank
    ensures TrxId(n, size, rank) < TrxId(n + 1, size, rank)
  {
    DivRest(n, size, rank);
    assert (n + 1) * size == n * size + size;
  }

  // ---------- the event loop ----------

  /** What can happen next.  Begin and Commit carry the timestamp allocated for
      them; Sync carries the minima of the other workers; `listed` tells whether the status table put a read-only transaction
      on its list; CollectSlots erases some of the slots that are due. */
  datatype Event =
    | Begin(id: Id, ts: nat, readonly: bool, listed: bool)
    | Commit(id: Id, ts: nat)
    | Finish(id: Id)
    | End(id: Id, ts: nat)
    | Sync(others: seq<nat>)
    | CollectRows
    | CollectSlots(gone: set<Id>)

  /** Timestamps increase, ids are fresh, and a transaction commits, finishes
      and ends only after it began. */
  predicate Enabled(a: Abs, e: Event) {
    match e
    case Begin(id, ts, readonly, listed) => ts > a.clock && id !in a.present && (listed ==> readonly)
    case Commit(id, ts) => ts > a.clock && id in a.plans
    case Finish(id) => id in a.plans
    case End(id, ts) => ts > a.clock && id in a.ending
    case Sync(_) => true
    case CollectRows => true
    case CollectSlots(gone) => forall id | id in gone :: id in a.due && a.due[id] < a.globalMin
  }

  /** A local query answered to a committing transaction. */
  datatype Answer = Answer(bt: nat, ct: nat, ids: seq<Id>)

  function FirstIndex(s: seq<nat>, x: nat): (i: nat)
    requires x in s
    ensures i < |s| && s[i] == x
  {
    if s[0] == x then 0 else FirstIndex(s[1..], x) + 1
  }

  function CountBelow(rows: seq<Row>, x: nat): (k: nat)
    ensures k <= |rows| && forall i | 0 <= i < k :: rows[i].ct < x
  {
    if rows == [] || rows[0].ct >= x then 0 else CountBelow(rows[1..], x) + 1
  }

  /** The event can happen and its transaction is in the running list. */
  predicate Happens(a: Abs, e: Event) {
    Enabled(a, e) && (e.Finish? ==> a.plans[e.id].bt in a.bts)
  }

  /** The effect of an event; each case is the contract of the operation behind it. */
  function Do(a: Abs, e: Event): Abs
    requires Happens(a, e)
  {
    match e
    case Begin(id, ts, readonly, listed) =>
      Begun(a, id, ts, readonly, listed)
    case Commit(id, ts) =>
      a.(rows := a.rows + [Row(ts, id)], log := a.log + [Row(ts, id)], clock := ts)
    case Finish(id) =>
      var i := FirstIndex(a.bts, a.plans[id].bt);
      Finished(a, id, i, RL.NextMin(a.bts, a.minBt, a.maxBt, i))
    case End(id, ts) =>
      a.(due := a.due[id := ts], ending := a.ending - {id}, clock := ts)
    case Sync(others) =>
      a.(globalMin := MaxOf(a.minBt, others))
    case CollectRows =>
      var k := CountBelow(a.rows, a.globalMin);
      a.(rows := a.rows[k..], cut := a.cut + k)
    case CollectSlots(gone) =>
      a.(present := a.present - gone, due := a.due - gone)
  }

  /** The local query of a committing transaction, made after its own row went in. */
  function Reply(a: Abs, e: Event): seq<Answer>
    requires Enabled(a, e)
  {
    if e.Commit? then [Answer(a.plans[e.id].bt, e.ts, AnswerOf(a.rows + [Row(e.ts, e.id)], a.plans[e.id].bt, e.ts))] else []
  }

  ghost function NewRows(e: Event): seq<Row> {
    if e.Commit? then [Row(e.ts, e.id)] else []
  }

  /** Not a sync with another worker's minimum ahead. */
  predicate Benign(a: Abs, e: Event) {
    e.Sync? ==> NoneAhead(a.minBt, e.others)
  }

  /** After a transaction has finished the local watermark is the first begin
      time still running, or one past all there were. */
  ghost predicate WatermarkMoved(b: Abs) {
    b.minBt == if b.bts == [] then b.maxBt + 1 else b.bts[0]
  }

  /** A transaction that finishes is still to be ended exactly if it updates. */
  ghost predicate OnlyUpdatesEnd(a: Abs, e: Event)
    requires e.Finish? && Happens(a, e)
  {
    forall ts | ts > a.clock :: Enabled(Do(a, e), End(e.id, ts)) <==> !a.plans[e.id].readonly
  }

  lemma {:induction false} FinishExactly(a: Abs, e: Event)
    requires Safe(a) && Enabled(a, e) && e.Finish?
    ensures a.plans[e.id].bt in a.bts && WatermarkMoved(Do(a, e)) && OnlyUpdatesEnd(a, e)
  {
    assert Running(a, e.id);
    RL.WatermarkWithout(a.bts, a.minBt, a.maxBt, FirstIndex(a.bts, a.plans[e.id].bt));
  }

  lemma {:induction false} LocalSafe(a: Abs, e: Event)
    requires Safe(a) && Enabled(a, e) && !e.Sync?
    ensures e.Finish? ==> a.plans[e.id].bt in a.bts
    ensures Safe(Do(a, e)) && Do(a, e).minBt >= a.minBt
  {
    match e
    case Begin(id, ts, readonly, listed) =>
      BeginSafe(a, id, ts, readonly, listed);
    case Commit(id, ts) => CommitSafe(a, id, ts);
    case Finish(id) =>
      assert Running(a, id);
      FinishSafe(a, id, FirstIndex(a.bts, a.plans[id].bt), Do(a, e).minBt);
    case End(id, ts) => EndSafe(a, id, ts);
    case CollectRows => CollectRowsSafe(a, CountBelow(a.rows, a.globalMin));
    case CollectSlots(gone) => CollectSlotsSafe(a, gone);
  }

  /** Exactly the benign events keep the worker safe; the local watermark never falls. */
  lemma {:induction false} DoSafe(a: Abs, e: Event)
    requires Safe(a) && Enabled(a, e)
    ensures e.Finish? ==> a.plans[e.id].bt in a.bts
    ensures Safe(Do(a, e)) <==> Benign(a, e)
    ensures Do(a, e).minBt >= a.minBt && (e.Finish? ==> WatermarkMoved(Do(a, e)) && OnlyUpdatesEnd(a, e))
  {
    if e.Sync? {
      SyncSafe(a, e.others);
    } else {
      LocalSafe(a, e);
      if e.Finish? {
        FinishExactly(a, e);
      }
    }
  }

  /** An answer is exact when it lists the local commits strictly between the two times. */
  ghost predicate Exact(log: seq<Row>, clock: nat, ans: Answer) {
    ans.ct <= clock && ans.ids == Between(log, ans.bt + 1, ans.ct - 1)
  }

  ghost predicate AllExact(log: seq<Row>, clock: nat, answers: seq<Answer>) {
    forall i | 0 <= i < |answers| :: Exact(log, clock, answers[i])
  }

  /** What a committing transaction is told: exactly the local commits strictly
      between its begin and its commit time, whatever has been collected. */
  lemma {:induction false} ReplyExact(a: Abs, id: Id, ct: nat)
    requires Safe(a) && id in a.plans && ct > a.clock
    ensures var bt := a.plans[id].bt;
            AnswerOf(a.rows + [Row(ct, id)], bt, ct) == Between(a.log + [Row(ct, id)], bt + 1, ct - 1)
  {
    assert Running(a, id);
    WatermarkBelow(a, id);
    AnswerFromRows(a.log, a.cut, a.rows, a.plans[id].bt, ct, id);
  }

  const Initial := Abs([], 0, 0, {}, map[], [], map[], map[], {}, 0, 0, [], 0)

  lemma {:induction false} ExactLater(log: seq<Row>, r: Row, clock: nat, ans: Answer)
    requires Exact(log, clock, ans) && clock < r.ct
    ensures Exact(log + [r], r.ct, ans)
  {
    assert (log + [r])[..|log|] == log;
  }

  lemma {:induction false} AnswersExact(a: Abs, e: Event, answers: seq<Answer>)
    requires Enabled(a, e) && AllExact(a.log, a.clock, answers)
    ensures AllExact(a.log + NewRows(e), if e.Commit? then e.ts else a.clock, answers)
  {
    if e.Commit? {
      forall i | 0 <= i < |answers| ensures Exact(a.log + [Row(e.ts, e.id)], e.ts, answers[i]) {
        ExactLater(a.log, Row(e.ts, e.id), a.clock, answers[i]);
      }
    } else {
      assert a.log + NewRows(e) == a.log;
    }
  }

  lemma {:induction false} DoLog(a: Abs, e: Event)
    requires Happens(a, e)
    ensures Do(a, e).log == a.log + NewRows(e) && Do(a, e).clock >= if e.Commit? then e.ts else a.clock
  {
  }

  lemma {:induction false} BothExact(log: seq<Row>, clock: nat, clock': nat, xs: seq<Answer>, ys: seq<Answer>)
    requires AllExact(log, clock, xs) && AllExact(log, clock, ys) && clock <= clock'
    ensures AllExact(log, clock', xs + ys)
  {
  }

  lemma {:induction false} ReplyAllExact(a: Abs, e: Event)
    requires Safe(a) && Enabled(a, e)
    ensures AllExact(a.log + NewRows(e), if e.Commit? then e.ts else a.clock, Reply(a, e))
  {
    if e.Commit? {
      ReplyExact(a, e.id, e.ts);
    }
  }

  /** The event loop on values; events that cannot happen are skipped. */
  function After(events: seq<Event>): Abs {
    if events == [] then Initial
    else
      var a, e := After(events[..|events| - 1]), events[|events| - 1];
      if Happens(a, e) then Do(a, e) else a
  }

  function Told(events: seq<Event>): seq<Answer> {
    if events == [] then []
    else
      var a, e := After(events[..|events| - 1]), events[|events| - 1];
      Told(events[..|events| - 1]) + if Happens(a, e) then Reply(a, e) else []
  }

  /** No sync of the run met another worker's minimum ahead of the own one. */
  predicate BenignRun(events: seq<Event>) {
    events == [] || (BenignRun(events[..|events| - 1]) && Benign(After(events[..|events| - 1]), events[|events| - 1]))
  }

  lemma {:induction false} InitialSafe()
    ensures Safe(Initial)
  {
  }

  /** At the end of every benign run, hence at every moment of it, the worker is
      safe, and every local query was answered with exactly the commits strictly
      between begin and commit time, however much was collected. */
  lemma {:induction false} RunSafe(events: seq<Event>)
    requires BenignRun(events)
    ensures Safe(After(events)) && AllExact(After(events).log, After(events).clock, Told(events))
    decreases |events|
  {
    if events == [] {
      InitialSafe();
    } else {
      var init, e := events[..|events| - 1], events[|events| - 1];
      RunSafe(init);
      if Enabled(After(init), e) {
        DoSafe(After(init), e);
        ReplyAllExact(After(init), e);
        AnswersExact(After(init), e, Told(init));
        DoLog(After(init), e);
        BothExact(Do(After(init), e).log, if e.Commit? then e.ts else After(init).clock, Do(After(init), e).clock,
                  Told(init), Reply(After(init), e));
      }
    }
  }

  /** The worker's event loop, from the start, over any events.  In a benign run
      each running transaction is in the status table with a begin time not
      below the watermark, and every local query was answered exactly. */
  method Run(events: seq<Event>) returns (a: Abs, answers: seq<Answer>)
    ensures a == After(events) && answers == Told(events)
    ensures BenignRun(events) ==> Safe(a) && AllExact(a.log, a.clock, answers)
    ensures BenignRun(events) ==> forall id | id in a.plans :: id in a.present && a.globalMin <= a.minBt <= a.plans[id].bt
  {
    a, answers := Initial, [];
    for n := 0 to |events|
      invariant a == After(events[..n]) && answers == Told(events[..n])
    {
      assert events[..n + 1][..n] == events[..n];
      if Happens(a, events[n]) {
        a, answers := Do(a, events[n]), answers + Reply(a, events[n]);
      }
    }
    assert events[..|events|] == events;
    if BenignRun(events) {
      RunSafe(events);
      forall id | id in a.plans ensures id in a.present && a.globalMin <= a.minBt <= a.plans[id].bt {
        assert Running(a, id);
        WatermarkBelow(a, id);
      }
    }
  }

  // ---------- another worker ahead ----------

  lemma {:induction false} MaxOfOne(own: nat, other: nat)
    ensures MaxOf(own, [other]) == if own >= other then own else other
  {
    assert [other][..0] == [];
  }

  lemma {:induction false} CountExact(rows: seq<Row>, x: nat, i: nat)
    requires Sorted(rows) && i < |rows|
    ensures i < CountBelow(rows, x) <==> rows[i].ct < x
    decreases |rows|
  {
    if rows[0].ct < x && i > 0 {
      CountExact(rows[1..], x, i - 1);
    }
  }

  /** The state after a sync and a collection of rows. */
  ghost function RowsCut(a: Abs, others: seq<nat>): Abs {
    Do(Do(a, Sync(others)), CollectRows)
  }

  /** What is gone then: what was gone before, and everything behind the folded watermark. */
  lemma {:induction false} CutExactly(a: Abs, others: seq<nat>)
    requires Recorded(a)
    ensures var b := RowsCut(a, others);
      && b.log == a.log && b.plans == a.plans && b.clock == a.clock && b.cut <= |a.log| && b.rows == a.log[b.cut..]
      && forall i | 0 <= i < |a.log| :: i < b.cut <==> i < a.cut || a.log[i].ct < MaxOf(a.minBt, others)
  {
    CutRows(a.log, a.cut, a.rows, MaxOf(a.minBt, others), CountBelow(a.rows, MaxOf(a.minBt, others)));
  }

  lemma {:induction false} CutRows(log: seq<Row>, cut: nat, rows: seq<Row>, g: nat, k: nat)
    requires Sorted(log) && cut <= |log| && rows == log[cut..] && k == CountBelow(rows, g)
    ensures cut + k <= |log| && rows[k..] == log[cut + k..]
    ensures forall i | 0 <= i < |log| :: i < cut + k <==> i < cut || log[i].ct < g
  {
    forall i | cut <= i < |log| ensures i - cut < k <==> log[i].ct < g {
      CountExact(rows, g, i - cut);
      assert rows[i - cut] == log[i];
    }
  }

  /** A row in the interval that is gone is missed. */
  lemma {:induction false} MissedRow(log: seq<Row>, cut: nat, lo: nat, hi: int, i: nat)
    requires i < cut <= |log| && lo <= log[i].ct <= hi
    ensures Between(log[cut..], lo, hi) != Between(log, lo, hi)
  {
    BetweenAppend(log[..cut], log[cut..], lo, hi);
    assert log == log[..cut] + log[cut..] && log[..cut][i] == log[i];
    BetweenExact(log[..cut], lo, hi, log[i].id);
  }

  lemma {:induction false} OwnRow(rows: seq<Row>, own: Row, lo: nat)
    ensures Between(rows + [own], lo, own.ct - 1) == Between(rows, lo, own.ct - 1)
  {
    TakeBetween(rows + [own], |rows|, lo, own.ct - 1);
    assert (rows + [own])[..|rows|] == rows;
  }

  /** The answer from what is left of the log is exact if and only if nothing since `bt` is gone. */
  lemma {:induction false} AnswerExactly(log: seq<Row>, cut: nat, rows: seq<Row>, bt: nat, own: Row)
    requires cut <= |log| && rows == log[cut..] && own.ct > 0
    requires forall i | 0 <= i < |log| :: bt != log[i].ct < own.ct
    ensures AnswerOf(rows + [own], bt, own.ct) == Between(log + [own], bt + 1, own.ct - 1) <==>
            forall i | 0 <= i < cut :: log[i].ct < bt
  {
    if forall i | 0 <= i < cut :: log[i].ct < bt {
      AnswerFromRows(log, cut, rows, bt, own.ct, own.id);
    } else {
      var i :| 0 <= i < cut && log[i].ct >= bt;
      AnswerMisses(log, cut, rows, bt, own, i);
    }
  }

  lemma {:induction false} AnswerMisses(log: seq<Row>, cut: nat, rows: seq<Row>, bt: nat, own: Row, i: nat)
    requires i < cut <= |log| && rows == log[cut..] && bt < log[i].ct < own.ct
    requires forall j | 0 <= j < |rows| :: rows[j].ct != bt
    ensures AnswerOf(rows + [own], bt, own.ct) != Between(log + [own], bt + 1, own.ct - 1)
  {
    OwnRow(rows, own, bt);
    OwnRow(log, own, bt + 1);
    SameBetween(rows, bt, own.ct - 1, bt + 1, own.ct - 1);
    MissedRow(log, cut, bt + 1, own.ct - 1, i);
  }

  /** The committing transaction is told exactly of the local commits since it began. */
  ghost predicate ToldExactly(b: Abs, id: Id, ct: nat)
    requires id in b.plans
  {
    AnswerOf(b.rows + [Row(ct, id)], b.plans[id].bt, ct) == Between(b.log + [Row(ct, id)], b.plans[id].bt + 1, ct - 1)
  }

  lemma {:induction false} ToldWhenKept(b: Abs, id: Id, ct: nat)
    requires b.cut <= |b.log| && b.rows == b.log[b.cut..] && id in b.plans && ct > 0
    requires forall i | 0 <= i < |b.log| :: b.plans[id].bt != b.log[i].ct < ct
    ensures ToldExactly(b, id, ct) <==> forall i | 0 <= i < b.cut :: b.log[i].ct < b.plans[id].bt
  {
    AnswerExactly(b.log, b.cut, b.rows, b.plans[id].bt, Row(ct, id));
  }

  lemma {:induction false} NoneGone(log: seq<Row>, before: nat, cut: nat, g: nat, bt: nat)
    requires before <= |log| && cut <= |log| && forall i | 0 <= i < |log| :: log[i].ct != bt
    requires forall i | 0 <= i < before :: log[i].ct < bt
    requires forall i | 0 <= i < |log| :: i < cut <==> i < before || log[i].ct < g
    ensures (forall i | 0 <= i < cut :: log[i].ct < bt) <==> forall i | 0 <= i < |log| :: !(bt < log[i].ct < g)
  {
  }

  /** After a sync and a collection a running transaction is told exactly of the
      commits since it began if and only if none of them is behind the folded watermark. */
  lemma {:induction false} ToldAfterCut(a: Abs, others: seq<nat>, id: Id, ct: nat)
    requires Safe(a) && id in a.plans && a.clock < ct
    ensures id in RowsCut(a, others).plans
    ensures ToldExactly(RowsCut(a, others), id, ct) <==>
            forall i | 0 <= i < |a.log| :: !(a.plans[id].bt < a.log[i].ct < MaxOf(a.minBt, others))
  {
    CutExactly(a, others);
    assert Running(a, id);
    WatermarkBelow(a, id);
    ToldWhenKept(RowsCut(a, others), id, ct);
    NoneGone(a.log, a.cut, RowsCut(a, others).cut, MaxOf(a.minBt, others), a.plans[id].bt);
  }

  /** With another worker ahead of its begin time a running read-only
      transaction that the table has listed may lose its slot, although the last
      two entries of a list always stay: two that are due no earlier do. */
  lemma {:induction false} SlotLost(a: Abs, id: Id, ahead: nat, p: Id, q: Id)
    requires Safe(a) && id in a.plans && id in a.due && a.due[id] < ahead
    requires p != q && p != id && q != id && p in a.due && q in a.due && a.due[id] <= a.due[p] && a.due[id] <= a.due[q]
    ensures var b := Do(a, Sync([ahead])); Enabled(b, CollectSlots({id}))
    ensures var c := Do(Do(a, Sync([ahead])), CollectSlots({id}));
            id in c.plans && id !in c.present && p in c.due && q in c.due
  {
    MaxOfOne(a.minBt, ahead);
  }

  lemma {:induction false} AfterSnoc(events: seq<Event>, e: Event)
    ensures After(events + [e]) == if Happens(After(events), e) then Do(After(events), e) else After(events)
    ensures BenignRun(events) && !e.Sync? ==> BenignRun(events + [e])
  {
    assert (events + [e])[..|events|] == events;
  }

  /** Runs that reach such states: a transaction running since time 10 beside
      one that committed at 12, and three listed read-only transactions. */
  lemma {:induction false} Updates() returns (events: seq<Event>)
    ensures var a := After(events);
      && BenignRun(events) && a.clock == 12 && 1 in a.plans && a.plans[1] == Plan(10, false) && a.log == [Row(12, 2)]
  {
    var b1, b2, c2 := Begin(1, 10, false, false), Begin(2, 11, false, false), Commit(2, 12);
    var none: seq<Event> := [];
    AfterSnoc(none, b1);
    var one := none + [b1];
    AfterSnoc(one, b2);
    var two := one + [b2];
    AfterSnoc(two, c2);
    events := two + [c2];
  }

  lemma {:induction false} Readers() returns (events: seq<Event>)
    ensures var a := After(events);
      BenignRun(events) && a.plans.Keys == a.due.Keys == {1, 2, 3} && a.due[1] == 10 && a.due[2] == 11 && a.due[3] == 12
  {
    var b1, b2, b3 := Begin(1, 10, true, true), Begin(2, 11, true, true), Begin(3, 12, true, true);
    var none: seq<Event> := [];
    AfterSnoc(none, b1);
    var one := none + [b1];
    AfterSnoc(one, b2);
    var two := one + [b2];
    AfterSnoc(two, b3);
    events := two + [b3];
  }

  /** Two workers, one at time 12 and the other with minimum 20: in the first
      run a committing transaction is not told of the commit at 12 since it
      began at 10, in the second a running read-only transaction loses its slot. */
  lemma {:induction false} OtherAhead() returns (updates: seq<Event>, readers: seq<Event>)
    ensures BenignRun(updates) && BenignRun(readers)
    ensures 1 in RowsCut(After(updates), [20]).plans && !ToldExactly(RowsCut(After(updates), [20]), 1, 30)
    ensures Enabled(Do(After(readers), Sync([20])), CollectSlots({1}))
    ensures var c := Do(Do(After(readers), Sync([20])), CollectSlots({1}));
            1 in c.plans && 1 !in c.present && 2 in c.due && 3 in c.due
  {
    updates := Updates();
    RunSafe(updates);
    MaxOfOne(After(updates).minBt, 20);
    assert After(updates).log[0].ct == 12;
    ToldAfterCut(After(updates), [20], 1, 30);
    readers := Readers();
    RunSafe(readers);
    SlotLost(After(readers), 1, 20, 2, 3);
  }
}
