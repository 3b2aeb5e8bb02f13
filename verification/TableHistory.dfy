/** Every run of the status table's writes, from the empty table on, is a
    history that a remote reader may meet. */
module TableHistory {
  import opened Options
  import opened TrxStatus
  import opened StatusTable
  import opened RemoteRead

  /** One write: a request on an occupied slot, taking a free slot, hanging a
      bucket behind a chain, listing an entry for collection, erasing the first
      listed entry. */
  datatype Write =
    | Change(k: nat, r: Request)
    | Take(k: nat, id: Id)
    | Hang(p: nat)
    | Note(k: nat, ts: nat, readonly: bool)
    | Drop(readonly: bool)

  ghost predicate Possible(x: Shot, w: Write) {
    match w
    case Change(k, r) =>
      && k < |x.slots| && Usable(k) && x.slots[k].trxId != 0 && Sound(x.slots[k]) && Apply(x.slots[k], r).Some?
    case Take(k, id) =>
      && k < 8 * x.book.used <= |x.slots| && Usable(k) && Free(x.slots[k]) && id != 0 && id !in x.book.slotOf
      && Ok(x.slots, x.book) && x.book.nMain > 0 && Home(id, x.book.nMain) < |x.book.next|
      && Reach(x.book.next, Home(id, x.book.nMain), k / 8) && EnterProcess(x.slots[k], id).Some?
    case Hang(p) => p < x.book.used < |x.book.next| && 8 * p + 7 < |x.slots| && x.book.next[p] == 0
    case Note(k, ts, readonly) => k < |x.slots| && Usable(k) && !Free(x.slots[k]) && x.slots[k].trxId !in x.book.due
    case Drop(readonly) => Ok(x.slots, x.book) && if readonly then x.book.ro != [] else x.book.nro != []
  }

  /** The slot of the first entry of a list. */
  ghost function FirstSlot(x: Shot, readonly: bool): nat
    requires if readonly then x.book.ro != [] else x.book.nro != []
  {
    if readonly then x.book.ro[0].slot else x.book.nro[0].slot
  }

  ghost function Done(x: Shot, w: Write): Shot
    requires Possible(x, w)
  {
    match w
    case Change(k, r) =>
      var s := Apply(x.slots[k], r).value;
      Shot(x.slots[k := s], Rewritten(x.book, s))
    case Take(k, id) =>
      var s := EnterProcess(x.slots[k], id).value;
      Shot(x.slots[k := s], x.book.(slotOf := x.book.slotOf[id := k], model := x.book.model[id := s]))
    case Hang(p) =>
      Shot(x.slots[8 * p + 7 := x.slots[8 * p + 7].(trxId := x.book.used)],
           x.book.(used := x.book.used + 1, next := x.book.next[p := x.book.used]))
    case Note(k, ts, readonly) =>
      Shot(x.slots, Recorded(x.book, k, x.slots[k].trxId, ts, readonly))
    case Drop(readonly) =>
      EraseOk(x.slots, x.book, readonly);
      var k := FirstSlot(x, readonly);
      Shot(x.slots[k := MarkErased(x.slots[k])], Dropped(x.book, readonly, x.slots[k].trxId))
  }

  lemma {:induction false} ChangeKeeps(s: TidStatus, r: Request)
    requires Sound(s) && Apply(s, r).Some?
    ensures Sound(Apply(s, r).value) && Apply(s, r).value.trxId == s.trxId && Apply(s, r).value.erased == s.erased
  {
  }

  ghost predicate LegalStep(x: Shot, y: Shot) {
    Ok(y.slots, y.book) && Evolves(x.slots, y.slots) && y.book.nMain == x.book.nMain
  }

  lemma {:induction false} ChangeLegal(x: Shot, w: Write)
    requires Ok(x.slots, x.book) && w.Change? && Possible(x, w)
    ensures LegalStep(x, Done(x, w))
  {
    ChangeKeeps(x.slots[w.k], w.r);
    RewriteOk(x.slots, x.book, w.k, Apply(x.slots[w.k], w.r).value);
  }

  lemma {:induction false} TakeLegal(x: Shot, w: Write)
    requires Ok(x.slots, x.book) && w.Take? && Possible(x, w)
    ensures LegalStep(x, Done(x, w))
  {
    OccupyOk(x.slots, x.book, w.k, EnterProcess(x.slots[w.k], w.id).value);
  }

  lemma {:induction false} HangLegal(x: Shot, w: Write)
    requires Ok(x.slots, x.book) && w.Hang? && Possible(x, w)
    ensures LegalStep(x, Done(x, w))
  {
    LinkOk(x.slots, x.book, w.p);
    var s := x.slots[8 * w.p + 7].(trxId := x.book.used);
    assert Done(x, w) == Shot(x.slots[8 * w.p + 7 := s], x.book.(used := x.book.used + 1, next := x.book.next[w.p := x.book.used]));
  }

  lemma {:induction false} NoteLegal(x: Shot, w: Write)
    requires Ok(x.slots, x.book) && w.Note? && Possible(x, w)
    ensures LegalStep(x, Done(x, w))
  {
    RecordOk(x.slots, x.book, w.k, w.ts, w.readonly);
  }

  lemma {:induction false} DropLegal(x: Shot, w: Write)
    requires Ok(x.slots, x.book) && w.Drop? && Possible(x, w)
    ensures LegalStep(x, Done(x, w))
  {
    EraseOk(x.slots, x.book, w.readonly);
  }

  /** Every write keeps the table in order and moves no present id. */
  lemma {:induction false} WriteLegal(x: Shot, w: Write)
    requires Ok(x.slots, x.book) && Possible(x, w)
    ensures LegalStep(x, Done(x, w))
  {
    match w
    case Change(_, _) => ChangeLegal(x, w);
    case Take(_, _) => TakeLegal(x, w);
    case Hang(_) => HangLegal(x, w);
    case Note(_, _, _) => NoteLegal(x, w);
    case Drop(_) => DropLegal(x, w);
  }

  /** The table after `t` writes; those that are not possible are skipped. */
  ghost function After(x: Shot, ws: nat -> Write, t: nat): Shot {
    if t == 0 then x
    else
      var y := After(x, ws, t - 1);
      if Possible(y, ws(t - 1)) then Done(y, ws(t - 1)) else y
  }

  ghost function Empty(nMain: nat, nIndirect: nat): Shot {
    var n := nMain + nIndirect;
    Shot(seq(8 * n, _ => Blank), Book(nMain, nMain, [], [], seq(n, _ => 0), map[], map[], map[]))
  }

  lemma {:induction false} EmptyOk(nMain: nat, nIndirect: nat)
    requires nMain > 0
    ensures Ok(Empty(nMain, nIndirect).slots, Empty(nMain, nIndirect).book)
  {
  }

  lemma {:induction false} AfterKeeps(x: Shot, ws: nat -> Write, t: nat)
    requires Ok(x.slots, x.book)
    ensures Ok(After(x, ws, t).slots, After(x, ws, t).book)
  {
    if t != 0 {
      AfterKeeps(x, ws, t - 1);
      var y := After(x, ws, t - 1);
      if Possible(y, ws(t - 1)) {
        WriteLegal(y, ws(t - 1));
      }
    }
  }

  lemma {:induction false} AfterOk(nMain: nat, nIndirect: nat, ws: nat -> Write, t: nat)
    requires nMain > 0
    ensures var x := After(Empty(nMain, nIndirect), ws, t); Ok(x.slots, x.book)
  {
    EmptyOk(nMain, nIndirect);
    AfterKeeps(Empty(nMain, nIndirect), ws, t);
  }

  lemma {:induction false} AfterEvolves(nMain: nat, nIndirect: nat, ws: nat -> Write, t: nat)
    requires nMain > 0
    ensures var x, y := After(Empty(nMain, nIndirect), ws, t), After(Empty(nMain, nIndirect), ws, t + 1);
            Evolves(x.slots, y.slots) && y.book.nMain == x.book.nMain
  {
    AfterOk(nMain, nIndirect, ws, t);
    var x := After(Empty(nMain, nIndirect), ws, t);
    if Possible(x, ws(t)) {
      WriteLegal(x, ws(t));
    }
  }

  ghost function HistoryOf(nMain: nat, nIndirect: nat, ws: nat -> Write): History {
    (t: nat) => After(Empty(nMain, nIndirect), ws, t)
  }

  /** Whatever is written, in whatever order, the remote reader meets a legal history. */
  lemma {:induction false} RunsAreLegal(nMain: nat, nIndirect: nat, ws: nat -> Write)
    requires nMain > 0
    ensures LegalHistory(HistoryOf(nMain, nIndirect, ws))
  {
    var h := HistoryOf(nMain, nIndirect, ws);
    forall t: nat ensures Ok(h(t).slots, h(t).book) {
      AfterOk(nMain, nIndirect, ws, t);
    }
    forall t: nat ensures Evolves(h(t).slots, h(t + 1).slots) && h(t + 1).book.nMain == h(t).book.nMain {
      AfterEvolves(nMain, nIndirect, ws, t);
    }
  }

  // ---------- what the word of an id says ----------

  /** A write that changes the word of `id`. */
  ghost predicate Asks(x: Shot, w: Write, id: Id) {
    w.Change? && Possible(x, w) && x.slots[w.k].trxId == id
  }

  /** The requests accepted for `id` among the writes from `t` up to `u`, in order. */
  ghost function Accepted(x: Shot, ws: nat -> Write, id: Id, t: nat, u: nat): seq<Request> {
    if u <= t then []
    else if Asks(After(x, ws, u - 1), ws(u - 1), id) then Accepted(x, ws, id, t, u - 1) + [ws(u - 1).r]
    else Accepted(x, ws, id, t, u - 1)
  }

  lemma {:induction false} ApplyAllSnoc(s: TidStatus, rs: seq<Request>, r: Request)
    requires ApplyAll(s, rs).Some?
    ensures ApplyAll(s, rs + [r]) == Apply(ApplyAll(s, rs).value, r)
    decreases |rs|
  {
    if rs != [] {
      assert (rs + [r])[1..] == rs[1..] + [r];
      ApplyAllSnoc(Apply(s, rs[0]).value, rs[1..], r);
    }
  }

  /** A write leaves the word of an id as it is, takes the id away, or is a request for it. */
  lemma {:induction false} WordAfter(x: Shot, w: Write, id: Id)
    requires Ok(x.slots, x.book) && Possible(x, w) && id in x.book.slotOf && id != 0
    ensures id in Done(x, w).book.slotOf
    ensures id in Done(x, w).book.model ==> id in x.book.model
    ensures id in Done(x, w).book.model ==>
      if Asks(x, w, id) then Apply(x.book.model[id], w.r) == Some(Done(x, w).book.model[id])
      else Done(x, w).book.model[id] == x.book.model[id]
  {
    if w.Change? {
      ChangeKeeps(x.slots[w.k], w.r);
      RewriteOk(x.slots, x.book, w.k, Apply(x.slots[w.k], w.r).value);
      if id in x.book.model {
        ExactlyOneSlot(x.slots, x.book, id, w.k);
      }
    } else if w.Drop? {
      EraseOk(x.slots, x.book, w.readonly);
    }
  }

  /** The word of `id`, while it is present, is what the requests make of a word
      that starts as processing without a commit time. */
  ghost predicate Explained(bk: Book, id: Id, rs: seq<Request>) {
    id in bk.slotOf && (id in bk.model ==> exists s :: Starting(s, id) && ApplyAll(s, rs) == Some(bk.model[id]))
  }

  lemma {:induction false} ExplainedTake(x: Shot, w: Write)
    requires w.Take? && Possible(x, w)
    ensures Explained(Done(x, w).book, w.id, [])
    ensures w.id in Done(x, w).book.model && Starting(Done(x, w).book.model[w.id], w.id)
  {
    Entered(x.slots[w.k], w.id);
    var s := EnterProcess(x.slots[w.k], w.id).value;
    assert Starting(s, w.id) && ApplyAll(s, []) == Some(s);
  }

  lemma {:induction false} ExplainedNext(x: Shot, w: Write, id: Id, rs: seq<Request>)
    requires Ok(x.slots, x.book) && Possible(x, w) && id != 0 && Explained(x.book, id, rs)
    ensures Explained(Done(x, w).book, id, if Asks(x, w, id) then rs + [w.r] else rs)
  {
    WordAfter(x, w, id);
    if id in Done(x, w).book.model && Asks(x, w, id) {
      var s :| Starting(s, id) && ApplyAll(s, rs) == Some(x.book.model[id]);
      ApplyAllSnoc(s, rs, w.r);
    }
  }

  lemma {:induction false} AfterExplained(x: Shot, ws: nat -> Write, id: Id, t: nat, u: nat)
    requires Ok(x.slots, x.book) && id != 0 && t <= u
    requires Explained(After(x, ws, u).book, id, Accepted(x, ws, id, t, u))
    ensures Explained(After(x, ws, u + 1).book, id, Accepted(x, ws, id, t, u + 1))
  {
    AfterKeeps(x, ws, u);
    if Possible(After(x, ws, u), ws(u)) {
      ExplainedNext(After(x, ws, u), ws(u), id, Accepted(x, ws, id, t, u));
    }
  }

  /** Write number `t` is the insertion of `id`. */
  ghost predicate Inserts(x: Shot, ws: nat -> Write, t: nat, id: Id) {
    ws(t).Take? && ws(t).id == id && Possible(After(x, ws, t), ws(t))
  }

  lemma {:induction false} InsertExplained(x: Shot, ws: nat -> Write, t: nat, id: Id)
    requires Inserts(x, ws, t, id)
    ensures id != 0 && id in After(x, ws, t + 1).book.model && Starting(After(x, ws, t + 1).book.model[id], id)
    ensures Explained(After(x, ws, t + 1).book, id, Accepted(x, ws, id, t + 1, t + 1))
  {
    ExplainedTake(After(x, ws, t), ws(t));
  }

  /** From the moment it was inserted and as long as it is present, the word of
      an id is explained by the requests accepted for it. */
  lemma {:induction false} WordByRequests(x: Shot, ws: nat -> Write, id: Id, t: nat, u: nat)
    requires Ok(x.slots, x.book) && Inserts(x, ws, t, id) && t < u
    ensures Explained(After(x, ws, u).book, id, Accepted(x, ws, id, t + 1, u))
  {
    InsertExplained(x, ws, t, id);
    StaysExplained(x, ws, id, t + 1, u);
  }

  lemma {:induction false} StaysExplained(x: Shot, ws: nat -> Write, id: Id, t: nat, u: nat)
    requires Ok(x.slots, x.book) && id != 0 && t <= u
    requires Explained(After(x, ws, t).book, id, Accepted(x, ws, id, t, t))
    ensures Explained(After(x, ws, u).book, id, Accepted(x, ws, id, t, u))
  {
    if t < u {
      StaysExplained(x, ws, id, t, u - 1);
      AfterExplained(x, ws, id, t, u - 1);
    }
  }

  /** So it is processing, without a commit time, until the first request for it is accepted. */
  lemma {:induction false} ProcessingUntilAsked(x: Shot, ws: nat -> Write, id: Id, t: nat, u: nat)
    requires Ok(x.slots, x.book) && Inserts(x, ws, t, id) && t < u
    requires forall v | t < v < u :: !Asks(After(x, ws, v), ws(v), id)
    ensures var model := After(x, ws, u).book.model;
            id in model ==> GetState(model[id]) == Some(Processing) && model[id].ct == 0
  {
    WordByRequests(x, ws, id, t, u);
    NoneAccepted(x, ws, id, t + 1, u);
  }

  lemma {:induction false} NoneAccepted(x: Shot, ws: nat -> Write, id: Id, t: nat, u: nat)
    requires forall v | t <= v < u :: !Asks(After(x, ws, v), ws(v), id)
    ensures Accepted(x, ws, id, t, u) == []
  {
    if t < u {
      NoneAccepted(x, ws, id, t, u - 1);
    }
  }
}
