/** The transaction status table: buckets of eight slots, the last slot of a
    bucket naming the bucket that continues the chain.

    The table is proved to refine a map from the ids that were inserted and not
    marked erased to the status word written last.
 */
module StatusTable {
  import opened Options
  import opened TrxStatus

  type Id = nat

  /** Bucket where the chain of an id starts (the low eight bits of an id number queries). */
  function Home(id: Id, nMain: nat): nat
    requires nMain > 0
  {
    (id / 256) % nMain
  }

  /** All queries of a transaction have its home, and transactions with
      consecutive numbers have neighbouring homes. */
  lemma {:induction false} HomeOfTransaction(n: nat, query: nat, nMain: nat)
    requires query < 256 && nMain > 0
    ensures Home(256 * n + query, nMain) == Home(256 * n, nMain) == n % nMain
  {
  }

  /** The last slot of a bucket is the link to the next one. */
  predicate Usable(k: nat) {
    k % 8 != 7
  }

  predicate Free(s: TidStatus) {
    !s.occupied || s.erased
  }

  // ---------- chains ----------

  /** Links point to later buckets; zero ends a chain. */
  ghost predicate Increasing(next: seq<nat>) {
    forall b | 0 <= b < |next| :: next[b] == 0 || b < next[b] < |next|
  }

  ghost predicate Reach(next: seq<nat>, b: nat, w: nat)
    requires Increasing(next) && b < |next|
    decreases |next| - b
  {
    b == w || (next[b] != 0 && Reach(next, next[b], w))
  }

  lemma {:induction false} ReachStep(next: seq<nat>, b: nat, w: nat)
    requires Increasing(next) && b < |next| && Reach(next, b, w) && w < |next| && next[w] != 0
    ensures Reach(next, b, next[w])
    decreases |next| - b
  {
    if b != w {
      ReachStep(next, next[b], w);
    }
  }

  /** Hanging a new bucket at the end of a chain keeps everything reachable. */
  lemma {:induction false} ReachLinked(next: seq<nat>, p: nat, q: nat, b: nat, w: nat)
    requires Increasing(next) && p < q < |next| && next[p] == 0
    requires b < |next| && Reach(next, b, w)
    ensures Increasing(next[p := q]) && Reach(next[p := q], b, w)
    decreases |next| - b
  {
    if b != w {
      ReachLinked(next, p, q, next[b], w);
    }
  }

  lemma {:induction false} ReachExtended(next: seq<nat>, b: nat, p: nat, q: nat)
    requires Increasing(next) && p < q < |next| && next[p] == 0
    requires b < |next| && Reach(next, b, p)
    ensures Increasing(next[p := q]) && Reach(next[p := q], b, q)
  {
    ReachLinked(next, p, q, b, p);
    ReachStep(next[p := q], b, p);
  }

  // ---------- one bucket ----------

  ghost predicate Full(slots: seq<TidStatus>, b: nat)
    requires 8 * b + 8 <= |slots|
  {
    forall k | 8 * b <= k < 8 * b + 7 :: !Free(slots[k])
  }

  ghost predicate ChainFull(slots: seq<TidStatus>, next: seq<nat>, b: nat)
    requires Increasing(next) && b < |next| && |slots| == 8 * |next|
    decreases |next| - b
  {
    Full(slots, b) && (next[b] == 0 || ChainFull(slots, next, next[b]))
  }

  // ---------- invariants on values ----------

  /** The link slots hold `next`, and only the first `used` buckets hold anything. */
  ghost predicate Linked(slots: seq<TidStatus>, next: seq<nat>, nMain: nat, used: nat) {
    && |slots| == 8 * |next| && 0 < nMain <= used <= |next| && Increasing(next)
    && (forall b | 0 <= b < |next| :: slots[8 * b + 7].trxId == next[b] < used)
    && (forall k | 8 * used <= k < |slots| :: !slots[k].occupied)
  }

  /** Every id ever inserted has one slot that may hold it. */
  ghost predicate Placed(slots: seq<TidStatus>, slotOf: map<Id, nat>) {
    forall k | 0 <= k < |slots| && Usable(k) ::
      && (slots[k].occupied ==> Sound(slots[k]) && slots[k].trxId != 0)
      && (slots[k].trxId != 0 ==> slots[k].occupied && slots[k].trxId in slotOf && slotOf[slots[k].trxId] == k)
  }

  ghost predicate Stored(slots: seq<TidStatus>, id: Id) {
    exists k :: 0 <= k < |slots| && Usable(k) && slots[k].trxId == id
  }

  lemma {:induction false} FreshNotStored(slots: seq<TidStatus>, slotOf: map<Id, nat>, id: Id)
    requires Placed(slots, slotOf) && id != 0 && id !in slotOf
    ensures !Stored(slots, id)
  {
  }

  /** The ids that count as present, with the words last written for them. */
  ghost predicate Holds(slots: seq<TidStatus>, slotOf: map<Id, nat>, model: map<Id, TidStatus>) {
    && (forall id | id in model ::
          && id != 0 && id in slotOf && slotOf[id] < |slots| && Usable(slotOf[id])
          && slots[slotOf[id]] == model[id] && model[id].trxId == id && !Free(model[id]))
    && (forall k | 0 <= k < |slots| && Usable(k) :: !Free(slots[k]) ==> slots[k].trxId in model)
  }

  /** Every present id is on the chain of its home bucket. */
  ghost predicate OnChain(next: seq<nat>, nMain: nat, slotOf: map<Id, nat>, model: map<Id, TidStatus>)
    requires Increasing(next) && 0 < nMain <= |next|
  {
    forall id | id in model && id in slotOf :: Reach(next, Home(id, nMain), slotOf[id] / 8)
  }

  /** The word of a slot changes, its id and its erased mark do not. */
  lemma {:induction false} RewriteKeeps(slots: seq<TidStatus>, slotOf: map<Id, nat>, model: map<Id, TidStatus>, k: nat, s: TidStatus)
    requires Placed(slots, slotOf) && Holds(slots, slotOf, model)
    requires k < |slots| && Usable(k) && slots[k].trxId in model && slotOf[slots[k].trxId] == k
    requires s.trxId == slots[k].trxId && Sound(s) && !s.erased
    ensures Placed(slots[k := s], slotOf) && Holds(slots[k := s], slotOf, model[s.trxId := s])
  {
  }

  /** The word of an erased slot may still change; nobody counts it. */
  lemma {:induction false} RewriteErased(slots: seq<TidStatus>, slotOf: map<Id, nat>, model: map<Id, TidStatus>, k: nat, s: TidStatus)
    requires Placed(slots, slotOf) && Holds(slots, slotOf, model)
    requires k < |slots| && Usable(k) && slots[k].erased
    requires s.trxId == slots[k].trxId && s.occupied == slots[k].occupied && Sound(s) && s.erased
    ensures Placed(slots[k := s], slotOf) && Holds(slots[k := s], slotOf, model)
  {
  }

  /** A fresh id takes a free slot. */
  lemma {:induction false} OccupyKeeps(slots: seq<TidStatus>, slotOf: map<Id, nat>, model: map<Id, TidStatus>, k: nat, s: TidStatus)
    requires Placed(slots, slotOf) && Holds(slots, slotOf, model)
    requires k < |slots| && Usable(k) && Free(slots[k])
    requires s.trxId != 0 && s.trxId !in slotOf && Sound(s) && !s.erased
    ensures Placed(slots[k := s], slotOf[s.trxId := k])
    ensures Holds(slots[k := s], slotOf[s.trxId := k], model[s.trxId := s])
  {
  }

  /** Marking a slot erased removes exactly its id. */
  lemma {:induction false} EraseKeeps(slots: seq<TidStatus>, slotOf: map<Id, nat>, model: map<Id, TidStatus>, k: nat)
    requires Placed(slots, slotOf) && Holds(slots, slotOf, model)
    requires k < |slots| && Usable(k) && !Free(slots[k])
    ensures Placed(slots[k := MarkErased(slots[k])], slotOf)
    ensures Holds(slots[k := MarkErased(slots[k])], slotOf, model - {slots[k].trxId})
  {
  }

  /** Writing a link touches no usable slot. */
  lemma {:induction false} LinkKeeps(slots: seq<TidStatus>, next: seq<nat>, nMain: nat, used: nat, p: nat, slotOf: map<Id, nat>, model: map<Id, TidStatus>)
    requires Linked(slots, next, nMain, used) && Placed(slots, slotOf) && Holds(slots, slotOf, model)
    requires p < used < |next| && next[p] == 0
    ensures Linked(slots[8 * p + 7 := slots[8 * p + 7].(trxId := used)], next[p := used], nMain, used + 1)
    ensures Placed(slots[8 * p + 7 := slots[8 * p + 7].(trxId := used)], slotOf)
    ensures Holds(slots[8 * p + 7 := slots[8 * p + 7].(trxId := used)], slotOf, model)
  {
  }

  // ---------- garbage-collection lists ----------

  /** A slot to be erased once `ts` falls behind the watermark. */
  datatype Entry = Entry(ts: nat, slot: nat)

  /** Every entry points to the slot of a present id; `due` gives its time. */
  ghost predicate Tracks(slots: seq<TidStatus>, due: map<Id, nat>, list: seq<Entry>) {
    forall i | 0 <= i < |list| ::
      && list[i].slot < |slots| && Usable(list[i].slot) && !Free(slots[list[i].slot])
      && slots[list[i].slot].trxId in due && due[slots[list[i].slot].trxId] == list[i].ts
  }

  /** No slot is listed twice. */
  ghost predicate Apart(a: seq<Entry>, b: seq<Entry>) {
    && (forall i, j | 0 <= i < j < |a| :: a[i].slot != a[j].slot)
    && (forall i, j | 0 <= i < j < |b| :: b[i].slot != b[j].slot)
    && (forall i, j | 0 <= i < |a| && 0 <= j < |b| :: a[i].slot != b[j].slot)
  }

  lemma {:induction false} TracksErased(slots: seq<TidStatus>, slotOf: map<Id, nat>, due: map<Id, nat>, list: seq<Entry>, k: nat)
    requires Placed(slots, slotOf) && Tracks(slots, due, list)
    requires k < |slots| && Usable(k) && !Free(slots[k])
    requires Avoids(list, k)
    ensures Tracks(slots[k := MarkErased(slots[k])], due - {slots[k].trxId}, list)
  {
  }

  lemma {:induction false} TracksRewritten(slots: seq<TidStatus>, due: map<Id, nat>, list: seq<Entry>, k: nat, s: TidStatus)
    requires Tracks(slots, due, list) && k < |slots|
    requires Usable(k) ==> Free(slots[k]) || (s.trxId == slots[k].trxId && !Free(s))
    ensures Tracks(slots[k := s], due, list)
  {
  }

  /** A fresh id may be given a time without disturbing the entries. */
  lemma {:induction false} TracksMore(slots: seq<TidStatus>, slotOf: map<Id, nat>, due: map<Id, nat>, list: seq<Entry>, id: Id, ts: nat)
    requires Placed(slots, slotOf) && Tracks(slots, due, list) && id !in due
    ensures Tracks(slots, due[id := ts], list)
  {
  }

  // ---------- what one write may do to the table ----------

  /** A write keeps the links that are set and never takes the slot of a present id. */
  ghost predicate Evolves(a: seq<TidStatus>, b: seq<TidStatus>) {
    && |a| == |b|
    && (forall k | 0 <= k < |a| && !Usable(k) :: a[k].trxId != 0 ==> b[k].trxId == a[k].trxId)
    && (forall k | 0 <= k < |a| && Usable(k) :: !Free(a[k]) ==> b[k].trxId == a[k].trxId)
  }

  // ---------- the whole invariant ----------

  /** Everything about the table beside the slots. */
  datatype Book = Book(nMain: nat, used: nat, ro: seq<Entry>, nro: seq<Entry>,
                       next: seq<nat>, slotOf: map<Id, nat>, model: map<Id, TidStatus>, due: map<Id, nat>)

  ghost predicate Ok(slots: seq<TidStatus>, bk: Book) {
    && Linked(slots, bk.next, bk.nMain, bk.used) && Placed(slots, bk.slotOf) && Holds(slots, bk.slotOf, bk.model)
    && OnChain(bk.next, bk.nMain, bk.slotOf, bk.model) && bk.due.Keys <= bk.model.Keys
    && Tracks(slots, bk.due, bk.ro) && Tracks(slots, bk.due, bk.nro) && Apart(bk.ro, bk.nro)
  }

  /** A present id is stored in exactly one usable slot. */
  lemma {:induction false} ExactlyOneSlot(slots: seq<TidStatus>, bk: Book, id: Id, k: nat)
    requires Ok(slots, bk) && id in bk.model && k < |slots| && Usable(k)
    ensures slots[k].trxId == id <==> k == bk.slotOf[id]
    ensures k == bk.slotOf[id] ==> slots[k] == bk.model[id]
  {
  }

  /** The model after the word of a slot changed. */
  ghost function Rewritten(bk: Book, s: TidStatus): Book {
    if s.erased then bk else bk.(model := bk.model[s.trxId := s])
  }

  lemma {:induction false} RewriteOk(slots: seq<TidStatus>, bk: Book, k: nat, s: TidStatus)
    requires Ok(slots, bk) && k < |slots| && Usable(k) && slots[k].trxId != 0
    requires s.trxId == slots[k].trxId && s.erased == slots[k].erased && Sound(s)
    ensures Ok(slots[k := s], Rewritten(bk, s)) && Evolves(slots, slots[k := s])
    ensures s.erased <==> s.trxId !in bk.model
  {
    SlotWritten(slots, bk.next, bk.nMain, bk.used, k, s);
    TracksRewritten(slots, bk.due, bk.ro, k, s);
    TracksRewritten(slots, bk.due, bk.nro, k, s);
    if s.erased {
      RewriteErased(slots, bk.slotOf, bk.model, k, s);
    } else {
      RewriteKeeps(slots, bk.slotOf, bk.model, k, s);
    }
  }

  lemma {:induction false} OccupyOk(slots: seq<TidStatus>, bk: Book, k: nat, s: TidStatus)
    requires Ok(slots, bk) && k < 8 * bk.used && 8 * bk.used <= |slots| && Usable(k) && Free(slots[k])
    requires s.trxId != 0 && s.trxId !in bk.slotOf && Sound(s) && !s.erased
    requires Reach(bk.next, Home(s.trxId, bk.nMain), k / 8)
    ensures Ok(slots[k := s], bk.(slotOf := bk.slotOf[s.trxId := k], model := bk.model[s.trxId := s]))
    ensures Evolves(slots, slots[k := s])
  {
    SlotWritten(slots, bk.next, bk.nMain, bk.used, k, s);
    OccupyKeeps(slots, bk.slotOf, bk.model, k, s);
    TracksRewritten(slots, bk.due, bk.ro, k, s);
    TracksRewritten(slots, bk.due, bk.nro, k, s);
  }

  lemma {:induction false} LinkOk(slots: seq<TidStatus>, bk: Book, p: nat)
    requires Ok(slots, bk) && p < bk.used < |bk.next| && bk.next[p] == 0
    ensures var s := slots[8 * p + 7].(trxId := bk.used);
            && Ok(slots[8 * p + 7 := s], bk.(used := bk.used + 1, next := bk.next[p := bk.used]))
            && Evolves(slots, slots[8 * p + 7 := s])
  {
    var k := 8 * p + 7;
    var s := slots[k].(trxId := bk.used);
    LinkKeeps(slots, bk.next, bk.nMain, bk.used, p, bk.slotOf, bk.model);
    TracksRewritten(slots, bk.due, bk.ro, k, s);
    TracksRewritten(slots, bk.due, bk.nro, k, s);
    forall id | id in bk.model && id in bk.slotOf
      ensures Reach(bk.next[p := bk.used], Home(id, bk.nMain), bk.slotOf[id] / 8)
    {
      ReachLinked(bk.next, p, bk.used, Home(id, bk.nMain), bk.slotOf[id] / 8);
    }
  }

  /** A present id that is not listed yet may be appended to either list. */
  lemma {:induction false} RecordOk(slots: seq<TidStatus>, bk: Book, k: nat, ts: nat, readonly: bool)
    requires Ok(slots, bk) && k < |slots| && Usable(k) && !Free(slots[k]) && slots[k].trxId !in bk.due
    ensures Ok(slots, Recorded(bk, k, slots[k].trxId, ts, readonly))
  {
    var due := bk.due[slots[k].trxId := ts];
    TracksMore(slots, bk.slotOf, bk.due, bk.ro, slots[k].trxId, ts);
    TracksMore(slots, bk.slotOf, bk.due, bk.nro, slots[k].trxId, ts);
    TracksAppend(slots, due, bk.ro, k, ts);
    TracksAppend(slots, due, bk.nro, k, ts);
    ApartAppend(bk.ro, bk.nro, Entry(ts, k));
    assert slots[k].trxId in bk.model;
  }

  lemma {:induction false} TracksAppend(slots: seq<TidStatus>, due: map<Id, nat>, list: seq<Entry>, k: nat, ts: nat)
    requires Tracks(slots, due, list) && k < |slots| && Usable(k) && !Free(slots[k])
    requires slots[k].trxId in due && due[slots[k].trxId] == ts
    ensures Tracks(slots, due, list + [Entry(ts, k)])
  {
  }

  lemma {:induction false} ApartAppend(a: seq<Entry>, b: seq<Entry>, e: Entry)
    requires Apart(a, b)
    requires Avoids(a, e.slot) && Avoids(b, e.slot)
    ensures Apart(a + [e], b) && Apart(a, b + [e])
  {
  }

  ghost function Recorded(bk: Book, k: nat, id: Id, ts: nat, readonly: bool): Book {
    if readonly then bk.(ro := bk.ro + [Entry(ts, k)], due := bk.due[id := ts])
    else bk.(nro := bk.nro + [Entry(ts, k)], due := bk.due[id := ts])
  }

  /** What is left when the first entry of a list has been dealt with. */
  ghost function Dropped(bk: Book, readonly: bool, id: Id): Book
    requires if readonly then bk.ro != [] else bk.nro != []
  {
    var bk' := bk.(model := bk.model - {id}, due := bk.due - {id});
    if readonly then bk'.(ro := bk.ro[1..]) else bk'.(nro := bk.nro[1..])
  }

  /** A write to a usable slot that leaves a present id in place. */
  lemma {:induction false} SlotWritten(slots: seq<TidStatus>, next: seq<nat>, nMain: nat, used: nat, k: nat, s: TidStatus)
    requires Linked(slots, next, nMain, used) && k < |slots| && Usable(k) && (slots[k].occupied || k < 8 * used)
    requires Free(slots[k]) || s.trxId == slots[k].trxId
    ensures Linked(slots[k := s], next, nMain, used) && Evolves(slots, slots[k := s])
  {
  }

  ghost predicate Avoids(list: seq<Entry>, k: nat) {
    forall i | 0 <= i < |list| :: list[i].slot != k
  }

  lemma {:induction false} ApartDrop(a: seq<Entry>, b: seq<Entry>)
    requires Apart(a, b)
    ensures a != [] ==> Apart(a[1..], b) && Avoids(a[1..], a[0].slot) && Avoids(b, a[0].slot)
    ensures b != [] ==> Apart(a, b[1..]) && Avoids(a, b[0].slot) && Avoids(b[1..], b[0].slot)
  {
  }

  lemma {:induction false} TracksDrop(slots: seq<TidStatus>, due: map<Id, nat>, list: seq<Entry>)
    requires Tracks(slots, due, list) && list != []
    ensures Tracks(slots, due, list[1..])
  {
  }

  lemma {:induction false} EraseOk(slots: seq<TidStatus>, bk: Book, readonly: bool)
    requires Ok(slots, bk) && (if readonly then bk.ro != [] else bk.nro != [])
    ensures var k := if readonly then bk.ro[0].slot else bk.nro[0].slot;
            && k < |slots| && Usable(k) && slots[k].trxId in bk.due && Names(bk, slots[k].trxId, ListOf(bk, readonly)[0])
            && Ok(slots[k := MarkErased(slots[k])], Dropped(bk, readonly, slots[k].trxId))
            && Evolves(slots, slots[k := MarkErased(slots[k])])
  {
    var k := if readonly then bk.ro[0].slot else bk.nro[0].slot;
    var id := slots[k].trxId;
    var bk' := Dropped(bk, readonly, id);
    EraseKeeps(slots, bk.slotOf, bk.model, k);
    SlotWritten(slots, bk.next, bk.nMain, bk.used, k, MarkErased(slots[k]));
    ApartDrop(bk.ro, bk.nro);
    if readonly {
      TracksDrop(slots, bk.due, bk.ro);
    } else {
      TracksDrop(slots, bk.due, bk.nro);
    }
    TracksErased(slots, bk.slotOf, bk.due, bk'.ro, k);
    TracksErased(slots, bk.slotOf, bk.due, bk'.nro, k);
  }

  ghost function ListOf(bk: Book, readonly: bool): seq<Entry> {
    if readonly then bk.ro else bk.nro
  }

  /** The entry stands for this present id. */
  ghost predicate Names(bk: Book, id: Id, e: Entry) {
    id in bk.model && id in bk.slotOf && bk.slotOf[id] == e.slot
  }

  /** Exactly the ids in `gone` disappeared, and every one of them was due before `minBt`. */
  ghost predicate Shrinks(before: Book, after: Book, gone: set<Id>, minBt: nat) {
    && after.model == before.model - gone && after.due == before.due - gone
    && after.slotOf == before.slotOf && after.next == before.next && after.used == before.used
    && forall id | id in gone :: id in before.due && before.due[id] < minBt
  }

  lemma {:induction false} ShrinksMore(a: Book, b: Book, c: Book, gone: set<Id>, gone': set<Id>, minBt: nat)
    requires Shrinks(a, b, gone, minBt) && Shrinks(b, c, gone', minBt)
    ensures Shrinks(a, c, gone + gone', minBt)
  {
  }

  ghost function IdsIn(ids: seq<Id>): set<Id> {
    set id | id in ids
  }

  /** The first |ids| entries of one list were dealt with and their ids erased;
      the last two entries of a list always stay. */
  ghost predicate Erased(was: Book, now: Book, readonly: bool, ids: seq<Id>, minBt: nat) {
    && Shrinks(was, now, IdsIn(ids), minBt)
    && ListOf(now, !readonly) == ListOf(was, !readonly)
    && |ids| <= |ListOf(was, readonly)| && ListOf(now, readonly) == ListOf(was, readonly)[|ids|..]
    && (ids == [] || |ListOf(now, readonly)| >= 2)
    && (forall i | 0 <= i < |ids| :: ListOf(was, readonly)[i].ts < minBt && Names(was, ids[i], ListOf(was, readonly)[i]))
  }

  lemma {:induction false} ErasedStep(was: Book, now: Book, readonly: bool, ids: seq<Id>, minBt: nat, id: Id)
    requires Erased(was, now, readonly, ids, minBt) && |ListOf(now, readonly)| > 2
    requires id in now.due && now.due[id] < minBt && ListOf(now, readonly)[0].ts < minBt
    requires Names(now, id, ListOf(now, readonly)[0])
    ensures Erased(was, Dropped(now, readonly, id), readonly, ids + [id], minBt)
  {
    ShrinksMore(was, now, Dropped(now, readonly, id), IdsIn(ids), {id}, minBt);
    assert IdsIn(ids + [id]) == IdsIn(ids) + {id};
  }

  /** No more can be taken from the front of a list. */
  ghost predicate Exhausted(list: seq<Entry>, minBt: nat) {
    |list| <= 2 || list[0].ts >= minBt
  }

  /** From the front of a list as many entries as possible were dealt with;
      `ids` are the ids they stood for, in list order. */
  ghost predicate Swept(was: Book, list: seq<Entry>, rest: seq<Entry>, ids: seq<Id>, minBt: nat) {
    && Exhausted(rest, minBt) && |ids| <= |list| && rest == list[|ids|..] && (ids == [] || |rest| >= 2)
    && forall i | 0 <= i < |ids| :: list[i].ts < minBt && Names(was, ids[i], list[i])
  }

  lemma {:induction false} SweptBoth(was: Book, mid: Book, now: Book, roIds: seq<Id>, nroIds: seq<Id>, minBt: nat)
    requires Erased(was, mid, true, roIds, minBt) && Erased(mid, now, false, nroIds, minBt)
    requires Exhausted(mid.ro, minBt) && Exhausted(now.nro, minBt)
    ensures Swept(was, was.ro, now.ro, roIds, minBt) && Swept(was, was.nro, now.nro, nroIds, minBt)
  {
  }

  /** The word after a commit time was registered and validation entered. */
  function Validated(w: TidStatus, ct: nat): Option<TidStatus> {
    if GetState(w) == Some(Processing) then Some(w.(ct := ct, V := true)) else None
  }

  lemma {:induction false} ValidatedSteps(w: TidStatus, ct: nat)
    requires Sound(w)
    ensures match Apply(w, SetCommitTime(ct))
            case Some(w') => Apply(w', ToValidating).Some? && Apply(w', ToValidating) == Validated(w, ct)
            case None => Validated(w, ct).None?
  {
  }

  lemma {:induction false} UpdateTwice<K, V>(m: map<K, V>, k: K, v: V, w: V)
    ensures m[k := v][k := w] == m[k := w]
  {
  }

  datatype Insertion = Inserted | AlreadyExists | OutOfBuckets

  /** NotFound is the false result; CheckFailed stands for a failed check, which stops the process. */
  datatype Change = Changed | NotFound | CheckFailed

  class Table {
    const nMain: nat
    const slots: array<TidStatus>
    /** Number of buckets in use: the main ones and the indirect ones allocated so far. */
    var used: nat
    var ro: seq<Entry>
    var nro: seq<Entry>
    ghost var next: seq<nat>
    ghost var slotOf: map<Id, nat>
    ghost var model: map<Id, TidStatus>
    ghost var due: map<Id, nat>

    ghost function View(): Book
      reads this
    {
      Book(nMain, used, ro, nro, next, slotOf, model, due)
    }

    ghost predicate Valid()
      reads this, slots
    {
      Ok(slots[..], View())
    }

    constructor (nMain: nat, nIndirect: nat)
      requires nMain > 0
      ensures Valid() && fresh(slots) && model == map[] && slotOf == map[] && due == map[]
      ensures this.nMain == nMain && used == nMain && |next| == nMain + nIndirect
    {
      this.nMain := nMain;
      var n := nMain + nIndirect;
      slots := new TidStatus[8 * n](_ => Blank);
      used := nMain;
      ro, nro := [], [];
      next := seq(n, _ => 0);
      slotOf, model, due := map[], map[], map[];
    }

    /** Scan the seven usable slots of a bucket for an id. */
    method FindInBucket(id: Id, b: nat) returns (found: bool, k: nat)
      requires 8 * b + 8 <= slots.Length
      ensures found ==> 8 * b <= k < 8 * b + 7 && slots[k].trxId == id
      ensures !found ==> forall j | 8 * b <= j < 8 * b + 7 :: slots[j].trxId != id
    {
      var i := 0;
      while i < 7
        invariant i <= 7 && forall j | 8 * b <= j < 8 * b + i :: slots[j].trxId != id
      {
        if slots[8 * b + i].trxId == id {
          return true, 8 * b + i;
        }
        i := i + 1;
      }
      return false, 0;
    }

    /** Walk the chain.  A present id is found in its slot, an id never inserted is not found. */
    method FindTrx(id: Id) returns (found: bool, k: nat)
      requires Valid() && id != 0
      ensures id in model ==> found && k == slotOf[id] && slots[k] == model[id]
      ensures found ==> k < slots.Length && Usable(k) && slots[k].trxId == id && id in slotOf && slotOf[id] == k
    {
      var b: nat := Home(id, nMain);
      while true
        invariant b < |next|
        invariant id in model ==> Reach(next, b, slotOf[id] / 8)
        decreases |next| - b
      {
        found, k := FindInBucket(id, b);
        if found {
          assert slots[..][k].trxId == id;
          return;
        }
        assert id in model ==> slotOf[id] / 8 != b;
        var n := slots[8 * b + 7].trxId;
        assert n == next[b] by {
          assert slots[..][8 * b + 7].trxId == next[b];
        }
        if n == 0 {
          return false, 0;
        }
        b := n;
      }
    }
  
    method QueryStatus(id: Id) returns (r: Option<Stat>)
      requires Valid() && id != 0
      ensures id in model ==> r.Some? && r == GetState(model[id])
      ensures id !in slotOf ==> r.None?
    {
      var found, k := FindTrx(id);
      if !found {
        return None;
      }
      assert slots[..][k].trxId == id;
      r := GetState(slots[k]);
    }

    method QueryCt(id: Id) returns (r: Option<nat>)
      requires Valid() && id != 0
      ensures id in model ==> r == Some(model[id].ct)
      ensures id !in slotOf ==> r.None?
    {
      var found, k := FindTrx(id);
      r := if found then Some(slots[k].ct) else None;
    }

    /** Overwrite the word of a slot, keeping its id and its erased mark. */
    method Rewrite(k: nat, s: TidStatus)
      requires Valid() && k < slots.Length && Usable(k) && slots[k].trxId != 0
      requires s.trxId == slots[k].trxId && s.erased == slots[k].erased && Sound(s)
      modifies slots, `model
      ensures Valid() && Evolves(old(slots[..]), slots[..]) && model.Keys == old(model.Keys)
      ensures model == if old(slots[k]).trxId in old(model) then old(model)[s.trxId := s] else old(model)
    {
      ghost var was := slots[..];
      slots[k] := s;
      assert slots[..] == was[k := s];
      RewriteOk(was, old(View()), k, s);
      if !s.erased {
        model := model[s.trxId := s];
      }
    }

    /** modify_status and register_ct: a present id takes the request exactly
        when the status word allows it. */
    method Modify(id: Id, r: Request) returns (c: Change)
      requires Valid() && id != 0
      modifies slots, `model
      ensures Valid() && model.Keys == old(model.Keys)
      ensures id in old(model) ==>
        match Apply(old(model)[id], r)
        case Some(s) => c == Changed && model == old(model)[id := s]
        case None => c == CheckFailed && model == old(model)
      ensures id !in old(model) ==> model == old(model)
      ensures id !in slotOf ==> c == NotFound
    {
      var found, k := FindTrx(id);
      if !found {
        return NotFound;
      }
      assert slots[..][k].trxId == id;
      var s := Apply(slots[k], r);
      if s.None? {
        return CheckFailed;
      }
      ApplyLegal(slots[k], r);
      Rewrite(k, s.value);
      c := Changed;
    }

    /** modify_status with a commit time: register the time, then validate. */
    method ModifyWithCt(id: Id, ct: nat) returns (c: Change)
      requires Valid() && id != 0
      modifies slots, `model
      ensures Valid() && model.Keys == old(model.Keys)
      ensures id in old(model) ==>
        match Validated(old(model)[id], ct)
        case Some(s) => c == Changed && model == old(model)[id := s]
        case None => c == CheckFailed && model == old(model)
      ensures id !in old(model) ==> model == old(model)
      ensures id !in slotOf ==> c == NotFound
    {
      ghost var m := model;
      if id in m {
        assert Sound(m[id]) by {
          assert slots[..][slotOf[id]] == m[id];
        }
        ValidatedSteps(m[id], ct);
      }
      c := Modify(id, SetCommitTime(ct));
      if c == Changed {
        c := Modify(id, ToValidating);
        if id in m {
          assert model == m[id := Validated(m[id], ct).value] by {
            UpdateTwice(m, id, Apply(m[id], SetCommitTime(ct)).value, Validated(m[id], ct).value);
          }
        }
      }
    }
  
    /** First free slot of a bucket. */
    method FreeInBucket(id: Id, b: nat) returns (r: Insertion, k: nat)
      requires 8 * b + 8 <= slots.Length
      ensures r == Inserted ==> 8 * b <= k < 8 * b + 7 && Free(slots[k])
      ensures r == OutOfBuckets ==> Full(slots[..], b)
      ensures r == AlreadyExists ==> 8 * b <= k < 8 * b + 7 && slots[k].trxId == id
    {
      var i := 0;
      while i < 7
        invariant i <= 7 && forall j | 8 * b <= j < 8 * b + i :: !Free(slots[j])
      {
        if slots[8 * b + i].trxId == id {
          return AlreadyExists, 8 * b + i;
        }
        if Free(slots[8 * b + i]) {
          return Inserted, 8 * b + i;
        }
        i := i + 1;
      }
      return OutOfBuckets, 0;
    }

    /** Walk the chain from bucket `h` for a free slot; otherwise return its last bucket. */
    method FindFree(id: Id, h: nat) returns (r: Insertion, k: nat, b: nat)
      requires Linked(slots[..], next, nMain, used) && h < nMain
      ensures r == AlreadyExists ==> Stored(slots[..], id)
      ensures r == Inserted ==> k < 8 * used <= slots.Length && Usable(k) && Free(slots[k]) && Reach(next, h, k / 8)
      ensures r == OutOfBuckets ==> b < used <= |next| && next[b] == 0 && Reach(next, h, b)
      ensures r != AlreadyExists ==> (r == OutOfBuckets <==> ChainFull(slots[..], next, h))
    {
      b := h;
      while true
        invariant b < used <= |next| && Reach(next, h, b)
        invariant ChainFull(slots[..], next, b) == ChainFull(slots[..], next, h)
        decreases |next| - b
      {
        r, k := FreeInBucket(id, b);
        if r != OutOfBuckets {
          assert r == Inserted ==> !Full(slots[..], b);
          assert r == AlreadyExists ==> slots[..][k].trxId == id;
          return;
        }
        var n := slots[8 * b + 7].trxId;
        assert n == next[b] < used by {
          assert slots[..][8 * b + 7].trxId == next[b];
        }
        if n == 0 {
          return;
        }
        ReachStep(next, h, b);
        b := n;
      }
    }

    /** enterProcessState on a free slot. */
    method Occupy(id: Id, k: nat)
      requires Valid() && id != 0 && id !in slotOf && k < 8 * used <= slots.Length && Usable(k) && Free(slots[k])
      requires Reach(next, Home(id, nMain), k / 8)
      modifies slots, `slotOf, `model
      ensures Valid() && Evolves(old(slots[..]), slots[..])
      ensures slotOf == old(slotOf)[id := k] && model == old(model)[id := EnterProcess(Blank, id).value] && Starting(model[id], id)
    {
      ghost var was := slots[..];
      var s := EnterProcess(slots[k], id).value;
      slots[k] := s;
      assert slots[..] == was[k := s];
      OccupyOk(was, old(View()), k, s);
      slotOf, model := slotOf[id := k], model[id := s];
    }

    /** Hang a new indirect bucket behind the last bucket of a chain. */
    method Link(b: nat)
      requires Valid() && b < used < |next| && next[b] == 0
      modifies slots, `used, `next
      ensures Valid() && Evolves(old(slots[..]), slots[..])
      ensures used == old(used) + 1 && next == old(next)[b := old(used)]
    {
      ghost var was := slots[..];
      slots[8 * b + 7] := slots[8 * b + 7].(trxId := used);
      assert slots[..] == was[8 * b + 7 := was[8 * b + 7].(trxId := used)];
      LinkOk(was, old(View()), b);
      used, next := used + 1, next[b := used];
    }
  
    /** record_ro_trx_with_bt: a read-only transaction may go once its begin time is behind. */
    method RecordRo(k: nat, bt: nat)
      requires Valid() && k < slots.Length && Usable(k) && !Free(slots[k]) && slots[k].trxId !in due
      modifies `ro, `due
      ensures Valid() && ro == old(ro) + [Entry(bt, k)] && due == old(due)[slots[k].trxId := bt]
    {
      RecordOk(slots[..], View(), k, bt, true);
      ro, due := ro + [Entry(bt, k)], due[slots[k].trxId := bt];
    }

    /** record_nro_trx_with_et: called once, when a present update transaction has ended. */
    method RecordNro(id: Id, endTime: nat)
      requires Valid() && id in model && id !in due
      modifies `nro, `due
      ensures Valid() && nro == old(nro) + [Entry(endTime, slotOf[id])] && due == old(due)[id := endTime]
    {
      var found, k := FindTrx(id);
      assert slots[..][k] == model[id];
      RecordOk(slots[..], View(), k, endTime, false);
      nro, due := nro + [Entry(endTime, k)], due[id := endTime];
    }

    /** Take a free slot of the chain; a read-only transaction is listed at once. */
    method InsertFound(id: Id, bt: nat, readonly: bool, k: nat)
      requires Valid() && id != 0 && id !in slotOf && k < 8 * used <= slots.Length && Usable(k) && Free(slots[k])
      requires Reach(next, Home(id, nMain), k / 8)
      modifies slots, `slotOf, `model, `ro, `due
      ensures Valid() && slotOf.Keys == old(slotOf.Keys) + {id}
      ensures model == old(model)[id := EnterProcess(Blank, id).value] && Starting(model[id], id)
      ensures due == if readonly then old(due)[id := bt] else old(due)
    {
      Occupy(id, k);
      if readonly {
        assert slots[k].trxId == id by {
          assert slots[..][k] == model[id];
        }
        RecordRo(k, bt);
      }
    }

    /** The chain ends in `b` without a free slot: allocate a bucket and take its first slot. */
    method InsertExtending(id: Id, b: nat)
      requires Valid() && id != 0 && id !in slotOf && b < used < |next| && next[b] == 0
      requires Reach(next, Home(id, nMain), b)
      modifies slots, `used, `next, `slotOf, `model
      ensures Valid() && |next| == |old(next)|
      ensures model == old(model)[id := EnterProcess(Blank, id).value] && Starting(model[id], id)
      ensures slotOf.Keys == old(slotOf.Keys) + {id}
    {
      ReachExtended(next, Home(id, nMain), b, used);
      var k := 8 * used;
      assert !slots[..][k].occupied;
      Link(b);
      Occupy(id, k);
    }

    /** insert_single_trx for an id that was never inserted: it fails exactly
        when the chain is full and no indirect bucket is left. */
    method Insert(id: Id, bt: nat, readonly: bool) returns (r: Insertion)
      requires Valid() && id != 0 && id !in slotOf
      modifies this, slots
      ensures Valid() && |next| == |old(next)| && nro == old(nro)
      ensures r == OutOfBuckets <==> old(Crowded(id)) && old(used) == |old(next)|
      ensures r == OutOfBuckets ==> model == old(model) && due == old(due) && slotOf == old(slotOf)
      ensures r != OutOfBuckets ==>
        && r == Inserted
        && model == old(model)[id := EnterProcess(Blank, id).value] && slotOf.Keys == old(slotOf.Keys) + {id}
        && due == (if readonly && !old(Crowded(id)) then old(due)[id := bt] else old(due))
        && GetState(model[id]) == Some(Processing) && model[id].ct == 0 && model[id].trxId == id && !Free(model[id])
    {
      var k, b;
      r, k, b := FindFree(id, Home(id, nMain));
      FreshNotStored(slots[..], slotOf, id);
      if r == Inserted {
        InsertFound(id, bt, readonly, k);
      } else if used < slots.Length / 8 {
        InsertExtending(id, b);
        r := Inserted;
      }
    }

    /** Mark the slot of the first entry erased and drop the entry. */
    method EraseHead(readonly: bool) returns (id: Id)
      requires Valid() && if readonly then ro != [] else nro != []
      modifies this, slots
      ensures Valid() && Evolves(old(slots[..]), slots[..])
      ensures id in old(due) && old(due)[id] == if readonly then old(ro)[0].ts else old(nro)[0].ts
      ensures View() == Dropped(old(View()), readonly, id) && Names(old(View()), id, ListOf(old(View()), readonly)[0])
    {
      ghost var was := slots[..];
      EraseOk(was, View(), readonly);
      var k := if readonly then ro[0].slot else nro[0].slot;
      id := slots[k].trxId;
      assert was[k].trxId == id;
      slots[k] := MarkErased(slots[k]);
      assert slots[..] == was[k := MarkErased(was[k])];
      if readonly {
        ro := ro[1..];
      } else {
        nro := nro[1..];
      }
      model, due := model - {id}, due - {id};
    }

    /** erase: take entries from the front while more than two are left and the
        first one is behind the watermark. */
    method EraseList(readonly: bool, minBt: nat) returns (ids: seq<Id>)
      requires Valid()
      modifies this, slots
      ensures Valid() && Erased(old(View()), View(), readonly, ids, minBt)
      ensures Exhausted(ListOf(View(), readonly), minBt)
    {
      ids := [];
      assert Erased(View(), View(), readonly, ids, minBt);
      while |if readonly then ro else nro| > 2 && (if readonly then ro else nro)[0].ts < minBt
        invariant Valid() && Erased(old(View()), View(), readonly, ids, minBt)
        decreases |ro| + |nro|
      {
        ghost var v := View();
        var id := EraseHead(readonly);
        ErasedStep(old(View()), v, readonly, ids, minBt, id);
        ids := ids + [id];
      }
    }

    /** erase_trx_via_min_bt: both lists in turn; the update transactions are reported. */
    method EraseViaMinBt(minBt: nat) returns (nroIds: seq<Id>, ghost roIds: seq<Id>)
      requires Valid()
      modifies this, slots
      ensures Valid() && Shrinks(old(View()), View(), IdsIn(roIds) + IdsIn(nroIds), minBt)
      ensures Swept(old(View()), old(ro), ro, roIds, minBt) && Swept(old(View()), old(nro), nro, nroIds, minBt)
    {
      roIds := EraseList(true, minBt);
      ghost var v := View();
      nroIds := EraseList(false, minBt);
      ShrinksMore(old(View()), v, View(), IdsIn(roIds), IdsIn(nroIds), minBt);
      SweptBoth(old(View()), v, View(), roIds, nroIds, minBt);
    }

    /** No free slot on the chain of an id. */
    ghost predicate Crowded(id: Id)
      requires Valid()
      reads this, slots
    {
      ChainFull(slots[..], next, Home(id, nMain))
    }
  }
}
