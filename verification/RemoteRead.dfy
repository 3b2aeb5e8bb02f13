/** Reading another worker's status table one bucket at a time, while that
    worker goes on writing to it. */
module RemoteRead {
  import opened Options
  import opened TrxStatus
  import opened StatusTable

  /** The remote table at one moment. */
  datatype Shot = Shot(slots: seq<TidStatus>, book: Book)

  /** A run of the remote table, one moment per write. */
  type History = nat -> Shot

  ghost predicate LegalHistory(h: History) {
    && (forall t: nat :: Ok(h(t).slots, h(t).book))
    && (forall t: nat :: Evolves(h(t).slots, h(t + 1).slots) && h(t + 1).book.nMain == h(t).book.nMain)
  }

  /** Links once set stay set. */
  ghost predicate Grows(a: seq<nat>, b: seq<nat>) {
    |a| == |b| && forall i | 0 <= i < |a| :: a[i] != 0 ==> b[i] == a[i]
  }

  lemma {:induction false} GrowsStep(h: History, t: nat)
    requires LegalHistory(h)
    ensures Grows(h(t).book.next, h(t + 1).book.next)
  {
  }

  lemma {:induction false} GrowsLater(h: History, t: nat, u: nat)
    requires LegalHistory(h) && t <= u
    ensures Grows(h(t).book.next, h(u).book.next) && h(t).book.nMain == h(u).book.nMain
    ensures |h(t).slots| == |h(u).slots|
    decreases u - t
  {
    if t < u {
      GrowsStep(h, t);
      assert Evolves(h(t).slots, h(t + 1).slots) && h(t + 1).book.nMain == h(t).book.nMain;
      GrowsLater(h, t + 1, u);
    }
  }

  lemma {:induction false} ReachGrows(a: seq<nat>, b: seq<nat>, i: nat, w: nat)
    requires Increasing(a) && Increasing(b) && Grows(a, b) && i < |a| && Reach(a, i, w)
    ensures Reach(b, i, w)
    decreases |a| - i
  {
    if i != w {
      ReachGrows(a, b, a[i], w);
    }
  }

  /** The id is present at every moment from `t` to `u`. */
  ghost predicate Present(h: History, t: nat, u: nat, id: Id) {
    forall v: nat | t <= v <= u :: id in h(v).book.model
  }

  /** A present id never changes its slot. */
  lemma {:induction false} SameSlot(h: History, t: nat, u: nat, id: Id)
    requires LegalHistory(h) && Present(h, t, u, id) && t <= u
    ensures id in h(t).book.slotOf && id in h(u).book.slotOf
    ensures h(t).book.slotOf[id] == h(u).book.slotOf[id]
    decreases u - t
  {
    assert Ok(h(t).slots, h(t).book) && id in h(t).book.model;
    if t < u {
      assert Ok(h(t + 1).slots, h(t + 1).book) && Evolves(h(t).slots, h(t + 1).slots);
      assert id in h(t + 1).book.model;
      ExactlyOneSlot(h(t).slots, h(t).book, id, h(t).book.slotOf[id]);
      ExactlyOneSlot(h(t + 1).slots, h(t + 1).book, id, h(t).book.slotOf[id]);
      SameSlot(h, t + 1, u, id);
    }
  }

  /** The id is stored in a bucket that the walk reaches from `b`. */
  ghost predicate Ahead(h: History, t: nat, id: Id, b: nat) {
    && Ok(h(t).slots, h(t).book) && b < |h(t).book.next| && id in h(t).book.model
    && Reach(h(t).book.next, b, h(t).book.slotOf[id] / 8)
  }

  lemma {:induction false} StartAhead(h: History, t: nat, id: Id)
    requires LegalHistory(h)
    ensures Ok(h(t).slots, h(t).book)
    ensures Present(h, t, t, id) ==> Ahead(h, t, id, Home(id, h(t).book.nMain))
  {
  }

  /** What is still to be walked at time `t` is still to be walked later. */
  lemma {:induction false} StillAhead(h: History, t: nat, u: nat, id: Id, b: nat)
    requires LegalHistory(h) && t <= u
    ensures Ok(h(u).slots, h(u).book) && |h(u).book.next| == |h(t).book.next|
    ensures Present(h, t, u, id) && Ahead(h, t, id, b) ==> Ahead(h, u, id, b)
  {
    assert Ok(h(t).slots, h(t).book) && Ok(h(u).slots, h(u).book);
    GrowsLater(h, t, u);
    if Present(h, t, u, id) && Ahead(h, t, id, b) {
      SameSlot(h, t, u, id);
      ReachGrows(h(t).book.next, h(u).book.next, b, h(t).book.slotOf[id] / 8);
      assert id in h(u).book.model;
    }
  }

  lemma {:induction false} PresentSound(h: History, t: nat, id: Id)
    requires LegalHistory(h) && id in h(t).book.model
    ensures Sound(h(t).book.model[id])
  {
  }

  /** A bucket copy holds the id exactly when its slot lies in that bucket; the link leads further. */
  lemma {:induction false} InBucket(x: Shot, b: nat, id: Id, bucket: seq<TidStatus>, r: Option<TidStatus>)
    requires Ok(x.slots, x.book) && b < |x.book.next| && bucket == x.slots[8 * b..8 * b + 8] && id != 0
    requires match r
             case Some(s) => s.trxId == id && exists i :: 0 <= i < 7 && bucket[i] == s
             case None => forall i | 0 <= i < 7 :: bucket[i].trxId != id
    ensures bucket[7].trxId == x.book.next[b]
    ensures id in x.book.model && r.Some? ==> r.value == x.book.model[id]
    ensures id in x.book.model && r.None? ==> x.book.slotOf[id] / 8 != b
    ensures r.Some? ==> r.value in x.slots
  {
    assert x.slots[8 * b + 7].trxId == x.book.next[b];
    if r.Some? {
      var i :| 0 <= i < 7 && bucket[i] == r.value;
      assert x.slots[8 * b + i] == r.value;
      HitIsModel(x.slots, x.book.slotOf, x.book.model, 8 * b + i, id);
    } else {
      forall k | 8 * b <= k < 8 * b + 7 ensures x.slots[k].trxId != id {
        assert x.slots[k] == bucket[k - 8 * b];
      }
      MissIsElsewhere(x.slots, x.book.slotOf, x.book.model, b, id);
    }
  }

  lemma {:induction false} HitIsModel(slots: seq<TidStatus>, slotOf: map<Id, nat>, model: map<Id, TidStatus>, k: nat, id: Id)
    requires Placed(slots, slotOf) && Holds(slots, slotOf, model) && id != 0
    requires k < |slots| && Usable(k) && slots[k].trxId == id
    ensures id in model ==> slots[k] == model[id]
  {
  }

  lemma {:induction false} MissIsElsewhere(slots: seq<TidStatus>, slotOf: map<Id, nat>, model: map<Id, TidStatus>, b: nat, id: Id)
    requires Holds(slots, slotOf, model) && 8 * b + 8 <= |slots|
    requires forall k | 8 * b <= k < 8 * b + 7 :: slots[k].trxId != id
    ensures id in model ==> slotOf[id] / 8 != b
  {
  }

  /** One-sided reads of the remote table; each one happens some time after the last. */
  class Reader {
    const h: History
    const delay: nat -> nat
    const nMain: nat
    var now: nat
    var served: nat

    ghost predicate Valid()
      reads this
    {
      LegalHistory(h) && h(now).book.nMain == nMain
    }

    /** RdmaRead of one bucket. */
    method ReadBucket(b: nat) returns (bucket: seq<TidStatus>)
      requires Valid() && 8 * b + 8 <= |h(now).slots|
      modifies this
      ensures Valid() && now == old(now) + delay(old(served)) && served == old(served) + 1 && 8 * b + 8 <= |h(now).slots|
      ensures bucket == h(now).slots[8 * b..8 * b + 8]
    {
      GrowsLater(h, now, now + delay(served));
      now := now + delay(served);
      served := served + 1;
      bucket := h(now).slots[8 * b..8 * b + 8];
    }
  
    /** The slot of one bucket copy that carries the id. */
    method Pick(id: Id, bucket: seq<TidStatus>) returns (r: Option<TidStatus>)
      requires |bucket| == 8
      ensures match r
              case Some(s) => s.trxId == id && exists i :: 0 <= i < 7 && bucket[i] == s
              case None => forall i | 0 <= i < 7 :: bucket[i].trxId != id
    {
      var i := 0;
      while i < 7
        invariant i <= 7 && forall j | 0 <= j < i :: bucket[j].trxId != id
      {
        if bucket[i].trxId == id {
          return Some(bucket[i]);
        }
        i := i + 1;
      }
      r := None;
    }

    /** Fetch one bucket and look for the id in the copy. */
    method Probe(id: Id, b: nat) returns (r: Option<TidStatus>, link: nat)
      requires Valid() && id != 0 && b < |h(now).book.next| && Ok(h(now).slots, h(now).book)
      modifies this
      ensures Valid() && now >= old(now) && Ok(h(now).slots, h(now).book) && |h(now).book.next| == |h(old(now)).book.next|
      ensures link == h(now).book.next[b]
      ensures r.Some? ==> r.value.trxId == id && r.value in h(now).slots
      ensures Present(h, old(now), now, id) && Ahead(h, old(now), id, b) ==>
        if r.Some? then r.value == h(now).book.model[id] else link != 0 && Ahead(h, now, id, link)
    {
      ghost var t := now;
      var bucket := ReadBucket(b);
      StillAhead(h, t, now, id, b);
      r := Pick(id, bucket);
      InBucket(h(now), b, id, bucket, r);
      link := bucket[7].trxId;
    }

    /** The walk of read_status and read_ct.  It ends, and an id present all the
        while yields the word its slot held when its bucket was read. */
    method Walk(id: Id) returns (r: Option<TidStatus>)
      requires Valid() && id != 0
      modifies this
      ensures Valid() && now >= old(now)
      ensures Present(h, old(now), now, id) ==> r == Some(h(now).book.model[id])
      ensures r.Some? ==> r.value.trxId == id && r.value in h(now).slots
    {
      ghost var start := now;
      StartAhead(h, now, id);
      var b: nat := Home(id, nMain);
      while true
        invariant Valid() && start <= now && b < |h(now).book.next| && Ok(h(now).slots, h(now).book)
        invariant Present(h, start, now, id) ==> Ahead(h, now, id, b)
        decreases |h(now).book.next| - b
      {
        ghost var t := now;
        var link;
        r, link := Probe(id, b);
        assert Present(h, start, now, id) ==> Present(h, start, t, id) && Present(h, t, now, id);
        if r.Some? || link == 0 {
          return;
        }
        b := link;
      }
    }
  
    method ReadStatus(id: Id) returns (r: Option<Stat>)
      requires Valid() && id != 0
      modifies this
      ensures Valid() && now >= old(now)
      ensures Present(h, old(now), now, id) ==> r.Some? && r == GetState(h(now).book.model[id])
    {
      var s := Walk(id);
      if s.None? {
        return None;
      }
      r := GetState(s.value);
      if Present(h, old(now), now, id) {
        PresentSound(h, now, id);
      }
    }

    /** The commit time is read only from a validating or committed transaction. */
    method ReadCt(id: Id) returns (r: Option<(Stat, nat)>)
      requires Valid() && id != 0
      modifies this
      ensures Valid() && now >= old(now)
      ensures Present(h, old(now), now, id) ==>
        && r.Some? && Some(r.value.0) == GetState(h(now).book.model[id])
        && r.value.1 == if r.value.0 in {Validating, Committed} then h(now).book.model[id].ct else 0
      ensures Present(h, old(now), now, id) && r.Some? && r.value.0 in {Validating, Committed} ==> h(now).book.model[id].V
    {
      var s := Walk(id);
      if s.None? {
        return None;
      }
      var stat := GetState(s.value);
      if Present(h, old(now), now, id) {
        PresentSound(h, now, id);
      }
      r := match stat
        case None => None
        case Some(a) => Some((a, if a == Validating || a == Committed then s.value.ct else 0));
    }
  }
}
