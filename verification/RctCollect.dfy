/** Collecting the recently-committed lists of all workers before a validation
    query may start. */
module RctCollect {
  import opened Options

  type Id = nat

  /** The lists collected so far and how many workers they came from. */
  datatype Pack = Pack(list: seq<Id>, count: nat)

  /** The answer of one worker for one transaction, or a release. */
  datatype Reply = Reply(trx: Id, list: seq<Id>)

  /** The lists that belong to one transaction, in order. */
  ghost function Of(replies: seq<Reply>, id: Id): (lists: seq<seq<Id>>) {
    if replies == [] then []
    else
      var r := replies[|replies| - 1];
      var before := Of(replies[..|replies| - 1], id);
      if r.trx == id then before + [r.list] else before
  }

  ghost function Join(lists: seq<seq<Id>>): seq<Id> {
    if lists == [] then [] else Join(lists[..|lists| - 1]) + lists[|lists| - 1]
  }

  lemma {:induction false} OfSnoc(replies: seq<Reply>, r: Reply, id: Id)
    ensures Of(replies + [r], id) == if r.trx == id then Of(replies, id) + [r.list] else Of(replies, id)
  {
  }

  lemma {:induction false} OfPrefix(replies: seq<Reply>, k: nat, id: Id)
    requires k <= |replies|
    ensures |Of(replies[..k], id)| <= |Of(replies, id)|
  {
    if k < |replies| {
      OfPrefix(replies[..|replies| - 1], k, id);
      assert replies[..|replies| - 1][..k] == replies[..k];
    } else {
      assert replies[..k] == replies;
    }
  }

  class Collector {
    var packs: map<Id, Pack>

    constructor (ids: set<Id>)
      ensures packs == map id | id in ids :: Pack([], 0)
    {
      packs := map id | id in ids :: Pack([], 0);
    }

    /** InsertQueryRCTResult: the query is released with the last worker's list. */
    method Insert(workers: nat, r: Reply) returns (release: Option<seq<Id>>)
      requires r.trx in packs
      modifies this
      ensures var p := old(packs)[r.trx];
              if p.count + 1 == workers
              then release == Some(p.list + r.list) && packs == old(packs) - {r.trx}
              else release == None && packs == old(packs)[r.trx := Pack(p.list + r.list, p.count + 1)]
    {
      var p := packs[r.trx];
      p := Pack(p.list + r.list, p.count + 1);
      if p.count == workers {
        release := Some(p.list);
        packs := packs - {r.trx};
      } else {
        release := None;
        packs := packs[r.trx := p];
      }
    }
  }

  /** After some replies one query is still collecting, or was released exactly once and with everything. */
  ghost predicate CollectedOne(packs: map<Id, Pack>, workers: nat, seen: seq<Reply>, released: seq<Reply>, id: Id) {
    if |Of(seen, id)| < workers
    then Of(released, id) == [] && id in packs && packs[id] == Pack(Join(Of(seen, id)), |Of(seen, id)|)
    else Of(released, id) == [Join(Of(seen, id))]
  }

  ghost predicate Collected(packs: map<Id, Pack>, ids: set<Id>, workers: nat, seen: seq<Reply>, released: seq<Reply>) {
    forall id | id in ids :: CollectedOne(packs, workers, seen, released, id)
  }

  /** What one reply does to its own query. */
  lemma {:induction false} OwnReply(packs: map<Id, Pack>, workers: nat, seen: seq<Reply>, released: seq<Reply>, r: Reply)
    requires |Of(seen, r.trx)| < workers && CollectedOne(packs, workers, seen, released, r.trx)
    ensures var p := Pack(packs[r.trx].list + r.list, packs[r.trx].count + 1);
            && (p.count == workers ==> CollectedOne(packs - {r.trx}, workers, seen + [r], released + [Reply(r.trx, p.list)], r.trx))
            && (p.count < workers ==> CollectedOne(packs[r.trx := p], workers, seen + [r], released, r.trx))
  {
  }

  /** Other queries do not notice. */
  lemma {:induction false} OtherReply(packs: map<Id, Pack>, packs': map<Id, Pack>, workers: nat, seen: seq<Reply>, released: seq<Reply>, r: Reply, list: seq<Id>, id: Id)
    requires id != r.trx && CollectedOne(packs, workers, seen, released, id)
    requires id in packs ==> id in packs' && packs'[id] == packs[id]
    ensures CollectedOne(packs', workers, seen + [r], released, id)
    ensures CollectedOne(packs', workers, seen + [r], released + [Reply(r.trx, list)], id)
  {
  }

  /** The replies of all workers for any number of transactions, in any order:
      each validation query is released exactly once, by its last reply, with
      the lists of all workers. */
  method CollectAll(workers: nat, ids: set<Id>, replies: seq<Reply>) returns (released: seq<Reply>)
    requires workers > 0
    requires forall i | 0 <= i < |replies| :: replies[i].trx in ids
    requires forall id | id in ids :: |Of(replies, id)| <= workers
    ensures forall id | id in ids ::
      Of(released, id) == if |Of(replies, id)| == workers then [Join(Of(replies, id))] else []
  {
    var c := new Collector(ids);
    released := [];
    for i := 0 to |replies|
      invariant Collected(c.packs, ids, workers, replies[..i], released)
    {
      released := Take(c, workers, ids, replies, i, released);
    }
    assert replies[..|replies|] == replies;
  }

  method Take(c: Collector, workers: nat, ghost ids: set<Id>, replies: seq<Reply>, i: nat, released: seq<Reply>) returns (released': seq<Reply>)
    requires workers > 0 && i < |replies| && replies[i].trx in ids
    requires |Of(replies, replies[i].trx)| <= workers
    requires Collected(c.packs, ids, workers, replies[..i], released)
    modifies c
    ensures Collected(c.packs, ids, workers, replies[..i + 1], released')
  {
    var r := replies[i];
    ghost var seen, was := replies[..i], c.packs;
    assert replies[..i + 1] == seen + [r];
    OfSnoc(seen, r, r.trx);
    OfPrefix(replies, i + 1, r.trx);
    OwnReply(was, workers, seen, released, r);
    var release := c.Insert(workers, r);
    released' := released;
    if release.Some? {
      released' := released + [Reply(r.trx, release.value)];
    }
    forall id | id in ids && id != r.trx
      ensures CollectedOne(c.packs, workers, seen + [r], released', id)
    {
      OtherReply(was, c.packs, workers, seen, released, r, if release.Some? then release.value else [], id);
    }
  }
}
