/** The dependency graph that the parser builds for a transaction, as values. */
module PlanDag {

  /** For every query the set of queries it waits for; the last query is the commit statement. */
  type Deps = seq<set<nat>>

  /** Dependencies point backwards, so the graph has no cycle. */
  ghost predicate Backward(deps: Deps) {
    forall q, p | 0 <= q < |deps| && p in deps[q] :: p < q
  }

  /** The last updating line before line `q`, or -1. */
  function LastUpdate(updates: seq<bool>, q: nat): (u: int)
    requires q <= |updates|
    ensures -1 <= u < q && (u >= 0 ==> updates[u])
    ensures forall i | u < i < q :: !updates[i]
  {
    if q == 0 then -1 else if updates[q - 1] then q - 1 else LastUpdate(updates, q - 1)
  }

  function Begin(updates: seq<bool>, q: nat): (b: nat)
    requires q <= |updates|
    ensures b <= q
  {
    var u := LastUpdate(updates, q);
    if u > 0 then u else 0
  }

  /** Query `q` waits for every line from `b` on. */
  ghost predicate WaitsFrom(d: set<nat>, b: nat, q: nat) {
    forall i | b <= i < q :: i in d
  }

  /** An updating line and the commit statement wait for all lines since the
      last update, a reading line at least for that update itself. */
  ghost predicate Ordered(deps: Deps, updates: seq<bool>) {
    && |deps| == |updates| + 1
    && forall q | 0 <= q < |deps| :: OrderedAt(deps[q], updates, q)
  }

  ghost predicate OrderedAt(d: set<nat>, updates: seq<bool>, q: nat)
    requires q <= |updates|
  {
    if q == |updates| || updates[q] then WaitsFrom(d, Begin(updates, q), q)
    else LastUpdate(updates, q) >= 0 ==> LastUpdate(updates, q) in d
  }

  /** What is filled has all it waits for filled. */
  ghost predicate ClosedUnder(deps: Deps, f: set<nat>) {
    forall q | q in f && q < |deps| :: deps[q] <= f
  }

  /** Waiting for the lines since the last update is waiting for every line. */
  lemma {:induction false} AllLinesBefore(deps: Deps, updates: seq<bool>, f: set<nat>, q: nat)
    requires Ordered(deps, updates) && ClosedUnder(deps, f) && q <= |updates|
    requires WaitsFrom(f, Begin(updates, q), q)
    ensures WaitsFrom(f, 0, q)
    decreases q
  {
    var b := Begin(updates, q);
    if b > 0 {
      assert b in f;
      assert OrderedAt(deps[b], updates, b);
      AllLinesBefore(deps, updates, f, b);
    }
  }

  // ---------- counting ----------

  /** How many of the queries before `k` are awaited and not filled. */
  ghost function Pending(d: set<nat>, f: set<nat>, k: nat): nat {
    if k == 0 then 0 else Pending(d, f, k - 1) + if k - 1 in d && k - 1 !in f then 1 else 0
  }

  lemma {:induction false} PendingFilled(d: set<nat>, f: set<nat>, p: nat, k: nat)
    ensures Pending(d, f + {p}, k) == Pending(d, f, k) - if p < k && p in d && p !in f then 1 else 0
  {
    if k != 0 {
      PendingFilled(d, f, p, k - 1);
    }
  }

  lemma {:induction false} PendingAwaited(d: set<nat>, f: set<nat>, p: nat, k: nat)
    ensures Pending(d + {p}, f, k) == Pending(d, f, k) + if p < k && p !in d && p !in f then 1 else 0
  {
    if k != 0 {
      PendingAwaited(d, f, p, k - 1);
    }
  }

  lemma {:induction false} PendingNone(k: nat, f: set<nat>)
    ensures Pending({}, f, k) == 0
  {
    if k != 0 {
      PendingNone(k - 1, f);
    }
  }

  lemma {:induction false} NoneLeft(d: set<nat>, f: set<nat>, k: nat)
    ensures Pending(d, f, k) == 0 <==> forall p | p in d && p < k :: p in f
  {
    if k != 0 {
      NoneLeft(d, f, k - 1);
    }
  }

  // ---------- the state of a running plan ----------

  /** Every query was sent when its count reached zero and not before. */
  ghost predicate Scheduled(deps: Deps, count: map<nat, nat>, sent: set<nat>, filled: set<nat>) {
    && Backward(deps) && filled <= sent
    && (forall q | q in sent :: q < |deps| && q !in count && deps[q] <= filled)
    && (forall q | q in count :: q < |deps|)
    && (forall q | 0 <= q < |deps| && q !in sent :: q in count && count[q] == Pending(deps[q], filled, q))
  }

  /** The queries that may leave now. */
  ghost function Releasable(count: map<nat, nat>): set<nat> {
    set q | q in count && count[q] == 0
  }

  /** Sending what has no count left keeps the invariant. */
  lemma {:induction false} SendKeeps(deps: Deps, count: map<nat, nat>, sent: set<nat>, filled: set<nat>)
    requires Scheduled(deps, count, sent, filled)
    ensures Scheduled(deps, count - Releasable(count), sent + Releasable(count), filled)
    ensures sent !! Releasable(count)
  {
    forall q | q in Releasable(count) ensures q !in sent && deps[q] <= filled {
      NoneLeft(deps[q], filled, q);
    }
  }

  /** The queries waiting for `p`. */
  ghost function Children(deps: Deps, p: nat): set<nat> {
    set q | 0 <= q < |deps| && p in deps[q]
  }

  /** While `p` is unfilled, everything that waits for it is held back with a positive count. */
  lemma {:induction false} ChildrenWait(deps: Deps, count: map<nat, nat>, sent: set<nat>, filled: set<nat>, p: nat)
    requires Scheduled(deps, count, sent, filled) && p !in filled
    ensures forall q | q in Children(deps, p) :: q !in sent && q in count && count[q] > 0
  {
    forall q | q in Children(deps, p) ensures q !in sent && q in count && count[q] > 0 {
      NoneLeft(deps[q], filled, q);
    }
  }

  /** The counts after `p` was filled. */
  ghost function Counted(count: map<nat, nat>, children: set<nat>): (c: map<nat, nat>)
    requires forall q | q in children :: q in count && count[q] > 0
  {
    map q | q in count :: if q in children then count[q] - 1 else count[q]
  }

  lemma {:induction false} FillKeeps(deps: Deps, count: map<nat, nat>, sent: set<nat>, filled: set<nat>, p: nat)
    requires Scheduled(deps, count, sent, filled) && p in sent && p !in filled
    requires forall q | q in Children(deps, p) :: q in count && count[q] > 0
    ensures Scheduled(deps, Counted(count, Children(deps, p)), sent, filled + {p})
  {
    var count' := Counted(count, Children(deps, p));
    forall q | 0 <= q < |deps| && q !in sent ensures q in count' && count'[q] == Pending(deps[q], filled + {p}, q) {
      PendingFilled(deps[q], filled, p, q);
    }
  }

  /** An unfinished plan with nothing in flight has a query to release. */
  lemma {:induction false} Progress(deps: Deps, count: map<nat, nat>, sent: set<nat>, filled: set<nat>)
    requires Scheduled(deps, count, sent, filled) && sent == filled
    requires exists q :: 0 <= q < |deps| && q !in sent
    ensures Releasable(count) != {}
  {
    var q :| 0 <= q < |deps| && q !in sent;
    Smallest(deps, count, sent, filled, q);
  }

  lemma {:induction false} Smallest(deps: Deps, count: map<nat, nat>, sent: set<nat>, filled: set<nat>, q: nat)
    requires Scheduled(deps, count, sent, filled) && sent == filled && q < |deps| && q !in sent
    ensures Releasable(count) != {}
    decreases q
  {
    if p :| p in deps[q] && p !in filled {
      Smallest(deps, count, sent, filled, p);
    } else {
      NoneLeft(deps[q], filled, q);
      assert q in Releasable(count);
    }
  }

  /** The commit statement leaves only when every line is filled. */
  lemma {:induction false} CommitLast(deps: Deps, updates: seq<bool>, count: map<nat, nat>, sent: set<nat>, filled: set<nat>)
    requires Ordered(deps, updates) && Scheduled(deps, count, sent, filled) && |updates| in sent
    ensures WaitsFrom(filled, 0, |updates|)
  {
    assert OrderedAt(deps[|updates|], updates, |updates|);
    AllLinesBefore(deps, updates, filled, |updates|);
  }
}
