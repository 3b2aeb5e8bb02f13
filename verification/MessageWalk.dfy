/** The whole way of a message through the expert graph: from the first expert
    to the end expert, into sub-queries and out of them again. */
module MessageWalk {
  import opened PlanGraph
  import opened PlanRouting

  /** Where a link out of `cur` can lead: past all that is nested in it, or to
      an enclosing expert, which ends no earlier. */
  ghost predicate Beyond(ms: seq<Mark>, cur: nat, x: int) {
    && cur < |ms| && 0 <= x < |ms|
    && if x > cur then x >= ms[cur].end
       else Around(ms, x, cur) && ms[x].depth < ms[cur].depth && ms[x].end >= ms[cur].end
  }

  lemma {:induction false} BeyondNext(es: seq<Expert>, ms: seq<Mark>, cur: nat)
    requires Linked(es, ms) && cur < |es| - 1
    ensures Beyond(ms, cur, es[cur].next)
  {
    assert LinkOk(es, ms, cur);
    if es[cur].next != ms[cur].end {
      assert Around(ms, ms[cur].parent, ms[cur].parent);
      AroundLeads(es, ms, ms[cur].parent, cur);
    }
  }

  lemma {:induction false} BeyondFurther(es: seq<Expert>, ms: seq<Mark>, cur: nat, x: int)
    requires Linked(es, ms) && cur < |es| - 1 && Beyond(ms, cur, x) && x <= cur
    ensures Beyond(ms, cur, es[x].next)
  {
    AroundLeads(es, ms, x, cur);
    if es[x].next != ms[x].end {
      AroundParent(es, ms, x, cur);
      AroundLeads(es, ms, ms[x].parent, cur);
    }
  }

  /** So does following links out of transparent branches. */
  lemma {:induction false} BeyondPath(es: seq<Expert>, ms: seq<Mark>, cur: nat, path: seq<int>, to: int, i: nat)
    requires Linked(es, ms) && cur < |es| - 1 && Follows(es, path, es[cur].next, to) && i < |path|
    requires forall j | 0 <= j < |path| - 1 :: Left(es[path[j]], path[j], cur)
    ensures Beyond(ms, cur, path[i])
    decreases i
  {
    if i == 0 {
      BeyondNext(es, ms, cur);
    } else {
      BeyondPath(es, ms, cur, path, to, i - 1);
      assert Left(es[path[i - 1]], path[i - 1], cur);
      BeyondFurther(es, ms, cur, path[i - 1]);
    }
  }

  /** How far a message has come; `back` tells that the results of a labelled
      branch have come back to it. */
  ghost function Progress(ms: seq<Mark>, at: nat, back: bool): int
    requires at < |ms|
  {
    if back then ms[at].end - 1 else at
  }

  /** Every branching expert has a sub-query to send a message into. */
  ghost predicate Enters(es: seq<Expert>, ms: seq<Mark>, pick: nat -> nat) {
    |es| == |ms| && forall i: nat | i < |es| - 1 && Branches(es[i].kind) :: i < pick(i) < |es| - 1 && ms[pick(i)].parent == i
  }

  lemma {:induction false} EndOf(es: seq<Expert>, ms: seq<Mark>, at: nat)
    requires Linked(es, ms) && at < |es|
    ensures at < ms[at].end <= |es|
  {
    if at < |es| - 1 {
      assert LinkOk(es, ms, at);
    }
  }

  /** `x` is where the links out of `cur` lead, out of transparent branches that end here. */
  ghost predicate Reaches(es: seq<Expert>, cur: nat, x: nat) {
    cur < |es| && exists path: seq<int> {:trigger Follows(es, path, es[cur].next, x)} ::
      Follows(es, path, es[cur].next, x) && forall j | 0 <= j < |path| - 1 :: Left(es[path[j]], path[j], cur)
  }

  /** One hop: the first time at a branching expert the message is sent into a
      sub-query; otherwise it follows the links, and a link that leads backwards
      brings results back. */
  ghost predicate Hop(es: seq<Expert>, pick: nat -> nat, cur: nat, back: bool, x: nat, back': bool) {
    && cur < |es| - 1
    && if Branches(es[cur].kind) && !back then x == pick(cur) && !back'
       else Reaches(es, cur, x) && (back' <==> x <= cur)
  }

  /** Every two neighbouring stops of a trail are one hop apart. */
  ghost predicate Hops(es: seq<Expert>, pick: nat -> nat, trail: seq<nat>, backs: seq<bool>) {
    && |trail| == |backs|
    && forall i, j | 0 <= i < j < |trail| && j == i + 1 :: Hop(es, pick, trail[i], backs[i], trail[j], backs[j])
  }

  // ---------- records ----------

  /** The records of the branching experts around a place, outermost first. */
  ghost function Records<Info>(ms: seq<Mark>, info: nat -> Info, at: int): seq<Info>
    decreases at
  {
    if 0 <= at < |ms| && ms[at].depth > 0 && 0 <= ms[at].parent < at
    then Records(ms, info, ms[at].parent) + [info(ms[at].parent)] else []
  }

  lemma {:induction false} AroundRecords<Info>(es: seq<Expert>, ms: seq<Mark>, info: nat -> Info, p: int, i: nat)
    requires Linked(es, ms) && i < |es| - 1 && Around(ms, p, i) && p != i
    ensures p >= 0 && Records(ms, info, p) + [info(p)] <= Records(ms, info, i)
    decreases i
  {
    assert LinkOk(es, ms, i);
    AroundLeads(es, ms, p, i);
    if p != ms[i].parent {
      AroundRecords(es, ms, info, p, ms[i].parent);
    }
  }

  lemma {:induction false} SamePrefix<T>(a: seq<T>, b: seq<T>, all: seq<T>)
    requires a <= all && b <= all && |a| == |b|
    ensures a == b
  {
  }

  /** What is left of the records fits the place that was reached. */
  lemma {:induction false} RecordsLeft<Info>(es: seq<Expert>, ms: seq<Mark>, info: nat -> Info, cur: nat, x: nat, infos: seq<Info>)
    requires Linked(es, ms) && cur < |es| - 1 && x < |es| && Beyond(ms, cur, x)
    requires x > cur && ms[x].depth > 0 ==> Around(ms, ms[x].parent, cur)
    requires infos <= Records(ms, info, cur) && |infos| == ms[x].depth && |Records(ms, info, cur)| == ms[cur].depth
    requires |Records(ms, info, x)| == ms[x].depth
    ensures infos == Records(ms, info, x)
  {
    if x <= cur {
      AroundRecords(es, ms, info, x, cur);
    } else if ms[x].depth > 0 {
      assert LinkOk(es, ms, x);
      AroundRecords(es, ms, info, ms[x].parent, cur);
    }
    SamePrefix(infos, Records(ms, info, x), Records(ms, info, cur));
  }

  /** There is one record for every level. */
  lemma {:induction false} RecordCount<Info>(es: seq<Expert>, ms: seq<Mark>, info: nat -> Info, at: nat)
    requires Linked(es, ms) && at < |es|
    ensures |Records(ms, info, at)| == ms[at].depth
    decreases at
  {
    if at < |es| - 1 {
      assert LinkOk(es, ms, at);
      if ms[at].depth > 0 {
        RecordCount(es, ms, info, ms[at].parent);
      }
    }
  }

  // ---------- the walk ----------

  /** A message at `at` with the records of the levels around it. */
  ghost predicate Rests<Info>(es: seq<Expert>, ms: seq<Mark>, info: nat -> Info, at: int, back: bool, infos: seq<Info>) {
    && Linked(es, ms) && 0 <= at < |es| && infos == Records(ms, info, at) && (back ==> at < |es| - 1)
  }

  /** Into a sub-query: one more record. */
  method Enter<Info>(es: seq<Expert>, ghost ms: seq<Mark>, info: nat -> Info, at: nat, sub: nat, infos: seq<Info>)
    returns (step: nat, infos': seq<Info>)
    requires Rests(es, ms, info, at, false, infos) && at < sub < |es| - 1 && ms[sub].parent == at
    ensures Rests(es, ms, info, step, false, infos') && step == sub
  {
    RecordCount(es, ms, info, at);
    BranchOnTheWay(es, ms, at, sub);
    assert LinkOk(es, ms, sub);
    ghost var path;
    var r, next;
    next, infos', r, path := UpdateRoute(es, ms, at, sub, infos + [info(at)]);
    step := next;
  }

  /** On to the next expert, or back to the labelled branch the results belong to. */
  method GoOn<Info>(es: seq<Expert>, ghost ms: seq<Mark>, ghost info: nat -> Info, at: nat, ghost back: bool, infos: seq<Info>)
    returns (step: nat, back': bool, infos': seq<Info>)
    requires Rests(es, ms, info, at, back, infos) && at < |es| - 1
    ensures Rests(es, ms, info, step, back', infos') && Reaches(es, at, step) && (back' <==> step <= at)
    ensures Further(ms, at, back, step, back')
  {
    RecordCount(es, ms, info, at);
    NextOnTheWay(es, ms, at);
    ghost var path;
    var r, next;
    next, infos', r, path := UpdateRoute(es, ms, at, es[at].next, infos);
    BeyondPath(es, ms, at, path, next, |path| - 1);
    EndOf(es, ms, at);
    step, back' := next, r == ToParent;
    if back' {
      infos' := infos'[..|infos'| - 1];
    }
    RecordCount(es, ms, info, step);
    RecordsLeft(es, ms, info, at, step, infos');
  }

  /** Later on the way: further on, or as far and less deep. */
  ghost predicate Further(ms: seq<Mark>, at: nat, back: bool, x: nat, back': bool) {
    && at < |ms| && x < |ms|
    && (Progress(ms, x, back') > Progress(ms, at, back)
        || (Progress(ms, x, back') == Progress(ms, at, back) && ms[x].depth < ms[at].depth))
  }

  /** Whatever sub-queries are taken, the message goes from expert to expert by
      hops, carries at every stop exactly the records of the branches around
      it, and reaches the end expert. */
  method Walk<Info>(es: seq<Expert>, ghost ms: seq<Mark>, pick: nat -> nat, info: nat -> Info)
    returns (trail: seq<nat>, backs: seq<bool>, carried: seq<seq<Info>>)
    requires Linked(es, ms) && Enters(es, ms, pick)
    ensures Whole(es, pick, trail, backs)
    ensures |carried| == |trail| && forall i | 0 <= i < |trail| :: carried[i] == Records(ms, info, trail[i])
    ensures carried[|trail| - 1] == []
  {
    var at, back, infos := 0, false, [];
    trail, backs, carried := [0], [false], [[]];
    assert |es| > 1 ==> LinkOk(es, ms, 0);
    while at < |es| - 1
      invariant Rests(es, ms, info, at, back, infos)
      invariant Hops(es, pick, trail, backs)
      invariant |trail| > 0 && trail[0] == 0 && !backs[0] && trail[|trail| - 1] == at && backs[|trail| - 1] == back
      invariant |carried| == |trail| && forall i | 0 <= i < |trail| :: carried[i] == Records(ms, info, trail[i])
      decreases |es| - Progress(ms, at, back), ms[at].depth
    {
      EndOf(es, ms, at);
      if Branches(es[at].kind) && !back {
        at, infos := Enter(es, ms, info, at, pick(at), infos);
      } else {
        at, back, infos := GoOn(es, ms, info, at, back, infos);
      }
      EndOf(es, ms, at);
      trail, backs, carried := trail + [at], backs + [back], carried + [infos];
    }
  }

  /** A trail from the first expert to the end expert. */
  ghost predicate Whole(es: seq<Expert>, pick: nat -> nat, trail: seq<nat>, backs: seq<bool>) {
    && Hops(es, pick, trail, backs)
    && |trail| > 0 && trail[0] == 0 && !backs[0] && trail[|trail| - 1] == |es| - 1
  }

  // ---------- every trail: no stop twice, and back to every labelled branch ----------

  lemma {:induction false} ReachesBeyond(es: seq<Expert>, ms: seq<Mark>, cur: nat, x: nat)
    requires Linked(es, ms) && cur < |es| - 1 && Reaches(es, cur, x)
    ensures Beyond(ms, cur, x)
  {
    var path: seq<int> :| Follows(es, path, es[cur].next, x) && forall j | 0 <= j < |path| - 1 :: Left(es[path[j]], path[j], cur);
    BeyondPath(es, ms, cur, path, x, |path| - 1);
  }

  /** A hop leads further. */
  lemma {:induction false} HopFurther(es: seq<Expert>, ms: seq<Mark>, pick: nat -> nat, cur: nat, back: bool, x: nat, back': bool)
    requires Linked(es, ms) && Enters(es, ms, pick) && Hop(es, pick, cur, back, x, back')
    ensures Further(ms, cur, back, x, back')
  {
    EndOf(es, ms, cur);
    if !Branches(es[cur].kind) || back {
      ReachesBeyond(es, ms, cur, x);
      EndOf(es, ms, x);
    }
  }

  /** Every trail leads further at every stop, so no stop is made twice. */
  lemma {:induction false} TrailFurther(es: seq<Expert>, ms: seq<Mark>, pick: nat -> nat, trail: seq<nat>, backs: seq<bool>, i: nat, j: nat)
    requires Linked(es, ms) && Enters(es, ms, pick) && Whole(es, pick, trail, backs) && i < j < |trail|
    ensures Further(ms, trail[i], backs[i], trail[j], backs[j])
    decreases j
  {
    HopFurther(es, ms, pick, trail[j - 1], backs[j - 1], trail[j], backs[j]);
    if i < j - 1 {
      TrailFurther(es, ms, pick, trail, backs, i, j - 1);
    }
  }

  /** `x` is nested in the branching expert `p`. */
  ghost predicate Inside(ms: seq<Mark>, p: nat, x: int) {
    x != p && Around(ms, p, x)
  }

  lemma {:induction false} InsideNext(es: seq<Expert>, ms: seq<Mark>, p: nat, x: nat)
    requires Linked(es, ms) && x < |es| - 1 && Inside(ms, p, x)
    ensures es[x].next == p || Inside(ms, p, es[x].next)
  {
    assert LinkOk(es, ms, x);
  }

  /** Links out of a place nested in a labelled branch stay in it or lead to the branch. */
  lemma {:induction false} InsidePath(es: seq<Expert>, ms: seq<Mark>, p: nat, cur: nat, path: seq<int>, to: int, i: nat)
    requires Linked(es, ms) && cur < |es| - 1 && Inside(ms, p, cur) && p < |es| && !Transparent(es[p].kind)
    requires Follows(es, path, es[cur].next, to) && i < |path|
    requires forall j | 0 <= j < |path| - 1 :: Left(es[path[j]], path[j], cur)
    ensures path[i] == p || Inside(ms, p, path[i])
    decreases i
  {
    if i == 0 {
      InsideNext(es, ms, p, cur);
    } else {
      InsidePath(es, ms, p, cur, path, to, i - 1);
      assert Left(es[path[i - 1]], path[i - 1], cur);
      InsideNext(es, ms, p, path[i - 1]);
    }
  }

  /** A hop out of a labelled branch brings results back to it. */
  lemma {:induction false} InsideHop(es: seq<Expert>, ms: seq<Mark>, pick: nat -> nat, p: nat, cur: nat, back: bool, x: nat, back': bool)
    requires Linked(es, ms) && Enters(es, ms, pick) && Hop(es, pick, cur, back, x, back')
    requires Inside(ms, p, cur) && p < |es| && es[p].kind == Labelled
    ensures (x == p && back') || Inside(ms, p, x)
  {
    AroundLeads(es, ms, p, cur);
    if Branches(es[cur].kind) && !back {
      assert LinkOk(es, ms, x);
    } else {
      var path: seq<int> :| Follows(es, path, es[cur].next, x) && forall j | 0 <= j < |path| - 1 :: Left(es[path[j]], path[j], cur);
      InsidePath(es, ms, p, cur, path, x, |path| - 1);
    }
  }

  lemma {:induction false} LeavesBack(es: seq<Expert>, ms: seq<Mark>, pick: nat -> nat, trail: seq<nat>, backs: seq<bool>, p: nat, i: nat) returns (j: nat)
    requires Linked(es, ms) && Enters(es, ms, pick) && Whole(es, pick, trail, backs) && i < |trail|
    requires p < |es| - 1 && es[p].kind == Labelled && Inside(ms, p, trail[i])
    ensures i < j < |trail| && trail[j] == p && backs[j]
    decreases |trail| - i
  {
    assert i < |trail| - 1 by {
      assert !Inside(ms, p, |es| - 1);
    }
    InsideHop(es, ms, pick, p, trail[i], backs[i], trail[i + 1], backs[i + 1]);
    if Inside(ms, p, trail[i + 1]) {
      j := LeavesBack(es, ms, pick, trail, backs, p, i + 1);
    } else {
      j := i + 1;
    }
  }

  /** On every trail, whatever sub-queries are taken, a labelled branch that was
      entered is come back to, later and exactly once. */
  lemma {:induction false} BackOnce(es: seq<Expert>, ms: seq<Mark>, pick: nat -> nat, trail: seq<nat>, backs: seq<bool>, i: nat) returns (j: nat)
    requires Linked(es, ms) && Enters(es, ms, pick) && Whole(es, pick, trail, backs)
    requires i < |trail| - 1 && trail[i] < |es| && es[trail[i]].kind == Labelled && !backs[i]
    ensures i < j < |trail| && trail[j] == trail[i] && backs[j]
    ensures forall k | 0 <= k < |trail| && trail[k] == trail[i] :: k == i || k == j
  {
    assert Hop(es, pick, trail[i], backs[i], trail[i + 1], backs[i + 1]);
    assert LinkOk(es, ms, trail[i + 1]);
    assert Inside(ms, trail[i], trail[i + 1]);
    j := LeavesBack(es, ms, pick, trail, backs, trail[i], i + 1);
    forall k | 0 <= k < |trail| && trail[k] == trail[i] ensures k == i || k == j {
      if k != i && k != j {
        var l := if backs[k] then j else i;
        TrailFurther(es, ms, pick, trail, backs, if k < l then k else l, if k < l then l else k);
      }
    }
  }
}
