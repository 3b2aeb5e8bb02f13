/** Routing messages along the expert graph: where the next message goes and
    which branch records it still carries. */
module PlanRouting {
  import opened PlanGraph

  // ---------- nesting ----------

  /** Nesting depth of an expert, its enclosing branching expert (or -1), and
      the place right behind everything nested in it. */
  datatype Mark = Mark(depth: nat, parent: int, end: nat)

  function Marks(ss: Steps, base: nat, parent: int, depth: nat): (ms: seq<Mark>)
    ensures |ms| == Size(ss)
  {
    match ss
    case Done => []
    case Then(h, t) => MarksStep(h, base, parent, depth) + Marks(t, base + SizeOf(h), parent, depth)
  }

  function MarksStep(s: Step, base: nat, parent: int, depth: nat): (ms: seq<Mark>)
    ensures |ms| == SizeOf(s) && ms[0] == Mark(depth, parent, base + SizeOf(s))
  {
    match s
    case Single(_) => [Mark(depth, parent, base + 1)]
    case Branching(_, subs) => [Mark(depth, parent, base + SizeOf(s))] + MarksSubs(subs, base + 1, base, depth + 1)
  }

  function MarksSubs(subs: Subs, base: nat, parent: int, depth: nat): (ms: seq<Mark>)
    ensures |ms| == SizeAll(subs)
  {
    match subs
    case NoMore => []
    case Also(q, more) => Marks(q, base, parent, depth) + MarksSubs(more, base + Size(q), parent, depth)
  }

  /** The enclosing expert branches, lies before, and encloses all of this one. */
  ghost predicate Enclosed(es: seq<Expert>, ms: seq<Mark>, i: nat)
    requires i < |es| == |ms|
  {
    && i < ms[i].end <= |es|
    && if ms[i].depth == 0 then ms[i].parent == -1
       else
         && 0 <= ms[i].parent < i && Branches(es[ms[i].parent].kind)
         && ms[ms[i].parent].depth + 1 == ms[i].depth && ms[i].end <= ms[ms[i].parent].end
  }

  /** The link stays in the level, leading past all that is nested here, or
      returns to the enclosing expert. */
  ghost predicate Leads(es: seq<Expert>, ms: seq<Mark>, i: nat, next: int)
    requires i < |es| == |ms|
  {
    || (next == ms[i].end < |es| && ms[next].depth == ms[i].depth && ms[next].parent == ms[i].parent)
    || (ms[i].depth > 0 && next == ms[i].parent)
  }

  ghost predicate LinkOk(es: seq<Expert>, ms: seq<Mark>, i: nat)
    requires i < |es| == |ms|
  {
    Enclosed(es, ms, i) && Leads(es, ms, i, es[i].next)
  }

  /** Every expert but the final one is linked properly; the final one is a barrier at the top level. */
  ghost predicate Linked(es: seq<Expert>, ms: seq<Mark>) {
    && |es| == |ms| > 0 && es[|es| - 1].kind == Barrier && ms[|es| - 1] == Mark(0, -1, |es|)
    && forall i | 0 <= i < |es| - 1 :: LinkOk(es, ms, i)
  }

  // ---------- the parser's graph is linked ----------

  lemma {:induction false} Slices<T>(w: seq<T>, lo: nat, a: seq<T>, b: seq<T>)
    requires lo + |a| + |b| <= |w| && w[lo..lo + |a| + |b|] == a + b
    ensures w[lo..lo + |a|] == a && w[lo + |a|..lo + |a| + |b|] == b
  {
    var s := w[lo..lo + |a| + |b|];
    assert w[lo..lo + |a|] == s[..|a|];
    assert w[lo + |a|..lo + |a| + |b|] == s[|a|..];
  }

  /** A level placed into the whole: its enclosing expert, and where it may lead. */
  ghost predicate Context(es: seq<Expert>, ms: seq<Mark>, base: nat, end: nat, exit: int, parent: int, depth: nat) {
    && base <= end <= |es| == |ms|
    && if depth == 0 then parent == -1 && exit == end < |es| && ms[end].depth == 0 && ms[end].parent == -1
       else
         && 0 <= parent < base && Branches(es[parent].kind) && ms[parent].depth + 1 == depth
         && end <= ms[parent].end && exit == parent
  }

  /** The level from `base` on is laid out in the whole; likewise a step and its sub-queries. */
  ghost predicate Laid(es: seq<Expert>, ms: seq<Mark>, ss: Steps, base: nat, exit: int, parent: int, depth: nat) {
    && base + Size(ss) <= |es| == |ms|
    && es[base..base + Size(ss)] == Build(ss, base, exit) && ms[base..base + Size(ss)] == Marks(ss, base, parent, depth)
  }

  ghost predicate LaidStep(es: seq<Expert>, ms: seq<Mark>, s: Step, base: nat, next: int, parent: int, depth: nat) {
    && base + SizeOf(s) <= |es| == |ms|
    && es[base..base + SizeOf(s)] == BuildStep(s, base, next) && ms[base..base + SizeOf(s)] == MarksStep(s, base, parent, depth)
  }

  ghost predicate LaidSubs(es: seq<Expert>, ms: seq<Mark>, subs: Subs, base: nat, parent: nat, depth: nat) {
    && base + SizeAll(subs) <= |es| == |ms|
    && es[base..base + SizeAll(subs)] == BuildSubs(subs, base, parent)
    && ms[base..base + SizeAll(subs)] == MarksSubs(subs, base, parent, depth)
  }

  ghost function NextOf(ss: Steps, base: nat, exit: int): int
    requires ss != Done
  {
    if ss.tail == Done then exit else base + SizeOf(ss.head)
  }

  /** The first step of a level and the rest of it. */
  lemma {:induction false} LevelSplit(es: seq<Expert>, ms: seq<Mark>, ss: Steps, base: nat, exit: int, parent: int, depth: nat)
    requires ss != Done && Laid(es, ms, ss, base, exit, parent, depth)
    ensures LaidStep(es, ms, ss.head, base, NextOf(ss, base, exit), parent, depth)
    ensures Laid(es, ms, ss.tail, base + SizeOf(ss.head), exit, parent, depth)
  {
    var after := base + SizeOf(ss.head);
    Slices(es, base, BuildStep(ss.head, base, NextOf(ss, base, exit)), Build(ss.tail, after, exit));
    Slices(ms, base, MarksStep(ss.head, base, parent, depth), Marks(ss.tail, after, parent, depth));
  }

  lemma {:induction false} FirstMark(es: seq<Expert>, ms: seq<Mark>, ss: Steps, base: nat, exit: int, parent: int, depth: nat)
    requires ss != Done && Laid(es, ms, ss, base, exit, parent, depth)
    ensures base < |ms| && ms[base].depth == depth && ms[base].parent == parent
  {
    LevelSplit(es, ms, ss, base, exit, parent, depth);
    StepHead(es, ms, ss.head, base, NextOf(ss, base, exit), parent, depth);
  }

  lemma {:induction false} StepHead(es: seq<Expert>, ms: seq<Mark>, s: Step, base: nat, next: int, parent: int, depth: nat)
    requires LaidStep(es, ms, s, base, next, parent, depth)
    ensures base < |es| && es[base].next == next && ms[base] == Mark(depth, parent, base + SizeOf(s))
    ensures s.Branching? ==> es[base].kind == s.kind
  {
    assert es[base] == es[base..base + SizeOf(s)][0] && ms[base] == ms[base..base + SizeOf(s)][0];
  }

  lemma {:induction false} StepSplit(es: seq<Expert>, ms: seq<Mark>, s: Step, base: nat, next: int, parent: int, depth: nat)
    requires s.Branching? && LaidStep(es, ms, s, base, next, parent, depth)
    ensures LaidSubs(es, ms, s.subs, base + 1, base, depth + 1)
  {
    Slices(es, base, [Expert(s.kind, next)], BuildSubs(s.subs, base + 1, base));
    Slices(ms, base, [Mark(depth, parent, base + SizeOf(s))], MarksSubs(s.subs, base + 1, base, depth + 1));
  }

  lemma {:induction false} SubsSplit(es: seq<Expert>, ms: seq<Mark>, subs: Subs, base: nat, parent: nat, depth: nat)
    requires subs != NoMore && LaidSubs(es, ms, subs, base, parent, depth)
    ensures Laid(es, ms, subs.query, base, parent, parent, depth)
    ensures LaidSubs(es, ms, subs.more, base + Size(subs.query), parent, depth)
  {
    Slices(es, base, Build(subs.query, base, parent), BuildSubs(subs.more, base + Size(subs.query), parent));
    Slices(ms, base, Marks(subs.query, base, parent, depth), MarksSubs(subs.more, base + Size(subs.query), parent, depth));
  }

  /** A step placed into the whole, up to `after`: its enclosing expert, and where it leads. */
  ghost predicate StepContext(es: seq<Expert>, ms: seq<Mark>, base: nat, after: nat, next: int, parent: int, depth: nat) {
    && base <= after <= |es| == |ms|
    && (if depth == 0 then parent == -1
        else 0 <= parent < base && Branches(es[parent].kind) && ms[parent].depth + 1 == depth && after <= ms[parent].end)
    && ((next == after < |es| && ms[next].depth == depth && ms[next].parent == parent) || (depth > 0 && next == parent))
  }

  lemma {:induction false} LevelContext(es: seq<Expert>, ms: seq<Mark>, ss: Steps, base: nat, exit: int, parent: int, depth: nat)
    requires ss != Done && Laid(es, ms, ss.tail, base + SizeOf(ss.head), exit, parent, depth)
    requires Context(es, ms, base, base + Size(ss), exit, parent, depth)
    ensures StepContext(es, ms, base, base + SizeOf(ss.head), NextOf(ss, base, exit), parent, depth)
    ensures Context(es, ms, base + SizeOf(ss.head), base + Size(ss), exit, parent, depth)
  {
    if ss.tail != Done {
      FirstMark(es, ms, ss.tail, base + SizeOf(ss.head), exit, parent, depth);
    }
  }

  lemma {:induction false} LevelLinked(es: seq<Expert>, ms: seq<Mark>, ss: Steps, base: nat, exit: int, parent: int, depth: nat, i: nat)
    requires Proper(ss) && Context(es, ms, base, base + Size(ss), exit, parent, depth)
    requires Laid(es, ms, ss, base, exit, parent, depth) && base <= i < base + Size(ss)
    ensures LinkOk(es, ms, i)
    decreases ss
  {
    LevelSplit(es, ms, ss, base, exit, parent, depth);
    LevelContext(es, ms, ss, base, exit, parent, depth);
    if i >= base + SizeOf(ss.head) {
      LevelLinked(es, ms, ss.tail, base + SizeOf(ss.head), exit, parent, depth, i);
    } else {
      StepLinked(es, ms, ss.head, base, NextOf(ss, base, exit), parent, depth, i);
    }
  }

  lemma {:induction false} StepLinked(es: seq<Expert>, ms: seq<Mark>, s: Step, base: nat, next: int, parent: int, depth: nat, i: nat)
    requires ProperStep(s) && LaidStep(es, ms, s, base, next, parent, depth)
    requires StepContext(es, ms, base, base + SizeOf(s), next, parent, depth) && base <= i < base + SizeOf(s)
    ensures LinkOk(es, ms, i)
    decreases s
  {
    StepHead(es, ms, s, base, next, parent, depth);
    if i > base {
      StepSplit(es, ms, s, base, next, parent, depth);
      SubsLinked(es, ms, s.subs, base + 1, base, depth + 1, i);
    }
  }

  lemma {:induction false} SubsLinked(es: seq<Expert>, ms: seq<Mark>, subs: Subs, base: nat, parent: nat, depth: nat, i: nat)
    requires ProperSubs(subs) && depth > 0 && Context(es, ms, base, base + SizeAll(subs), parent, parent, depth)
    requires LaidSubs(es, ms, subs, base, parent, depth) && base <= i < base + SizeAll(subs)
    ensures LinkOk(es, ms, i)
    decreases subs
  {
    SubsSplit(es, ms, subs, base, parent, depth);
    if i < base + Size(subs.query) {
      LevelLinked(es, ms, subs.query, base, parent, parent, depth, i);
    } else {
      SubsLinked(es, ms, subs.more, base + Size(subs.query), parent, depth, i);
    }
  }

  /** For every nesting of sub-queries, the graph the parser builds, closed by
      the end expert, is properly linked. */
  lemma {:induction false} GraphLinked(ss: Steps)
    requires Proper(ss)
    ensures Linked(Build(ss, 0, Size(ss)) + [Expert(Barrier, 0)], Marks(ss, 0, -1, 0) + [Mark(0, -1, Size(ss) + 1)])
  {
    var es, ms := Build(ss, 0, Size(ss)) + [Expert(Barrier, 0)], Marks(ss, 0, -1, 0) + [Mark(0, -1, Size(ss) + 1)];
    forall i | 0 <= i < |es| - 1 ensures LinkOk(es, ms, i) {
      LevelLinked(es, ms, ss, 0, Size(ss), -1, 0, i);
    }
  }

  // ---------- routing ----------

  /** `p` is `i` or encloses it. */
  ghost predicate Around(ms: seq<Mark>, p: int, i: int)
    decreases i
  {
    p == i || (0 <= i < |ms| && ms[i].parent < i && ms[i].depth > 0 && Around(ms, p, ms[i].parent))
  }

  /** An enclosing expert: where it leads lies past `i`, or further out. */
  lemma {:induction false} AroundLeads(es: seq<Expert>, ms: seq<Mark>, p: int, i: nat)
    requires Linked(es, ms) && i < |es| - 1 && Around(ms, p, i)
    ensures 0 <= p <= i && i < ms[i].end <= ms[p].end && LinkOk(es, ms, p)
    ensures p != i ==> Branches(es[p].kind)
    decreases i
  {
    assert LinkOk(es, ms, i);
    if p != i {
      AroundLeads(es, ms, p, ms[i].parent);
    }
  }

  lemma {:induction false} AroundParent(es: seq<Expert>, ms: seq<Mark>, p: int, i: nat)
    requires Linked(es, ms) && i < |es| - 1 && Around(ms, p, i) && 0 <= p <= i && ms[p].depth > 0
    ensures Around(ms, ms[p].parent, i)
    decreases i
  {
    assert LinkOk(es, ms, i);
    if p != i {
      AroundLeads(es, ms, p, ms[i].parent);
      AroundParent(es, ms, p, ms[i].parent);
    }
  }

  /** A message sent from `cur` towards `step` with `k` branch records: either
      the step lies ahead in a level around `cur` and there is a record for
      each level, or it is a branching expert around `cur` with one more record. */
  ghost predicate OnTheWay(es: seq<Expert>, ms: seq<Mark>, cur: nat, step: int, k: nat) {
    && Linked(es, ms) && cur < |es| - 1 && 0 <= step < |es|
    && if step > cur then ms[step].depth == k && (k > 0 ==> Around(ms, ms[step].parent, cur))
       else Around(ms, step, cur) && Branches(es[step].kind) && k == ms[step].depth + 1
  }

  /** Leaving a transparent branching expert drops one record and goes on. */
  lemma {:induction false} ClimbOut(es: seq<Expert>, ms: seq<Mark>, cur: nat, step: int, k: nat)
    requires OnTheWay(es, ms, cur, step, k) && step <= cur
    ensures k > 0 && OnTheWay(es, ms, cur, es[step].next, k - 1)
  {
    AroundLeads(es, ms, step, cur);
    if ms[step].depth > 0 {
      AroundParent(es, ms, step, cur);
      AroundLeads(es, ms, ms[step].parent, cur);
    }
  }

  /** Passing over a step ahead keeps the records. */
  lemma {:induction false} StepOn(es: seq<Expert>, ms: seq<Mark>, cur: nat, step: int, k: nat)
    requires OnTheWay(es, ms, cur, step, k) && step > cur && step < |es| - 1
    ensures OnTheWay(es, ms, cur, es[step].next, k)
    ensures es[step].next > step || es[step].next <= cur
  {
    assert LinkOk(es, ms, step);
    if es[step].next == ms[step].parent && ms[step].depth > 0 {
      AroundLeads(es, ms, ms[step].parent, cur);
    }
  }

  /** The next message of an expert with a record for every level around it. */
  lemma {:induction false} NextOnTheWay(es: seq<Expert>, ms: seq<Mark>, cur: nat)
    requires Linked(es, ms) && cur < |es| - 1
    ensures OnTheWay(es, ms, cur, es[cur].next, ms[cur].depth)
  {
    assert LinkOk(es, ms, cur);
    if ms[cur].depth > 0 {
      assert Around(ms, ms[cur].parent, ms[cur].parent);
    }
  }

  /** A message into a sub-query of a branching expert, with a record pushed for it. */
  lemma {:induction false} BranchOnTheWay(es: seq<Expert>, ms: seq<Mark>, cur: nat, step: nat)
    requires Linked(es, ms) && cur < |es| - 1 && cur < step < |es| - 1 && ms[step].parent == cur
    ensures OnTheWay(es, ms, cur, step, ms[cur].depth + 1)
  {
    assert LinkOk(es, ms, step);
  }

  datatype Route = ToBarrier | ToParent | Spawn

  /** The kind of route fits the step reached, and the records fit its level. */
  ghost predicate Arrived(es: seq<Expert>, ms: seq<Mark>, cur: nat, step: int, k: nat, r: Route) {
    && OnTheWay(es, ms, cur, step, k)
    && match r
       case ToBarrier => es[step].kind == Barrier && step > cur
       case ToParent => es[step].kind == Labelled && step <= cur && k > 0
       case Spawn => es[step].kind != Barrier && step > cur
  }

  /** The links followed from one expert to another. */
  ghost predicate Follows(es: seq<Expert>, path: seq<int>, from: int, to: int) {
    && path != [] && path[0] == from && path[|path| - 1] == to
    && (forall i | 0 <= i < |path| :: 0 <= path[i] < |es|)
    && (forall i, j | 0 <= i < j < |path| && j == i + 1 :: path[j] == es[path[i]].next)
  }

  lemma {:induction false} FollowsFurther(es: seq<Expert>, path: seq<int>, from: int, to: int)
    requires Follows(es, path, from, to) && 0 <= es[to].next < |es|
    ensures Follows(es, path + [es[to].next], from, es[to].next)
  {
  }

  lemma {:induction false} FollowsEarlier(es: seq<Expert>, step: int, path: seq<int>, to: int)
    requires 0 <= step < |es| && Follows(es, path, es[step].next, to)
    ensures Follows(es, [step] + path, step, to)
  {
  }

  /** A transparent branch the message is just leaving. */
  predicate Left(e: Expert, p: int, cur: nat) {
    Transparent(e.kind) && p <= cur
  }

  /** An expert that empty data does not stop at: one ahead that is neither a
      barrier nor a branch to enter, or a transparent branch it is leaving. */
  predicate PassedOver(e: Expert, p: int, cur: nat) {
    e.kind != Barrier && if Transparent(e.kind) then p <= cur else p > cur
  }

  /** UpdateRoute: it ends, never pops from an empty list of records, leaves
      exactly the transparent branches that end here, and keeps the records it
      came with for the others. */
  method UpdateRoute<Info>(es: seq<Expert>, ghost ms: seq<Mark>, cur: nat, step: int, infos: seq<Info>)
    returns (step': int, infos': seq<Info>, r: Route, ghost path: seq<int>)
    requires OnTheWay(es, ms, cur, step, |infos|)
    ensures Arrived(es, ms, cur, step', |infos'|, r) && infos' <= infos
    ensures Follows(es, path, step, step') && |path| == 1 + |infos| - |infos'|
    ensures forall i | 0 <= i < |path| - 1 :: Left(es[path[i]], path[i], cur)
    ensures !Left(es[step'], step', cur)
    ensures !Left(es[step], step, cur) ==> step' == step
    decreases |infos|
  {
    if es[step].kind == Barrier {
      return step, infos, ToBarrier, [step];
    }
    if step <= cur {
      ClimbOut(es, ms, cur, step, |infos|);
      if Transparent(es[step].kind) {
        step', infos', r, path := UpdateRoute(es, ms, cur, es[step].next, infos[..|infos| - 1]);
        FollowsEarlier(es, step, path, step');
        path := [step] + path;
        return;
      }
      return step, infos, ToParent, [step];
    }
    return step, infos, Spawn, [step];
  }

  /** UpdateCollectionRoute: the loop ends, never pops too often, and stops at
      the first expert on the way where empty data is collected: a barrier, a
      labelled branch to return to, or a transparent branch met for the first time. */
  method UpdateCollectionRoute<Info>(es: seq<Expert>, ghost ms: seq<Mark>, cur: nat, step: int, infos: seq<Info>)
    returns (step': int, infos': seq<Info>, r: Route, toBarrier: bool, ghost path: seq<int>)
    requires OnTheWay(es, ms, cur, step, |infos|)
    ensures Arrived(es, ms, cur, step', |infos'|, r) && infos' <= infos
    ensures toBarrier <==> r == ToBarrier
    ensures Follows(es, path, step, step') && !PassedOver(es[step'], step', cur)
    ensures forall i | 0 <= i < |path| - 1 :: PassedOver(es[path[i]], path[i], cur)
  {
    step', infos', toBarrier, path := step, infos, false, [step];
    while step' < |es|
      invariant OnTheWay(es, ms, cur, step', |infos'|) && infos' <= infos && !toBarrier
      invariant Follows(es, path, step, step')
      invariant forall i | 0 <= i < |path| - 1 :: PassedOver(es[path[i]], path[i], cur)
      decreases |infos'|, if step' > cur then 1 else 0, |es| - step'
    {
      if es[step'].kind == Barrier {
        toBarrier := true;
        break;
      } else if Transparent(es[step'].kind) {
        if step' > cur {
          break;
        }
        ClimbOut(es, ms, cur, step', |infos'|);
        infos' := infos'[..|infos'| - 1];
      } else if step' <= cur {
        break;
      } else {
        StepOn(es, ms, cur, step', |infos'|);
      }
      FollowsFurther(es, path, step, step');
      path := path + [es[step'].next];
      step' := es[step'].next;
    }
    ghost var rest;
    step', infos', r, rest := UpdateRoute(es, ms, cur, step', infos');
  }
}
