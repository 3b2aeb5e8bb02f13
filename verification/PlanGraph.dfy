/** The graph of next_expert links the parser builds for nested sub-queries. */
module PlanGraph {

  datatype Kind = Ordinary | Barrier | Union | Repeat | Labelled

  /** Branching experts that results do not have to return to. */
  predicate Transparent(k: Kind) {
    k == Union || k == Repeat
  }

  predicate Branches(k: Kind) {
    Transparent(k) || k == Labelled
  }

  datatype Expert = Expert(kind: Kind, next: int)

  // ---------- queries ----------

  datatype Steps = Done | Then(head: Step, tail: Steps)
  datatype Step = Single(barrier: bool) | Branching(kind: Kind, subs: Subs)
  datatype Subs = NoMore | Also(query: Steps, more: Subs)

  function Size(ss: Steps): nat {
    match ss
    case Done => 0
    case Then(h, t) => SizeOf(h) + Size(t)
  }

  function SizeOf(s: Step): (n: nat)
    ensures n > 0
  {
    match s
    case Single(_) => 1
    case Branching(_, subs) => 1 + SizeAll(subs)
  }

  function SizeAll(subs: Subs): nat {
    match subs
    case NoMore => 0
    case Also(q, more) => Size(q) + SizeAll(more)
  }

  /** Branching steps have a branching kind, and every sub-query contributes an expert. */
  predicate Proper(ss: Steps) {
    match ss
    case Done => true
    case Then(h, t) => ProperStep(h) && Proper(t)
  }

  predicate ProperStep(s: Step) {
    match s
    case Single(_) => true
    case Branching(k, subs) => Branches(k) && ProperSubs(subs)
  }

  predicate ProperSubs(subs: Subs) {
    match subs
    case NoMore => true
    case Also(q, more) => q != Done && Proper(q) && ProperSubs(more)
  }

  // ---------- the intended graph ----------

  /** A query laid out from `base`, its last step leading to `exit`. */
  function Build(ss: Steps, base: nat, exit: int): (es: seq<Expert>)
    ensures |es| == Size(ss)
  {
    match ss
    case Done => []
    case Then(h, t) =>
      var after := base + SizeOf(h);
      BuildStep(h, base, if t == Done then exit else after) + Build(t, after, exit)
  }

  /** A branching step leads past all its sub-queries, which lead back to it. */
  function BuildStep(s: Step, base: nat, next: int): (es: seq<Expert>)
    ensures |es| == SizeOf(s)
  {
    match s
    case Single(b) => [Expert(if b then Barrier else Ordinary, next)]
    case Branching(k, subs) => [Expert(k, next)] + BuildSubs(subs, base + 1, base)
  }

  function BuildSubs(subs: Subs, base: nat, parent: nat): (es: seq<Expert>)
    ensures |es| == SizeAll(subs)
  {
    match subs
    case NoMore => []
    case Also(q, more) => Build(q, base, parent) + BuildSubs(more, base + Size(q), parent)
  }

  /** The steps of a query as they are written, a branching one before its sub-queries. */
  function Written(ss: Steps): (steps: seq<Step>)
    ensures |steps| == Size(ss)
  {
    match ss
    case Done => []
    case Then(h, t) => WrittenStep(h) + Written(t)
  }

  function WrittenStep(s: Step): (steps: seq<Step>)
    ensures |steps| == SizeOf(s)
  {
    match s
    case Single(_) => [s]
    case Branching(_, subs) => [s] + WrittenSubs(subs)
  }

  function WrittenSubs(subs: Subs): (steps: seq<Step>)
    ensures |steps| == SizeAll(subs)
  {
    match subs
    case NoMore => []
    case Also(q, more) => Written(q) + WrittenSubs(more)
  }

  /** The expert of a step: branching as the step says, a barrier or not. */
  ghost predicate ExpertOf(e: Expert, s: Step) {
    if s.Branching? then e.kind == s.kind else !Branches(e.kind) && (e.kind == Barrier <==> s.barrier)
  }

  /** Every step has its expert, in the order in which the steps are written. */
  lemma {:induction false} StepByStep(ss: Steps, base: nat, exit: int, i: nat)
    requires i < Size(ss)
    ensures ExpertOf(Build(ss, base, exit)[i], Written(ss)[i])
  {
    if i < SizeOf(ss.head) {
      StepFirst(ss.head, base, if ss.tail == Done then exit else base + SizeOf(ss.head), i);
    } else {
      StepByStep(ss.tail, base + SizeOf(ss.head), exit, i - SizeOf(ss.head));
    }
  }

  lemma {:induction false} StepFirst(s: Step, base: nat, next: int, i: nat)
    requires i < SizeOf(s)
    ensures ExpertOf(BuildStep(s, base, next)[i], WrittenStep(s)[i])
  {
    if i > 0 {
      StepInSubs(s.subs, base + 1, base, i - 1);
    }
  }

  lemma {:induction false} StepInSubs(subs: Subs, base: nat, parent: nat, i: nat)
    requires i < SizeAll(subs)
    ensures ExpertOf(BuildSubs(subs, base, parent)[i], WrittenSubs(subs)[i])
  {
    if i < Size(subs.query) {
      StepByStep(subs.query, base, parent, i);
    } else {
      StepInSubs(subs.more, base + Size(subs.query), parent, i - Size(subs.query));
    }
  }

  // ---------- finding the last expert of a level ----------

  /** Place of the last step of a level. */
  function LastOf(ss: Steps, base: nat): (p: nat)
    requires ss != Done
    ensures base <= p < base + Size(ss)
  {
    if ss.tail == Done then base else LastOf(ss.tail, base + SizeOf(ss.head))
  }

  /** Places that lead, branch by branch, to the end of the level: its last
      step, and, when that branches, the same for its last sub-query. */
  ghost predicate Spine(ss: Steps, base: nat, i: int)
    requires ss != Done
  {
    if ss.tail != Done then Spine(ss.tail, base + SizeOf(ss.head), i)
    else SpineStep(ss.head, base, i)
  }

  ghost predicate SpineStep(s: Step, base: nat, i: int) {
    i == base || (s.Branching? && SpineSubs(s.subs, base + 1, i))
  }

  ghost predicate SpineSubs(subs: Subs, base: nat, i: int) {
    match subs
    case NoMore => false
    case Also(q, more) =>
      if more == NoMore then q != Done && Spine(q, base, i) else SpineSubs(more, base + Size(q), i)
  }

  lemma {:induction false} SpineIn(ss: Steps, base: nat, i: int)
    requires ss != Done && Spine(ss, base, i)
    ensures base <= i < base + Size(ss)
  {
    if ss.tail != Done {
      SpineIn(ss.tail, base + SizeOf(ss.head), i);
    } else if i != base {
      SpineSubsIn(ss.head.subs, base + 1, i);
    }
  }

  lemma {:induction false} SpineSubsIn(subs: Subs, base: nat, i: int)
    requires SpineSubs(subs, base, i)
    ensures base <= i < base + SizeAll(subs)
  {
    if subs.more == NoMore {
      SpineIn(subs.query, base, i);
    } else {
      SpineSubsIn(subs.more, base + Size(subs.query), i);
    }
  }

  /** The search starts at the expert appended last. */
  lemma {:induction false} SpineEnd(ss: Steps, base: nat)
    requires ss != Done && Proper(ss)
    ensures Spine(ss, base, base + Size(ss) - 1)
  {
    if ss.tail != Done {
      SpineEnd(ss.tail, base + SizeOf(ss.head));
    } else if ss.head.Branching? && ss.head.subs != NoMore {
      SpineSubsEnd(ss.head.subs, base + 1);
    }
  }

  lemma {:induction false} SpineSubsEnd(subs: Subs, base: nat)
    requires subs != NoMore && ProperSubs(subs)
    ensures SpineSubs(subs, base, base + SizeAll(subs) - 1)
  {
    if subs.more == NoMore {
      SpineEnd(subs.query, base);
    } else {
      SpineSubsEnd(subs.more, base + Size(subs.query));
    }
  }

  /** From a place on the spine the link leads out of the level, exactly from
      its last step, or backwards to another place on the spine. */
  lemma {:induction false} SpineNext(ss: Steps, base: nat, exit: int, i: int)
    requires ss != Done && Spine(ss, base, i) && (exit < base || exit >= base + Size(ss))
    ensures base <= i < base + Size(ss)
    ensures i == LastOf(ss, base) ==> Build(ss, base, exit)[i - base].next == exit
    ensures i != LastOf(ss, base) ==>
      var n := Build(ss, base, exit)[i - base].next;
      n != exit && n < i && Spine(ss, base, n)
  {
    SpineIn(ss, base, i);
    if ss.tail != Done {
      SpineNext(ss.tail, base + SizeOf(ss.head), exit, i);
    } else if i != base {
      SpineSubsNext(ss.head.subs, base + 1, base, i);
      var n := BuildSubs(ss.head.subs, base + 1, base)[i - base - 1].next;
      assert Build(ss, base, exit)[i - base].next == n;
      SpineIn(ss, base, n);
    }
  }

  lemma {:induction false} SpineSubsNext(subs: Subs, base: nat, parent: nat, i: int)
    requires SpineSubs(subs, base, i) && parent < base
    ensures base <= i < base + SizeAll(subs)
    ensures var n := BuildSubs(subs, base, parent)[i - base].next;
            n == parent || (n < i && SpineSubs(subs, base, n))
  {
    SpineSubsIn(subs, base, i);
    if subs.more == NoMore {
      SpineNext(subs.query, base, parent, i);
    } else {
      SpineSubsNext(subs.more, base + Size(subs.query), parent, i);
    }
  }

  /** Redirecting the last step of a level redirects the level. */
  lemma {:induction false} Redirect(ss: Steps, base: nat, exit: int, exit': int)
    requires ss != Done
    ensures var p := LastOf(ss, base) - base;
            Build(ss, base, exit') == Build(ss, base, exit)[p := Build(ss, base, exit)[p].(next := exit')]
  {
    if ss.tail != Done {
      Redirect(ss.tail, base + SizeOf(ss.head), exit, exit');
    }
  }

  // ---------- the parser ----------

  class Parser {
    var experts: seq<Expert>

    constructor ()
      ensures experts == []
    {
      experts := [];
    }

    /** AppendExpert: link to the place right behind. */
    method Append(kind: Kind)
      modifies this
      ensures experts == old(experts) + [Expert(kind, |old(experts)| + 1)]
    {
      experts := experts + [Expert(kind, |experts| + 1)];
    }

    /** Follow the links from the expert appended last to the last step of the
        level that was built behind `pre`. */
    method FindLast(ghost pre: seq<Expert>, ghost ss: Steps) returns (last: nat)
      requires ss != Done && Proper(ss) && experts == pre + Build(ss, |pre|, |pre| + Size(ss))
      ensures last == LastOf(ss, |pre|) && last < |experts|
    {
      ghost var base := |pre|;
      var end := |experts|;
      SpineEnd(ss, base);
      last := end - 1;
      while experts[last].next != end
        invariant last < |experts| && Spine(ss, base, last)
        decreases last
      {
        SpineNext(ss, base, end, last);
        var n := experts[last].next;
        SpineIn(ss, base, n);
        last := n;
      }
      SpineNext(ss, base, end, last);
    }

    /** ParseQuery: the level is laid out with its last step leading to the end of the list. */
    method ParseQuery(ss: Steps)
      requires Proper(ss)
      modifies this
      ensures experts == old(experts) + Build(ss, |old(experts)|, |old(experts)| + Size(ss))
      decreases ss
    {
      match ss
      case Done =>
      case Then(h, t) =>
        ParseStep(h);
        ParseQuery(t);
    }

    method ParseStep(s: Step)
      requires ProperStep(s)
      modifies this
      ensures experts == old(experts) + BuildStep(s, |old(experts)|, |old(experts)| + SizeOf(s))
      decreases s
    {
      match s
      case Single(b) =>
        Append(if b then Barrier else Ordinary);
      case Branching(k, subs) =>
        var current := |experts|;
        Append(k);
        ParseSub(subs, current);
        experts := experts[current := experts[current].(next := |experts|)];
    }

    /** ParseSub: every sub-query is laid out and led back to the branching expert. */
    method ParseSub(subs: Subs, current: nat)
      requires ProperSubs(subs) && current < |experts|
      modifies this
      ensures experts == old(experts) + BuildSubs(subs, |old(experts)|, current)
      decreases subs
    {
      match subs
      case NoMore =>
      case Also(q, more) =>
        ghost var pre := experts;
        ParseQuery(q);
        var last := FindLast(pre, q);
        Redirect(q, |pre|, |experts|, current);
        experts := experts[last := experts[last].(next := current)];
        assert experts == pre + Build(q, |pre|, current);
        ParseSub(more, current);
    }
  }
}
