/** Whole runs of a transaction plan: what is sent, answered and aborted, in which order. */
module PlanRun {
  import opened Options
  import opened Placeholders
  import opened PlanAnswers
  import opened PlanDag
  import opened TrxPlan

  datatype Act = Send(q: nat) | Answer(q: nat) | GiveUp

  /** What may happen after `past`: a query is sent at most once; before an
      abort only when all it waits for was answered, the commit statement only
      when every line was; after an abort only the commit statement. */
  ghost predicate MayFollow(past: seq<Act>, a: Act, deps: Deps, n: nat) {
    match a
    case Send(q) =>
      && q < |deps| && Send(q) !in past
      && if GiveUp in past then q == n
         else (forall p | p in deps[q] :: Answer(p) in past) && (q == n ==> forall l: nat | l < n :: Answer(l) in past)
    case Answer(q) => Send(q) in past && Answer(q) !in past
    case GiveUp => GiveUp !in past && Send(n) !in past
  }

  /** Every step of the run was allowed by what went before. */
  ghost predicate Lawful(trace: seq<Act>, deps: Deps, n: nat)
    decreases |trace|
  {
    trace == [] || (Lawful(Past(trace), deps, n) && MayFollow(Past(trace), trace[|trace| - 1], deps, n))
  }

  ghost function Past(trace: seq<Act>): seq<Act>
    requires trace != []
  {
    trace[..|trace| - 1]
  }

  lemma {:induction false} LawfulNext(trace: seq<Act>, a: Act, deps: Deps, n: nat)
    requires Lawful(trace, deps, n) && MayFollow(trace, a, deps, n)
    ensures Lawful(trace + [a], deps, n)
  {
  }

  /** Every moment of a lawful run. */
  lemma {:induction false} LawfulAt(trace: seq<Act>, deps: Deps, n: nat, i: nat)
    requires Lawful(trace, deps, n) && i < |trace|
    ensures MayFollow(trace[..i], trace[i], deps, n)
    decreases |trace|
  {
    if i < |trace| - 1 {
      LawfulAt(Past(trace), deps, n, i);
      assert Past(trace)[..i] == trace[..i];
    }
  }

  /** The trace tells what the plan knows. */
  ghost predicate Matches(trace: seq<Act>, sent: set<nat>, filled: set<nat>, isAbort: bool) {
    && (forall q: nat :: Send(q) in trace <==> q in sent)
    && (forall q: nat :: Answer(q) in trace <==> q in filled)
    && (GiveUp in trace <==> isAbort)
  }

  lemma {:induction false} MatchesNext(trace: seq<Act>, a: Act, sent: set<nat>, filled: set<nat>, isAbort: bool)
    requires Matches(trace, sent, filled, isAbort)
    ensures Matches(trace + [a], if a.Send? then sent + {a.q} else sent,
                    if a.Answer? then filled + {a.q} else filled, isAbort || a.GiveUp?)
  {
  }

  function Sends(batch: seq<Outgoing>): seq<Act> {
    if batch == [] then [] else Sends(batch[..|batch| - 1]) + [Send(batch[|batch| - 1].query)]
  }

  /** The conditions under which a query may leave. */
  ghost predicate FreeOne(deps: Deps, q: nat, sent: set<nat>, filled: set<nat>, isAbort: bool, n: nat) {
    && q < |deps| && q !in sent
    && if isAbort then q == n else deps[q] <= filled && (q == n ==> forall l: nat | l < n :: l in filled)
  }

  lemma {:induction false} SendLawful(trace: seq<Act>, q: nat, deps: Deps, n: nat, sent: set<nat>, filled: set<nat>, isAbort: bool)
    requires Lawful(trace, deps, n) && Matches(trace, sent, filled, isAbort) && FreeOne(deps, q, sent, filled, isAbort, n)
    ensures Lawful(trace + [Send(q)], deps, n) && Matches(trace + [Send(q)], sent + {q}, filled, isAbort)
  {
  }

  ghost predicate Free(deps: Deps, batch: set<nat>, sent: set<nat>, filled: set<nat>, isAbort: bool, n: nat) {
    forall q | q in batch :: FreeOne(deps, q, sent, filled, isAbort, n)
  }

  lemma {:induction false} SendsSnoc(batch: seq<Outgoing>, o: Outgoing)
    ensures Sends(batch + [o]) == Sends(batch) + [Send(o.query)]
  {
  }

  lemma {:induction false} Assoc(a: seq<Act>, b: seq<Act>, c: seq<Act>)
    ensures a + (b + c) == a + b + c
  {
  }

  /** The queries of a batch below `k`, in order. */
  ghost function SendsOf(batch: set<nat>, k: nat): seq<Act> {
    if k == 0 then [] else SendsOf(batch, k - 1) + if k - 1 in batch then [Send(k - 1)] else []
  }

  lemma {:induction false} SendsAre(plans: seq<Held>, count: map<nat, nat>, k: nat)
    requires k <= |plans| && forall q | q in Releasable(count) && q < k :: plans[q].Some?
    ensures Sends(Batch(plans, count, k)) == SendsOf(Releasable(count), k)
    decreases k
  {
    if k != 0 {
      SendsAre(plans, count, k - 1);
      if k - 1 in Releasable(count) {
        SendsSnoc(Batch(plans, count, k - 1), Outgoing(k - 1, plans[k - 1].value));
      }
    }
  }

  /** A batch of free queries may leave, one after the other. */
  lemma {:induction false} BatchLawful(trace: seq<Act>, batch: set<nat>, k: nat, deps: Deps, n: nat,
                                       sent: set<nat>, filled: set<nat>, isAbort: bool)
    requires Lawful(trace, deps, n) && Matches(trace, sent, filled, isAbort) && Free(deps, batch, sent, filled, isAbort, n)
    ensures Lawful(trace + SendsOf(batch, k), deps, n)
    ensures Matches(trace + SendsOf(batch, k), sent + BelowOnly(batch, k), filled, isAbort)
    decreases k
  {
    if k == 0 {
      assert trace + SendsOf(batch, k) == trace && sent + BelowOnly(batch, k) == sent;
    } else {
      BatchLawful(trace, batch, k - 1, deps, n, sent, filled, isAbort);
      BelowNext(batch, k - 1);
      if k - 1 in batch {
        BatchStep(trace, SendsOf(batch, k - 1), k - 1, deps, n, sent, BelowOnly(batch, k - 1), filled, isAbort);
        assert sent + BelowOnly(batch, k) == sent + BelowOnly(batch, k - 1) + {k - 1};
      } else {
        assert SendsOf(batch, k) == SendsOf(batch, k - 1) && BelowOnly(batch, k) == BelowOnly(batch, k - 1);
      }
    }
  }

  lemma {:induction false} BatchStep(trace: seq<Act>, sends: seq<Act>, q: nat, deps: Deps, n: nat,
                                     sent: set<nat>, gone: set<nat>, filled: set<nat>, isAbort: bool)
    requires Lawful(trace + sends, deps, n) && Matches(trace + sends, sent + gone, filled, isAbort)
    requires FreeOne(deps, q, sent, filled, isAbort, n) && q !in gone
    ensures Lawful(trace + (sends + [Send(q)]), deps, n)
    ensures Matches(trace + (sends + [Send(q)]), sent + gone + {q}, filled, isAbort)
  {
    Assoc(trace, sends, [Send(q)]);
    SendLawful(trace + sends, q, deps, n, sent + gone, filled, isAbort);
  }

  /** What a running plan is about to send may be sent. */
  lemma {:induction false} FreeOk(v: State, n: nat)
    requires RunOk(v, n)
    ensures Free(v.deps, Releasable(v.count), v.sent, v.filled, v.isAbort, n)
    ensures |v.plans| == n + 1 && forall q | q in Releasable(v.count) :: q <= n && v.plans[q].Some?
  {
    SendOk(v, n);
    if !v.isAbort && n in Releasable(v.count) {
      var w := SentState(v);
      Open(w, n);
      CommitLast(w.deps, w.updates, w.count, w.sent, w.filled);
    }
  }

  /** What an unfinished plan is waiting for: after an abort only the commit statement counts. */
  ghost function Awaited(v: State, n: nat): set<nat> {
    if v.isAbort then (v.sent - v.filled) * {n} else v.sent - v.filled
  }

  /** An unfinished plan that waits for nothing has something to send. */
  lemma {:induction false} SomethingToSend(v: State, n: nat)
    requires RunOk(v, n) && !v.isEnd && Awaited(v, n) == {}
    ensures Releasable(v.count) != {}
  {
    Open(v, n);
    if v.isAbort {
      assert n !in v.sent by {
        assert n !in Awaited(v, n);
      }
      assert n in Releasable(v.count);
    } else {
      forall q | q in v.sent ensures q in v.filled {
        assert q !in v.sent - v.filled;
      }
      assert v.sent == v.filled;
      Progress(v.deps, v.count, v.sent, v.filled);
    }
  }

  /** What is in flight after a batch has left; there is always something to
      wait for, and after an abort it is the commit statement. */
  lemma {:induction false} InFlight(v: State, w: State, n: nat)
    requires RunOk(v, n) && RunOk(w, n) && !w.isEnd && Releasable(w.count) == {}
    requires w.filled == v.filled && w.sent == v.sent + Releasable(v.count)
    ensures w.sent - w.filled == v.sent - v.filled + Releasable(v.count)
    ensures w.sent - w.filled != {} && (w.isAbort ==> n in w.sent - w.filled)
  {
    SendOk(v, n);
    Open(v, n);
    assert w.sent - w.filled == v.sent - v.filled + Releasable(v.count);
    if Awaited(w, n) == {} {
      SomethingToSend(w, n);
    }
    var q :| q in Awaited(w, n);
    assert q in w.sent - w.filled;
  }

  /** The plan and the trace of its run so far. */
  ghost predicate Traced(v: State, trace: seq<Act>, n: nat) {
    RunOk(v, n) && Lawful(trace, v.deps, n) && Matches(trace, v.sent, v.filled, v.isAbort)
  }

  lemma {:induction false} TracedSend(v: State, w: State, trace: seq<Act>, n: nat)
    requires Traced(v, trace, n) && RunOk(w, n) && w.deps == v.deps && w.filled == v.filled && w.isAbort == v.isAbort
    requires w.sent == v.sent + Releasable(v.count)
    ensures |v.plans| == n + 1 && forall q | q in Releasable(v.count) :: q <= n && v.plans[q].Some?
    ensures Traced(w, trace + Sends(Batch(v.plans, v.count, n + 1)), n)
  {
    FreeOk(v, n);
    BelowAll(Releasable(v.count), n + 1);
    SendsAre(v.plans, v.count, n + 1);
    BatchLawful(trace, Releasable(v.count), n + 1, v.deps, n, v.sent, v.filled, v.isAbort);
  }

  lemma {:induction false} TracedAnswer(v: State, w: State, trace: seq<Act>, n: nat, q: nat)
    requires Traced(v, trace, n) && RunOk(w, n) && w.deps == v.deps && w.sent == v.sent && w.isAbort == v.isAbort
    requires q in v.sent && q !in v.filled && w.filled == v.filled + {q}
    ensures Traced(w, trace + [Answer(q)], n)
  {
  }

  /** An abort is noted once; later ones change nothing. */
  function GivenUp(trace: seq<Act>, isAbort: bool): seq<Act> {
    if isAbort then trace else trace + [GiveUp]
  }

  lemma {:induction false} TracedGiveUp(v: State, w: State, trace: seq<Act>, n: nat, q: nat)
    requires Traced(v, trace, n) && RunOk(w, n) && w.deps == v.deps && w.sent == v.sent && w.filled == v.filled
    requires w.isAbort && q in v.sent && q !in v.filled && q != n
    ensures Traced(w, GivenUp(trace, v.isAbort), n)
  {
    if !v.isAbort {
      LineOpen(v, n, q);
      assert MayFollow(trace, GiveUp, v.deps, n);
      LawfulNext(trace, GiveUp, v.deps, n);
      MatchesNext(trace, GiveUp, v.sent, v.filled, v.isAbort);
    }
  }

  /** What the experts report back for a query. */
  datatype Report = Normal(q: nat, vec: seq<Value>) | Failed(q: nat, vec: seq<Value>)

  function Queries(batch: seq<Outgoing>): set<nat> {
    set i | 0 <= i < |batch| :: batch[i].query
  }

  lemma {:induction false} QueriesOfBatch(plans: seq<Held>, count: map<nat, nat>, k: nat)
    requires k <= |plans| && forall q | q in Releasable(count) && q < k :: plans[q].Some?
    ensures Queries(Batch(plans, count, k)) == BelowOnly(Releasable(count), k)
    decreases k
  {
    if k != 0 {
      QueriesOfBatch(plans, count, k - 1);
      BelowNext(Releasable(count), k - 1);
      if k - 1 in Releasable(count) {
        QueriesSnoc(Batch(plans, count, k - 1), Outgoing(k - 1, plans[k - 1].value));
      }
    }
  }

  lemma {:induction false} QueriesSnoc(batch: seq<Outgoing>, o: Outgoing)
    ensures Queries(batch + [o]) == Queries(batch) + {o.query}
  {
    var more := batch + [o];
    forall q ensures q in Queries(more) <==> q in Queries(batch) + {o.query} {
      if q in Queries(batch) {
        var i :| 0 <= i < |batch| && batch[i].query == q;
        assert more[i].query == q;
      }
      assert more[|batch|] == o;
    }
  }

  // ---------- the ideal scheduler ----------

  /** A scheduler that only remembers what was sent, answered and given up. */
  datatype Ideal = Ideal(sent: set<nat>, filled: set<nat>, isAbort: bool, trace: seq<Act>, answers: seq<Heard>)

  const AtFirst := Ideal({}, {}, false, [], [])

  /** What leaves next: everything that was not sent and whose dependencies are
      all answered; after an abort the commit statement. */
  ghost function Due(lines: seq<Line>, s: Ideal): set<nat> {
    if s.isAbort then {|lines|} - s.sent
    else set q: nat | q <= |lines| && q !in s.sent && DepsOf(lines, q) <= s.filled
  }

  ghost function Dispatched(lines: seq<Line>, s: Ideal): Ideal {
    s.(sent := s.sent + Due(lines, s), trace := s.trace + SendsOf(Due(lines, s), |lines| + 1))
  }

  /** A report counts when its query is in flight and the plan is not over. */
  ghost predicate Counts(lines: seq<Line>, s: Ideal, r: Report) {
    |lines| !in s.filled && r.q in s.sent - s.filled && (r.Failed? ==> r.q != |lines|)
  }

  ghost predicate Refused(lines: seq<Line>, r: Report) {
    r.Failed? || (Picky(lines, r.q) && |r.vec| != 1)
  }

  ghost function Absorbed(lines: seq<Line>, s: Ideal, r: Report): Ideal {
    if Refused(lines, r) then s.(isAbort := true, trace := GivenUp(s.trace, s.isAbort))
    else s.(filled := s.filled + {r.q}, trace := s.trace + [Answer(r.q)], answers := s.answers + [Heard(r.q, r.vec)])
  }

  ghost function Turned(lines: seq<Line>, s: Ideal, r: Report): Ideal {
    if !Counts(lines, s, r) then s
    else
      var t := Absorbed(lines, s, r);
      if |lines| in t.filled then t else Dispatched(lines, t)
  }

  ghost function Ideally(lines: seq<Line>, reports: seq<Report>): Ideal {
    if reports == [] then Dispatched(lines, AtFirst)
    else Turned(lines, Ideally(lines, reports[..|reports| - 1]), reports[|reports| - 1])
  }

  /** The plan is where the ideal scheduler is. */
  ghost predicate Agrees(v: State, s: Ideal, lines: seq<Line>) {
    && v.sent == s.sent && v.filled == s.filled && v.isAbort == s.isAbort && v.deps == AllDeps(lines)
    && KindsHeld(v.plans, lines) && AllRegistered(v.placeHolder, lines, |lines|)
    && Once(s.answers) && (forall i | 0 <= i < |s.answers| :: s.answers[i].q in s.filled)
    && (!s.isAbort ==> AllAnswered(v.plans, lines, s.answers))
  }

  /** A count of zero means that everything awaited was answered. */
  lemma {:induction false} ReleasableIsDue(v: State, s: Ideal, lines: seq<Line>)
    requires RunOk(v, |lines|) && Agrees(v, s, lines)
    ensures Releasable(v.count) == Due(lines, s)
  {
    var n := |lines|;
    SendOk(v, n);
    Open(v, n);
    if v.isAbort {
      assert Releasable(v.count) == if n in v.sent then {} else {n};
    } else {
      forall q: nat ensures q in Releasable(v.count) <==> q in Due(lines, s) {
        if q <= n && q !in v.sent {
          assert v.deps[q] == DepsOf(lines, q);
          NoneLeft(v.deps[q], v.filled, q);
        }
      }
    }
  }

  lemma {:induction false} KindsRemain(plans: seq<Held>, batch: set<nat>, lines: seq<Line>)
    requires KindsHeld(plans, lines)
    ensures KindsHeld(Remaining(plans, batch), lines)
  {
  }

  lemma {:induction false} AgreesSend(v: State, s: Ideal, lines: seq<Line>)
    requires RunOk(v, |lines|) && Agrees(v, s, lines)
    ensures |v.plans| == |lines| + 1 && forall q | q in Releasable(v.count) :: q <= |lines| && v.plans[q].Some?
    ensures Agrees(SentState(v), Dispatched(lines, s), lines)
    ensures s.trace + Sends(Batch(v.plans, v.count, |lines| + 1)) == Dispatched(lines, s).trace
  {
    FreeOk(v, |lines|);
    ReleasableIsDue(v, s, lines);
    SendsAre(v.plans, v.count, |lines| + 1);
    KindsRemain(v.plans, Releasable(v.count), lines);
  }

  /** The plan refuses what the ideal scheduler refuses. */
  lemma {:induction false} RefusesPicky(v: State, s: Ideal, lines: seq<Line>, q: nat, vec: seq<Value>)
    requires Agrees(v, s, lines) && AllHeld(v.plans, Positions(v.placeHolder, q)) && InLines(Positions(v.placeHolder, q), |lines|)
    ensures Refuses(v.plans, Positions(v.placeHolder, q), vec) <==> Picky(lines, q) && |vec| != 1
  {
    RefusedExactly(v.plans, Positions(v.placeHolder, q), vec, lines);
    assert Positions(v.placeHolder, q) == PlacesFor(lines, |lines|, q);
  }

  lemma {:induction false} AgreesAnswer(v: State, w: State, s: Ideal, lines: seq<Line>, r: Report)
    requires Agrees(v, s, lines) && !Refused(lines, r) && r.q !in s.filled && KindsHeld(w.plans, lines)
    requires w.sent == v.sent && w.filled == v.filled + {r.q} && w.isAbort == v.isAbort && w.deps == v.deps && w.placeHolder == v.placeHolder
    requires Filled(v.plans, w.plans, Positions(v.placeHolder, r.q), r.vec)
    ensures Agrees(w, Absorbed(lines, s, r), lines)
  {
    if !s.isAbort {
      assert Positions(v.placeHolder, r.q) == PlacesFor(lines, |lines|, r.q);
      AnsweredNext(v.plans, w.plans, lines, s.answers, Heard(r.q, r.vec));
    }
  }

  // ---------- what has left ----------

  ghost function OnlySends(trace: seq<Act>): seq<Act> {
    if trace == [] then []
    else if trace[|trace| - 1].Send? then OnlySends(Past(trace)) + [trace[|trace| - 1]]
    else OnlySends(Past(trace))
  }

  lemma {:induction false} OnlySendsNext(trace: seq<Act>, a: Act)
    ensures OnlySends(trace + [a]) == if a.Send? then OnlySends(trace) + [a] else OnlySends(trace)
  {
    assert Past(trace + [a]) == trace;
  }

  lemma {:induction false} OnlySendsBatch(trace: seq<Act>, batch: seq<Outgoing>)
    ensures OnlySends(trace + Sends(batch)) == OnlySends(trace) + Sends(batch)
    decreases |batch|
  {
    if batch == [] {
      assert trace + Sends(batch) == trace;
    } else {
      var init, last := batch[..|batch| - 1], Send(batch[|batch| - 1].query);
      OnlySendsBatch(trace, init);
      Assoc(trace, Sends(init), [last]);
      OnlySendsNext(trace + Sends(init), last);
    }
  }

  lemma {:induction false} SendsConcat(a: seq<Outgoing>, b: seq<Outgoing>)
    ensures Sends(a + b) == Sends(a) + Sends(b)
    decreases |b|
  {
    if b == [] {
      assert a + b == a;
    } else {
      SendsConcat(a, b[..|b| - 1]);
      assert (a + b)[..|a + b| - 1] == a + b[..|b| - 1];
    }
  }

  /** A query as it left: a line with the answers to all the lines it refers
      to, the commit statement whole, or after an abort without its validation. */
  ghost predicate Delivery(o: Outgoing, lines: seq<Line>, s: Ideal) {
    && o.query in s.sent
    && if o.query < |lines| then Answered(lines[o.query], o.experts, s.answers) && RefersTo(lines[o.query], s.filled)
       else o.query == |lines| && o.experts == if s.isAbort then [Expert(Terminate, [])] else CommitStatement
  }

  /** All that left, in the order of the trace. */
  ghost predicate Delivered(outs: seq<Outgoing>, lines: seq<Line>, s: Ideal) {
    Sends(outs) == OnlySends(s.trace) && forall i | 0 <= i < |outs| :: Delivery(outs[i], lines, s)
  }

  lemma {:induction false} DeliveredAbsorbed(outs: seq<Outgoing>, lines: seq<Line>, s: Ideal, r: Report)
    requires Delivered(outs, lines, s) && r.q !in s.filled && (Refused(lines, r) && !s.isAbort ==> |lines| !in s.sent)
    ensures Delivered(outs, lines, Absorbed(lines, s, r))
  {
    var t := Absorbed(lines, s, r);
    OnlySendsNext(s.trace, GiveUp);
    OnlySendsNext(s.trace, Answer(r.q));
    forall i | 0 <= i < |outs| ensures Delivery(outs[i], lines, t) {
      assert Delivery(outs[i], lines, s);
      if outs[i].query < |lines| && !Refused(lines, r) {
        AnsweredFully(lines[outs[i].query], outs[i].experts, s.answers, s.filled, Heard(r.q, r.vec));
      }
    }
  }

  lemma {:induction false} SourceIn(line: Line, k: nat, i: nat)
    requires i < k <= |line.refs|
    ensures line.refs[i].src in Sources(line, k)
  {
    if i < k - 1 {
      SourceIn(line, k - 1, i);
    }
  }

  /** What is about to leave has all the answers it refers to. */
  lemma {:induction false} DueDelivery(v: State, s: Ideal, lines: seq<Line>, q: nat)
    requires RunOk(v, |lines|) && Agrees(v, s, lines) && q in Releasable(v.count)
    ensures q < |v.plans| && v.plans[q].Some?
    ensures Delivery(Outgoing(q, v.plans[q].value), lines, Dispatched(lines, s))
  {
    SendOk(v, |lines|);
    ReleasableIsDue(v, s, lines);
    if q == |lines| {
      Open(v, |lines|);
    } else if !s.isAbort {
      forall i | 0 <= i < |lines[q].refs| ensures lines[q].refs[i].src in s.filled {
        SourceIn(lines[q], |lines[q].refs|, i);
      }
    }
  }

  lemma {:induction false} BatchDelivery(v: State, s: Ideal, lines: seq<Line>, k: nat, i: nat)
    requires RunOk(v, |lines|) && Agrees(v, s, lines) && k <= |v.plans| && forall q | q in Releasable(v.count) && q < k :: v.plans[q].Some?
    requires i < |Batch(v.plans, v.count, k)|
    ensures Delivery(Batch(v.plans, v.count, k)[i], lines, Dispatched(lines, s))
    decreases k
  {
    if k - 1 in Releasable(v.count) && i == |Batch(v.plans, v.count, k)| - 1 {
      DueDelivery(v, s, lines, k - 1);
    } else {
      BatchDelivery(v, s, lines, k - 1, i);
    }
  }

  lemma {:induction false} DeliveredSend(outs: seq<Outgoing>, batch: seq<Outgoing>, lines: seq<Line>, s: Ideal)
    requires Delivered(outs, lines, s) && s.trace + Sends(batch) == Dispatched(lines, s).trace
    requires forall i | 0 <= i < |batch| :: Delivery(batch[i], lines, Dispatched(lines, s))
    ensures Delivered(outs + batch, lines, Dispatched(lines, s))
  {
    SendsConcat(outs, batch);
    OnlySendsBatch(s.trace, batch);
    forall i | 0 <= i < |outs| ensures Delivery(outs[i], lines, Dispatched(lines, s)) {
      assert Delivery(outs[i], lines, s);
    }
  }

  // ---------- the run ----------

  /** Send what may be sent and note it. */
  method Dispatch(p: Plan, lines: seq<Line>, trace: seq<Act>, inFlight: set<nat>, outs: seq<Outgoing>, ghost s: Ideal)
    returns (trace': seq<Act>, inFlight': set<nat>, outs': seq<Outgoing>)
    requires Traced(p.View(), trace, |lines|) && inFlight == p.sent - p.filled && !p.isEnd
    requires Agrees(p.View(), s, lines) && trace == s.trace && Delivered(outs, lines, s)
    modifies p`plans, p`depsCount, p`sent
    ensures Traced(p.View(), trace', |lines|) && inFlight' == p.sent - p.filled
    ensures Agrees(p.View(), Dispatched(lines, s), lines) && trace' == Dispatched(lines, s).trace
    ensures Delivered(outs', lines, Dispatched(lines, s))
    ensures inFlight' != {} && (p.isAbort ==> |lines| in inFlight')
  {
    var n := |lines|;
    ghost var v := p.View();
    var more, batch := p.NextQueries(n);
    TracedSend(v, p.View(), trace, n);
    AgreesSend(v, s, lines);
    BelowAll(Releasable(v.count), n + 1);
    QueriesOfBatch(v.plans, v.count, n + 1);
    InFlight(v, p.View(), n);
    forall i | 0 <= i < |batch| ensures Delivery(batch[i], lines, Dispatched(lines, s)) {
      BatchDelivery(v, s, lines, n + 1, i);
    }
    DeliveredSend(outs, batch, lines, s);
    trace', inFlight', outs' := trace + Sends(batch), inFlight + Queries(batch), outs + batch;
  }

  /** A failed reply. */
  method AbsorbFailure(p: Plan, lines: seq<Line>, r: Report, trace: seq<Act>, ghost s: Ideal) returns (trace': seq<Act>)
    requires Traced(p.View(), trace, |lines|) && r.Failed? && r.q in p.sent - p.filled && r.q != |lines|
    requires Agrees(p.View(), s, lines) && trace == s.trace
    modifies p`isAbort, p`depsCount, p`plans, p`isEnd, p`filled, p`results
    ensures Traced(p.View(), trace', |lines|) && (!s.isAbort ==> |lines| !in s.sent)
    ensures Agrees(p.View(), Absorbed(lines, s, r), lines) && trace' == Absorbed(lines, s, r).trace
  {
    ghost var v := p.View();
    LineOpen(v, |lines|, r.q);
    trace' := GivenUp(trace, p.isAbort);
    p.ReplyAbort(|lines|, r.q, r.vec);
    TracedGiveUp(v, p.View(), trace, |lines|, r.q);
    KindsStay(v.plans, p.plans, lines);
  }

  /** A normal reply: fill, and abort if an addE expert cannot take it. */
  method AbsorbAnswer(p: Plan, lines: seq<Line>, r: Report, trace: seq<Act>, ghost s: Ideal) returns (trace': seq<Act>, ok: bool)
    requires Traced(p.View(), trace, |lines|) && r.Normal? && r.q in p.sent - p.filled
    requires Agrees(p.View(), s, lines) && trace == s.trace
    modifies p`isAbort, p`depsCount, p`plans, p`isEnd, p`filled, p`results
    ensures Traced(p.View(), trace', |lines|) && p.filled == if ok then old(p.filled) + {r.q} else old(p.filled)
    ensures Agrees(p.View(), Absorbed(lines, s, r), lines) && trace' == Absorbed(lines, s, r).trace
    ensures Refused(lines, r) && !s.isAbort ==> |lines| !in s.sent
  {
    ghost var v := p.View();
    trace' := GivenUp(trace, p.isAbort);
    ok := p.FillResult(|lines|, r.q, r.vec);
    KindsStay(v.plans, p.plans, lines);
    RefusesPicky(v, s, lines, r.q, r.vec);
    if ok {
      TracedAnswer(v, p.View(), trace, |lines|, r.q);
      AgreesAnswer(v, p.View(), s, lines, r);
      trace' := trace + [Answer(r.q)];
    } else {
      LineOpen(v, |lines|, r.q);
      TracedGiveUp(v, p.View(), trace, |lines|, r.q);
    }
  }

  /** A reply of either kind. */
  method Absorb(p: Plan, lines: seq<Line>, r: Report, trace: seq<Act>, inFlight: set<nat>, ghost outs: seq<Outgoing>, ghost s: Ideal)
    returns (trace': seq<Act>, inFlight': set<nat>)
    requires Traced(p.View(), trace, |lines|) && inFlight == p.sent - p.filled && r.q in inFlight && (r.Failed? ==> r.q != |lines|)
    requires Agrees(p.View(), s, lines) && trace == s.trace && Delivered(outs, lines, s)
    modifies p`isAbort, p`depsCount, p`plans, p`isEnd, p`filled, p`results
    ensures Traced(p.View(), trace', |lines|) && inFlight' == p.sent - p.filled
    ensures Agrees(p.View(), Absorbed(lines, s, r), lines) && trace' == Absorbed(lines, s, r).trace
    ensures Delivered(outs, lines, Absorbed(lines, s, r))
  {
    inFlight' := inFlight;
    if r.Failed? {
      trace' := AbsorbFailure(p, lines, r, trace, s);
    } else {
      var ok;
      trace', ok := AbsorbAnswer(p, lines, r, trace, s);
      inFlight' := if ok then inFlight - {r.q} else inFlight;
    }
    DeliveredAbsorbed(outs, lines, s, r);
  }

  /** A reply of the worker loop, and what leaves because of it. */
  method Turn(p: Plan, lines: seq<Line>, r: Report, trace: seq<Act>, inFlight: set<nat>, outs: seq<Outgoing>, ghost s: Ideal)
    returns (trace': seq<Act>, inFlight': set<nat>, outs': seq<Outgoing>)
    requires Traced(p.View(), trace, |lines|) && inFlight == p.sent - p.filled && Underway(p.View(), |lines|)
    requires Agrees(p.View(), s, lines) && trace == s.trace && Delivered(outs, lines, s)
    modifies p`isAbort, p`depsCount, p`plans, p`isEnd, p`filled, p`results, p`sent
    ensures Traced(p.View(), trace', |lines|) && inFlight' == p.sent - p.filled && Underway(p.View(), |lines|)
    ensures Agrees(p.View(), Turned(lines, s, r), lines) && trace' == Turned(lines, s, r).trace
    ensures Delivered(outs', lines, Turned(lines, s, r))
  {
    trace', inFlight', outs' := trace, inFlight, outs;
    EndFilled(p.View(), |lines|);
    if !p.isEnd && r.q in inFlight && (r.Failed? ==> r.q != |lines|) {
      trace', inFlight' := Absorb(p, lines, r, trace, inFlight, outs, s);
      EndFilled(p.View(), |lines|);
      if !p.isEnd {
        trace', inFlight', outs' := Dispatch(p, lines, trace', inFlight', outs, Absorbed(lines, s, r));
      }
    }
  }

  /** The plan is over or waits for something, after an abort for the commit statement. */
  ghost predicate Underway(v: State, n: nat) {
    v.isEnd || (v.sent - v.filled != {} && (v.isAbort ==> n in v.sent - v.filled))
  }

  lemma {:induction false} EndFilled(v: State, n: nat)
    requires RunOk(v, n)
    ensures v.isEnd <==> n in v.filled
  {
    Open(v, n);
  }

  lemma {:induction false} StartTraced(v: State, n: nat)
    requires RunOk(v, n) && v.sent == {} && v.filled == {} && !v.isAbort
    ensures Traced(v, [], n)
  {
  }

  /** Parse a transaction and prepare to run it. */
  method Start(lines: seq<Line>) returns (p: Plan, ok: bool)
    requires forall q | 0 <= q < |lines| :: LineOk(lines[q])
    ensures fresh(p) && (ok <==> Plan.Resolved(lines))
    ensures ok ==> Backward(p.deps) && !p.isEnd
    ensures ok ==> Traced(p.View(), [], |lines|) && Agrees(p.View(), AtFirst, lines)
    ensures ok ==> forall q, i | 0 <= q < |lines| && 0 <= i < |lines[q].refs| :: lines[q].refs[i].src in p.deps[q]
  {
    p := new Plan();
    ok := p.Parse(lines);
    if ok {
      p.updates := Updates(lines);
      DepsOrdered(lines);
      p.Ready(|lines|);
      StartTraced(p.View(), |lines|);
      forall q, i | 0 <= q < |lines| && 0 <= i < |lines[q].refs| ensures lines[q].refs[i].src in p.deps[q] {
        RefsAwaited(p.placeHolder, p.deps, p.plans, lines, q, i);
      }
    }
  }

  /** A whole run of a transaction: parse it, then send and take reports until
      the commit statement is answered; reports for queries not in flight and
      abort reports for the commit statement do not occur and are skipped.
      The run is the ideal scheduler's, it is lawful, and it is over or
      something is in flight, after an abort the commit statement.  Every line
      left with the answers to all the lines it refers to. */
  method Run(lines: seq<Line>, reports: seq<Report>) returns (ok: bool, trace: seq<Act>, inFlight: set<nat>, outs: seq<Outgoing>)
    requires forall q | 0 <= q < |lines| :: LineOk(lines[q])
    ensures ok <==> Plan.Resolved(lines)
    ensures ok ==> trace == Ideally(lines, reports).trace && Lawful(trace, AllDeps(lines), |lines|)
    ensures ok ==> Backward(AllDeps(lines)) && Ordered(AllDeps(lines), Updates(lines))
    ensures ok ==> Answer(|lines|) in trace || inFlight != {}
    ensures ok && GiveUp in trace ==> Answer(|lines|) in trace || |lines| in inFlight
    ensures ok ==> forall q: nat :: q in inFlight <==> Send(q) in trace && Answer(q) !in trace
    ensures ok ==> Delivered(outs, lines, Ideally(lines, reports)) && Once(Ideally(lines, reports).answers)
  {
    var p;
    p, ok := Start(lines);
    trace, inFlight, outs := [], {}, [];
    if !ok {
      return;
    }
    trace, inFlight, outs := Dispatch(p, lines, trace, inFlight, outs, AtFirst);
    for i := 0 to |reports|
      invariant Traced(p.View(), trace, |lines|) && inFlight == p.sent - p.filled && Underway(p.View(), |lines|)
      invariant Agrees(p.View(), Ideally(lines, reports[..i]), lines) && trace == Ideally(lines, reports[..i]).trace
      invariant Delivered(outs, lines, Ideally(lines, reports[..i]))
    {
      assert reports[..i + 1][..i] == reports[..i];
      trace, inFlight, outs := Turn(p, lines, reports[i], trace, inFlight, outs, Ideally(lines, reports[..i]));
    }
    assert reports[..|reports|] == reports;
    DepsOrdered(lines);
    EndFilled(p.View(), |lines|);
  }
}
