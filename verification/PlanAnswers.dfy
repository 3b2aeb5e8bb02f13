/** The answers a line is to carry: what is written into it when the lines it
    refers to are answered, in whatever order. */
module PlanAnswers {
  import opened Options
  import opened Placeholders
  import opened TrxPlan

  /** A query and the answer that was accepted for it. */
  datatype Heard = Heard(q: nat, vec: seq<Value>)

  ghost function RefWrite(r: Ref, vec: seq<Value>): Write {
    Write(r.expert, r.param, vec)
  }

  /** The writes that the answer to query `p` causes through the first `k` references of a line. */
  ghost function WritesOf(line: Line, p: nat, vec: seq<Value>, k: nat): seq<Write>
    requires k <= |line.refs|
  {
    if k == 0 then []
    else if line.refs[k - 1].src == p then WritesOf(line, p, vec, k - 1) + [RefWrite(line.refs[k - 1], vec)]
    else WritesOf(line, p, vec, k - 1)
  }

  /** All writes into a line, in the order of the answers. */
  ghost function Gathered(line: Line, answers: seq<Heard>): seq<Write> {
    if answers == [] then []
    else
      var h := answers[|answers| - 1];
      Gathered(line, answers[..|answers| - 1]) + WritesOf(line, h.q, h.vec, |line.refs|)
  }

  lemma {:induction false} GatheredNext(line: Line, answers: seq<Heard>, h: Heard)
    ensures Gathered(line, answers + [h]) == Gathered(line, answers) + WritesOf(line, h.q, h.vec, |line.refs|)
  {
    assert (answers + [h])[..|answers|] == answers;
  }

  /** The line refers to nothing else than these queries. */
  ghost predicate RefersTo(line: Line, qs: set<nat>) {
    forall i | 0 <= i < |line.refs| :: line.refs[i].src in qs
  }

  lemma {:induction false} NoWrites(line: Line, p: nat, vec: seq<Value>, k: nat)
    requires k <= |line.refs| && forall i | 0 <= i < k :: line.refs[i].src != p
    ensures WritesOf(line, p, vec, k) == []
  {
    if k != 0 {
      NoWrites(line, p, vec, k - 1);
    }
  }

  // ---------- the recorded positions are those references ----------

  lemma {:induction false} WritesToConcat(a: seq<Pos>, b: seq<Pos>, q: nat, vec: seq<Value>)
    ensures WritesTo(a + b, q, vec) == WritesTo(a, q, vec) + WritesTo(b, q, vec)
    decreases |b|
  {
    if b == [] {
      assert a + b == a;
    } else {
      WritesToConcat(a, b[..|b| - 1], q, vec);
      assert (a + b)[..|a + b| - 1] == a + b[..|b| - 1];
    }
  }

  lemma {:induction false} WritesToOne(pos: Pos, q: nat, vec: seq<Value>)
    ensures WritesTo([pos], q, vec) == if pos.query == q then [Write(pos.expert, pos.param, vec)] else []
  {
    assert [pos][..0] == [];
  }

  lemma {:induction false} WritesIn(line: Line, l: nat, k: nat, p: nat, q: nat, vec: seq<Value>)
    requires k <= |line.refs|
    ensures WritesTo(PlacesIn(line, l, k, p), q, vec) == if l == q then WritesOf(line, p, vec, k) else []
    decreases k
  {
    if k != 0 {
      WritesIn(line, l, k - 1, p, q, vec);
      if line.refs[k - 1].src == p {
        WritesToConcat(PlacesIn(line, l, k - 1, p), [Place(l, line.refs[k - 1])], q, vec);
        WritesToOne(Place(l, line.refs[k - 1]), q, vec);
      } else {
        assert PlacesIn(line, l, k, p) == PlacesIn(line, l, k - 1, p);
      }
    }
  }

  /** What an answer writes into line `q`. */
  lemma {:induction false} WritesFor(lines: seq<Line>, k: nat, p: nat, q: nat, vec: seq<Value>)
    requires q < |lines| && k <= |lines|
    ensures WritesTo(PlacesFor(lines, k, p), q, vec) == if q < k then WritesOf(lines[q], p, vec, |lines[q].refs|) else []
    decreases k
  {
    if k != 0 {
      WritesFor(lines, k - 1, p, q, vec);
      WritesForNext(lines, k - 1, p, q, vec);
    }
  }

  lemma {:induction false} WritesForNext(lines: seq<Line>, k: nat, p: nat, q: nat, vec: seq<Value>)
    requires q < |lines| && k < |lines|
    ensures WritesTo(PlacesFor(lines, k + 1, p), q, vec) ==
            WritesTo(PlacesFor(lines, k, p), q, vec) + if k == q then WritesOf(lines[q], p, vec, |lines[q].refs|) else []
  {
    WritesToConcat(PlacesFor(lines, k, p), PlacesIn(lines[k], k, |lines[k].refs|, p), q, vec);
    WritesIn(lines[k], k, |lines[k].refs|, p, q, vec);
  }

  lemma {:induction false} CarriesMore(a: seq<Expert>, b: seq<Expert>, c: seq<Expert>, ws: seq<Write>, more: seq<Write>)
    requires Carries(a, b, ws) && Carries(b, c, more)
    ensures Carries(a, c, ws + more)
    decreases |more|
  {
    if more == [] {
      assert ws + more == ws;
    } else {
      var mid :| Carries(b, mid, Front(more)) && Wrote(mid, c, more[|more| - 1]);
      CarriesMore(a, b, mid, ws, Front(more));
      assert Front(ws + more) == ws + Front(more);
    }
  }

  // ---------- lines that are held and lines that have left ----------

  /** A line, held or sent, is the written one with the answers given so far. */
  ghost predicate Answered(line: Line, experts: seq<Expert>, answers: seq<Heard>) {
    Carries(line.experts, experts, Gathered(line, answers))
  }

  ghost predicate AllAnswered(plans: seq<Held>, lines: seq<Line>, answers: seq<Heard>) {
    |plans| == |lines| + 1 && forall l: nat | l < |lines| && plans[l].Some? :: Answered(lines[l], plans[l].value, answers)
  }

  /** Writing an answer at its positions gives it to every line that refers to it. */
  lemma {:induction false} AnsweredNext(plans: seq<Held>, plans': seq<Held>, lines: seq<Line>, answers: seq<Heard>, h: Heard)
    requires AllAnswered(plans, lines, answers) && Filled(plans, plans', PlacesFor(lines, |lines|, h.q), h.vec)
    ensures AllAnswered(plans', lines, answers + [h])
  {
    forall l: nat | l < |lines| && plans'[l].Some? ensures Answered(lines[l], plans'[l].value, answers + [h]) {
      GatheredNext(lines[l], answers, h);
      WritesFor(lines, |lines|, h.q, l, h.vec);
      assert Answered(lines[l], plans[l].value, answers);
      CarriesMore(lines[l].experts, plans[l].value, plans'[l].value, Gathered(lines[l], answers),
                  WritesOf(lines[l], h.q, h.vec, |lines[l].refs|));
    }
  }

  /** A line whose references are all answered is not changed by further answers. */
  lemma {:induction false} AnsweredFully(line: Line, experts: seq<Expert>, answers: seq<Heard>, qs: set<nat>, h: Heard)
    requires Answered(line, experts, answers) && RefersTo(line, qs) && h.q !in qs
    ensures Answered(line, experts, answers + [h])
  {
    GatheredNext(line, answers, h);
    NoWrites(line, h.q, h.vec, |line.refs|);
    assert Gathered(line, answers) + [] == Gathered(line, answers);
  }

  // ---------- what a line carries for a reference ----------

  /** Every query is answered at most once. */
  ghost predicate Once(answers: seq<Heard>) {
    forall i, j | 0 <= i < j < |answers| :: answers[i].q != answers[j].q
  }

  /** No other reference of the line goes to this place. */
  ghost predicate Sole(line: Line, i: nat, at: Spot)
    requires i < |line.refs|
  {
    && Hits(RefWrite(line.refs[i], []), at)
    && forall j | 0 <= j < |line.refs| && j != i :: !Hits(RefWrite(line.refs[j], []), at)
  }

  lemma {:induction false} AmongConcat(a: seq<Write>, b: seq<Write>, at: Spot)
    ensures Among(a + b, at) == Among(a, at) + Among(b, at)
    decreases |b|
  {
    if b == [] {
      assert a + b == a;
    } else {
      AmongConcat(a, Front(b), at);
      assert Front(a + b) == a + Front(b);
    }
  }

  lemma {:induction false} AmongNext(ws: seq<Write>, w: Write, at: Spot)
    ensures Among(ws + [w], at) == if Hits(w, at) then Among(ws, at) + [w] else Among(ws, at)
  {
    assert Front(ws + [w]) == ws;
  }

  lemma {:induction false} OneAnswer(line: Line, i: nat, at: Spot, p: nat, vec: seq<Value>, k: nat)
    requires i < |line.refs| && k <= |line.refs| && Sole(line, i, at)
    ensures Among(WritesOf(line, p, vec, k), at) == if line.refs[i].src == p && i < k then [RefWrite(line.refs[i], vec)] else []
    decreases k
  {
    if k != 0 {
      OneAnswer(line, i, at, p, vec, k - 1);
      AmongNext(WritesOf(line, p, vec, k - 1), RefWrite(line.refs[k - 1], vec), at);
    }
  }

  lemma {:induction false} AmongLast(line: Line, answers: seq<Heard>, at: Spot)
    requires answers != []
    ensures var init, h := answers[..|answers| - 1], answers[|answers| - 1];
            Among(Gathered(line, answers), at) == Among(Gathered(line, init), at) + Among(WritesOf(line, h.q, h.vec, |line.refs|), at)
  {
    var init, h := answers[..|answers| - 1], answers[|answers| - 1];
    AmongConcat(Gathered(line, init), WritesOf(line, h.q, h.vec, |line.refs|), at);
  }

  lemma {:induction false} NoAnswer(line: Line, i: nat, at: Spot, answers: seq<Heard>)
    requires i < |line.refs| && Sole(line, i, at) && forall m | 0 <= m < |answers| :: answers[m].q != line.refs[i].src
    ensures Among(Gathered(line, answers), at) == []
    decreases |answers|
  {
    if answers != [] {
      var init, h := answers[..|answers| - 1], answers[|answers| - 1];
      AmongLast(line, answers, at);
      OneAnswer(line, i, at, h.q, h.vec, |line.refs|);
      NoAnswer(line, i, at, init);
    }
  }

  /** Of all answers only the one to its own query is written for a reference. */
  lemma {:induction false} OwnAnswer(line: Line, i: nat, at: Spot, answers: seq<Heard>, m: nat)
    requires i < |line.refs| && Sole(line, i, at) && Once(answers) && m < |answers| && answers[m].q == line.refs[i].src
    ensures Among(Gathered(line, answers), at) == [RefWrite(line.refs[i], answers[m].vec)]
    decreases |answers|
  {
    var init, h := answers[..|answers| - 1], answers[|answers| - 1];
    AmongLast(line, answers, at);
    OneAnswer(line, i, at, h.q, h.vec, |line.refs|);
    if m < |answers| - 1 {
      OwnAnswer(line, i, at, init, m);
    } else {
      NoAnswer(line, i, at, init);
    }
  }

  /** An init expert that one reference names has the answer to it between its
      parameters, where the reference says. */
  lemma {:induction false} InitCarries(line: Line, experts: seq<Expert>, answers: seq<Heard>, i: nat, m: nat)
    requires LineOk(line) && Answered(line, experts, answers) && Once(answers)
    requires i < |line.refs| && m < |answers| && answers[m].q == line.refs[i].src
    requires line.experts[line.refs[i].expert].kind == Init && Sole(line, i, Spot(line.refs[i].expert, None))
    ensures |experts| == |line.experts|
    ensures var r := line.refs[i]; var was, now := line.experts[r.expert].params, experts[r.expert].params;
            Spliced(was, now, if r.param == -1 then |was| else r.param, answers[m].vec)
  {
    var r := line.refs[i];
    OwnAnswer(line, i, Spot(r.expert, None), answers, m);
    TookOne(line.experts, experts, Gathered(line, answers), r.expert, RefWrite(r, answers[m].vec));
  }

  /** A parameter of an addE expert that one reference names is the answer to it. */
  lemma {:induction false} AddECarries(line: Line, experts: seq<Expert>, answers: seq<Heard>, i: nat, m: nat)
    requires LineOk(line) && Answered(line, experts, answers) && Once(answers)
    requires i < |line.refs| && m < |answers| && answers[m].q == line.refs[i].src
    requires line.experts[line.refs[i].expert].kind == AddE && Sole(line, i, Spot(line.refs[i].expert, Some(line.refs[i].param)))
    ensures |experts| == |line.experts|
    ensures var r := line.refs[i]; var was, now := line.experts[r.expert].params, experts[r.expert].params;
            |now| == |was| && answers[m].vec == [now[r.param]]
  {
    var r := line.refs[i];
    OwnAnswer(line, i, Spot(r.expert, Some(r.param)), answers, m);
    AddEHolds(line.experts, experts, Gathered(line, answers), r.expert, r.param);
  }

  /** No reference of the line goes to this place. */
  ghost predicate Unnamed(line: Line, at: Spot) {
    forall i | 0 <= i < |line.refs| :: !Hits(RefWrite(line.refs[i], []), at)
  }

  lemma {:induction false} NotReferred(line: Line, at: Spot, p: nat, vec: seq<Value>, k: nat)
    requires k <= |line.refs| && Unnamed(line, at)
    ensures Among(WritesOf(line, p, vec, k), at) == []
    decreases k
  {
    if k != 0 {
      NotReferred(line, at, p, vec, k - 1);
      AmongNext(WritesOf(line, p, vec, k - 1), RefWrite(line.refs[k - 1], vec), at);
    }
  }

  lemma {:induction false} NothingGathered(line: Line, at: Spot, answers: seq<Heard>)
    requires Unnamed(line, at)
    ensures Among(Gathered(line, answers), at) == []
    decreases |answers|
  {
    if answers != [] {
      var init, h := answers[..|answers| - 1], answers[|answers| - 1];
      AmongLast(line, answers, at);
      NotReferred(line, at, h.q, h.vec, |line.refs|);
      NothingGathered(line, at, init);
    }
  }

  /** An expert that no reference names is as it was written, and so is a
      parameter of an addE expert that none names. */
  lemma {:induction false} OthersAsWritten(line: Line, experts: seq<Expert>, answers: seq<Heard>, e: nat)
    requires Answered(line, experts, answers) && e < |line.experts|
    ensures |experts| == |line.experts|
    ensures Unnamed(line, Spot(e, None)) ==> experts[e] == line.experts[e]
    ensures line.experts[e].kind == AddE ==>
      && |experts[e].params| == |line.experts[e].params|
      && forall j: nat | j < |experts[e].params| && Unnamed(line, Spot(e, Some(j))) :: experts[e].params[j] == line.experts[e].params[j]
  {
    CarriesKinds(line.experts, experts, Gathered(line, answers));
    if Unnamed(line, Spot(e, None)) {
      NothingGathered(line, Spot(e, None), answers);
      Untouched(line.experts, experts, Gathered(line, answers), e);
    }
    if line.experts[e].kind == AddE {
      AddEHolds(line.experts, experts, Gathered(line, answers), e, 0);
      forall j: nat | j < |line.experts[e].params|
        ensures Unnamed(line, Spot(e, Some(j))) ==> experts[e].params[j] == line.experts[e].params[j]
      {
        AddEHolds(line.experts, experts, Gathered(line, answers), e, j);
        if Unnamed(line, Spot(e, Some(j))) {
          NothingGathered(line, Spot(e, Some(j)), answers);
        }
      }
    }
  }
}
