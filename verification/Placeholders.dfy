/** Placeholders of a query and the answers written into them. */
module Placeholders {
  import opened Options

  type Value = int

  datatype Kind = Init | AddE | Validation | PostValidation | Terminate | Other

  datatype Expert = Expert(kind: Kind, params: seq<Value>)

  /** A query not yet sent; sending moves the experts out. */
  type Held = Option<seq<Expert>>

  /** Where an answer is to be written; -1 stands for the end of the parameters. */
  datatype Pos = Pos(query: nat, expert: nat, param: int)

  /** One parsed line: whether it updates, its experts, and the earlier lines whose answers it uses. */
  datatype Ref = Ref(src: nat, expert: nat, param: int)
  datatype Line = Line(update: bool, experts: seq<Expert>, refs: seq<Ref>)

  ghost predicate LineOk(line: Line) {
    forall i | 0 <= i < |line.refs| ::
      line.refs[i].expert < |line.experts| && Addressable(line.experts[line.refs[i].expert], line.refs[i].param)
  }

  /** The position exists in an expert: init experts take values between their
      parameters, addE experts have a parameter to overwrite. */
  ghost predicate Addressable(e: Expert, param: int) {
    match e.kind
    case Init => -1 <= param <= |e.params|
    case AddE => 0 <= param < |e.params|
    case _ => true
  }

  ghost predicate PosOk(plans: seq<Held>, pos: Pos) {
    && pos.query < |plans|
    && (plans[pos.query].Some? ==>
          pos.expert < |plans[pos.query].value| && Addressable(plans[pos.query].value[pos.expert], pos.param))
  }

  function ParamIndex(e: Expert, param: int): int {
    if param == -1 then |e.params| else param
  }

  /** An answer of the wrong size for an addE expert. */
  predicate Misfit(e: Expert, vec: seq<Value>) {
    e.kind == AddE && |vec| != 1
  }

  function PatchExpert(e: Expert, param: int, vec: seq<Value>): (e': Expert)
    requires Addressable(e, param) && !Misfit(e, vec)
    ensures e'.kind == e.kind && |e'.params| >= |e.params|
  {
    var p := ParamIndex(e, param);
    match e.kind
    case Init => e.(params := e.params[..p] + vec + e.params[p..])
    case AddE => e.(params := e.params[p := vec[0]])
    case _ => e
  }

  ghost predicate HeldAt(plans: seq<Held>, pos: Pos) {
    PosOk(plans, pos) && plans[pos.query].Some?
  }

  function Target(plans: seq<Held>, pos: Pos): Expert
    requires HeldAt(plans, pos)
  {
    plans[pos.query].value[pos.expert]
  }

  function PatchOne(plans: seq<Held>, pos: Pos, vec: seq<Value>): (plans': seq<Held>)
    requires HeldAt(plans, pos) && !Misfit(Target(plans, pos), vec)
  {
    plans[pos.query := Some(plans[pos.query].value[pos.expert := PatchExpert(Target(plans, pos), pos.param, vec)])]
  }

  /** Writing at one position leaves every other position in place. */
  lemma {:induction false} PatchKeeps(plans: seq<Held>, pos: Pos, vec: seq<Value>, other: Pos)
    requires HeldAt(plans, pos) && !Misfit(Target(plans, pos), vec) && PosOk(plans, other)
    ensures PosOk(PatchOne(plans, pos, vec), other)
    ensures |PatchOne(plans, pos, vec)| == |plans|
    ensures forall q | 0 <= q < |plans| :: PatchOne(plans, pos, vec)[q].Some? <==> plans[q].Some?
  {
  }

  ghost predicate AllHeld(plans: seq<Held>, poss: seq<Pos>) {
    forall i | 0 <= i < |poss| :: HeldAt(plans, poss[i])
  }

  lemma {:induction false} PatchKeepsAll(plans: seq<Held>, pos: Pos, vec: seq<Value>, poss: seq<Pos>)
    requires HeldAt(plans, pos) && !Misfit(Target(plans, pos), vec) && AllHeld(plans, poss)
    ensures AllHeld(PatchOne(plans, pos, vec), poss)
  {
  }

  /** Some addE expert cannot take the answer. */
  ghost predicate Refuses(plans: seq<Held>, poss: seq<Pos>, vec: seq<Value>)
    requires AllHeld(plans, poss)
  {
    exists i | 0 <= i < |poss| :: Target(plans, poss[i]).kind == AddE && |vec| != 1
  }

  // ---------- what writing means ----------

  /** `b` is `a` with `vec` put in before place `p`. */
  ghost predicate Spliced(a: seq<Value>, b: seq<Value>, p: nat, vec: seq<Value>) {
    && p <= |a| && |b| == |a| + |vec|
    && b[..p] == a[..p] && b[p..p + |vec|] == vec && b[p + |vec|..] == a[p..]
  }

  /** An expert has taken an answer: an init expert between its parameters, or
      behind them for -1; an addE expert, which takes one value, in place of a
      parameter; any other expert is left alone. */
  ghost predicate Took(e: Expert, e': Expert, param: int, vec: seq<Value>) {
    && e'.kind == e.kind
    && match e.kind
       case Init =>
         if param == -1 then Spliced(e.params, e'.params, |e.params|, vec)
         else param >= 0 && Spliced(e.params, e'.params, param, vec)
       case AddE =>
         && 0 <= param < |e.params| == |e'.params| && vec == [e'.params[param]]
         && forall i | 0 <= i < |e.params| && i != param :: e'.params[i] == e.params[i]
       case _ => e' == e
  }

  /** An answer to be written at a parameter of an expert. */
  datatype Write = Write(expert: nat, param: int, vec: seq<Value>)

  /** One expert has taken an answer, the others are as before. */
  ghost predicate Wrote(a: seq<Expert>, b: seq<Expert>, w: Write) {
    && |a| == |b| && w.expert < |a| && Took(a[w.expert], b[w.expert], w.param, w.vec)
    && forall e | 0 <= e < |a| && e != w.expert :: b[e] == a[e]
  }

  /** The experts `b` are `a` with all the answers written, one after the other. */
  ghost predicate Carries(a: seq<Expert>, b: seq<Expert>, ws: seq<Write>)
    decreases |ws|
  {
    if ws == [] then b == a
    else exists mid :: Carries(a, mid, Front(ws)) && Wrote(mid, b, ws[|ws| - 1])
  }

  ghost function Front(ws: seq<Write>): seq<Write>
    requires ws != []
  {
    ws[..|ws| - 1]
  }

  /** The writes among `poss` that go to query `q`. */
  ghost function WritesTo(poss: seq<Pos>, q: nat, vec: seq<Value>): seq<Write> {
    if poss == [] then []
    else WritesTo(poss[..|poss| - 1], q, vec) +
         if poss[|poss| - 1].query == q then [Write(poss[|poss| - 1].expert, poss[|poss| - 1].param, vec)] else []
  }

  /** The answer was written at all the positions, and nothing else was changed. */
  ghost predicate Filled(plans: seq<Held>, plans': seq<Held>, poss: seq<Pos>, vec: seq<Value>) {
    && |plans'| == |plans|
    && forall q: nat | q < |plans| ::
         && (plans'[q].Some? <==> plans[q].Some?)
         && (plans[q].Some? ==> Carries(plans[q].value, plans'[q].value, WritesTo(poss, q, vec)))
  }

  lemma {:induction false} PatchTakes(e: Expert, param: int, vec: seq<Value>)
    requires Addressable(e, param) && !Misfit(e, vec)
    ensures Took(e, PatchExpert(e, param, vec), param, vec)
  {
  }

  lemma {:induction false} PatchWrites(plans: seq<Held>, pos: Pos, vec: seq<Value>)
    requires HeldAt(plans, pos) && !Misfit(Target(plans, pos), vec)
    ensures var plans' := PatchOne(plans, pos, vec);
      && |plans'| == |plans| && plans'[pos.query].Some?
      && Wrote(plans[pos.query].value, plans'[pos.query].value, Write(pos.expert, pos.param, vec))
      && forall q | 0 <= q < |plans| && q != pos.query :: plans'[q] == plans[q]
  {
    PatchTakes(Target(plans, pos), pos.param, vec);
  }

  lemma {:induction false} CarriesNext(a: seq<Expert>, b: seq<Expert>, c: seq<Expert>, ws: seq<Write>, w: Write)
    requires Carries(a, b, ws) && Wrote(b, c, w)
    ensures Carries(a, c, ws + [w])
  {
    assert Front(ws + [w]) == ws;
  }

  lemma {:induction false} WritesToNext(poss: seq<Pos>, i: nat, q: nat, vec: seq<Value>)
    requires i < |poss|
    ensures poss[i].query == q ==> WritesTo(poss[..i + 1], q, vec) == WritesTo(poss[..i], q, vec) + [Write(poss[i].expert, poss[i].param, vec)]
    ensures poss[i].query != q ==> WritesTo(poss[..i + 1], q, vec) == WritesTo(poss[..i], q, vec)
  {
    assert poss[..i + 1][..i] == poss[..i];
  }

  /** Writing at one more position. */
  lemma {:induction false} FilledNext(plans: seq<Held>, now: seq<Held>, poss: seq<Pos>, i: nat, vec: seq<Value>)
    requires i < |poss| && Filled(plans, now, poss[..i], vec) && HeldAt(now, poss[i]) && !Misfit(Target(now, poss[i]), vec)
    ensures Filled(plans, PatchOne(now, poss[i], vec), poss[..i + 1], vec)
  {
    var pos, next := poss[i], PatchOne(now, poss[i], vec);
    PatchWrites(now, pos, vec);
    forall q: nat | q < |plans| && plans[q].Some? ensures Carries(plans[q].value, next[q].value, WritesTo(poss[..i + 1], q, vec)) {
      WritesToNext(poss, i, q, vec);
      if q == pos.query {
        CarriesNext(plans[q].value, now[q].value, next[q].value, WritesTo(poss[..i], q, vec), Write(pos.expert, pos.param, vec));
      }
    }
  }

  // ---------- what an expert holds in the end ----------

  /** A place of a query: a parameter of an expert, or with none given the whole expert. */
  datatype Spot = Spot(expert: nat, param: Option<int>)

  ghost predicate Hits(w: Write, at: Spot) {
    w.expert == at.expert && (at.param == None || at.param == Some(w.param))
  }

  /** The writes that go to a place. */
  ghost function Among(ws: seq<Write>, at: Spot): seq<Write> {
    if ws == [] then []
    else if Hits(ws[|ws| - 1], at) then Among(Front(ws), at) + [ws[|ws| - 1]]
    else Among(Front(ws), at)
  }

  lemma {:induction false} CarriesKinds(a: seq<Expert>, b: seq<Expert>, ws: seq<Write>)
    requires Carries(a, b, ws)
    ensures |b| == |a| && forall e | 0 <= e < |a| :: b[e].kind == a[e].kind
    decreases |ws|
  {
    if ws != [] {
      var mid :| Carries(a, mid, Front(ws)) && Wrote(mid, b, ws[|ws| - 1]);
      CarriesKinds(a, mid, Front(ws));
    }
  }

  /** An expert that no answer goes to is as it was written, and so is every
      expert other than init and addE. */
  lemma {:induction false} Untouched(a: seq<Expert>, b: seq<Expert>, ws: seq<Write>, e: nat)
    requires Carries(a, b, ws) && e < |a| && (Among(ws, Spot(e, None)) == [] || (a[e].kind != Init && a[e].kind != AddE))
    ensures |b| == |a| && b[e] == a[e]
    decreases |ws|
  {
    if ws != [] {
      var mid :| Carries(a, mid, Front(ws)) && Wrote(mid, b, ws[|ws| - 1]);
      CarriesKinds(a, mid, Front(ws));
      Untouched(a, mid, Front(ws), e);
    }
  }

  /** An expert that one answer goes to has taken it. */
  lemma {:induction false} TookOne(a: seq<Expert>, b: seq<Expert>, ws: seq<Write>, e: nat, w: Write)
    requires Carries(a, b, ws) && e < |a| && Among(ws, Spot(e, None)) == [w]
    ensures |b| == |a| && Took(a[e], b[e], w.param, w.vec)
    decreases |ws|
  {
    var mid :| Carries(a, mid, Front(ws)) && Wrote(mid, b, ws[|ws| - 1]);
    CarriesKinds(a, mid, Front(ws));
    var last := ws[|ws| - 1];
    if last.expert == e {
      assert Among(ws, Spot(e, None)) == Among(Front(ws), Spot(e, None)) + [last];
      assert Among(Front(ws), Spot(e, None)) == [] && (Among(Front(ws), Spot(e, None)) + [last])[0] == last == w;
      Untouched(a, mid, Front(ws), e);
    } else {
      TookOne(a, mid, Front(ws), e, w);
    }
  }

  /** A parameter of an addE expert is the answer written to it last, or as it was written. */
  lemma {:induction false} AddEHolds(a: seq<Expert>, b: seq<Expert>, ws: seq<Write>, e: nat, j: nat)
    requires Carries(a, b, ws) && e < |a| && a[e].kind == AddE
    ensures |b| == |a| && |b[e].params| == |a[e].params|
    ensures j < |a[e].params| ==>
      var own := Among(ws, Spot(e, Some(j)));
      if own == [] then b[e].params[j] == a[e].params[j] else own[|own| - 1].vec == [b[e].params[j]]
    decreases |ws|
  {
    if ws != [] {
      var mid :| Carries(a, mid, Front(ws)) && Wrote(mid, b, ws[|ws| - 1]);
      CarriesKinds(a, mid, Front(ws));
      AddEHolds(a, mid, Front(ws), e, j);
    }
  }
}
