/** The execution plan of a transaction: queries leave when what they wait for
    has been answered, answers are patched into waiting queries, and an abort
    leaves only a shortened commit statement to send. */
module TrxPlan {
  import opened Placeholders
  import opened PlanDag
  import opened Options
  import opened TrxStatus

  const CommitStatement := [Expert(Validation, []), Expert(PostValidation, []), Expert(Terminate, [])]

  // ---------- what the parser leaves behind ----------

  function Kids(topo: map<nat, set<nat>>, p: nat): set<nat> {
    if p in topo then topo[p] else {}
  }

  ghost predicate Edge(topo: map<nat, set<nat>>, p: nat, q: nat) {
    q in Kids(topo, p)
  }

  ghost predicate Waits(deps: Deps, p: nat, q: nat) {
    q < |deps| && p in deps[q]
  }

  ghost predicate TopoOf(topo: map<nat, set<nat>>, deps: Deps) {
    forall p, q :: Edge(topo, p, q) <==> Waits(deps, p, q)
  }

  /** Every placeholder is filled by a query its target waits for, and the target is a line. */
  ghost predicate Places(placeHolder: map<nat, seq<Pos>>, deps: Deps, plans: seq<Held>) {
    forall p, i | p in placeHolder && 0 <= i < |placeHolder[p]| ::
      PosOk(plans, placeHolder[p][i]) && placeHolder[p][i].query + 1 < |deps| && p in deps[placeHolder[p][i].query]
  }

  /** The first `k` queries are entered and count what they wait for. */
  ghost predicate Entered(deps: Deps, count: map<nat, nat>, k: nat) {
    && k <= |deps| && Backward(deps)
    && (forall q | q in count :: q < k)
    && (forall q | 0 <= q < k :: q in count && count[q] == Pending(deps[q], {}, q))
    && (forall q | k <= q < |deps| :: deps[q] == {})
  }

  ghost predicate ParsingOk(deps: Deps, count: map<nat, nat>, topo: map<nat, set<nat>>, placeHolder: map<nat, seq<Pos>>, plans: seq<Held>, k: nat) {
    Entered(deps, count, k) && TopoOf(topo, deps) && Places(placeHolder, deps, plans) && |plans| == |deps|
  }

  ghost function With(deps: Deps, dst: nat, src: nat): Deps
    requires dst < |deps|
  {
    deps[dst := deps[dst] + {src}]
  }

  lemma {:induction false} TopoKeeps(deps: Deps, topo: map<nat, set<nat>>, src: nat, dst: nat)
    requires TopoOf(topo, deps) && dst < |deps|
    ensures TopoOf(topo[src := Kids(topo, src) + {dst}], With(deps, dst, src))
  {
    var topo', deps' := topo[src := Kids(topo, src) + {dst}], With(deps, dst, src);
    forall p, q ensures Edge(topo', p, q) <==> Waits(deps', p, q) {
      assert Edge(topo, p, q) <==> Waits(deps, p, q);
    }
  }

  lemma {:induction false} EnteredKeeps(deps: Deps, count: map<nat, nat>, k: nat, src: nat, dst: nat)
    requires Entered(deps, count, k) && src < dst < k
    ensures Entered(With(deps, dst, src), if src in deps[dst] then count else count[dst := count[dst] + 1], k)
  {
    PendingAwaited(deps[dst], {}, src, dst);
    if src in deps[dst] {
      assert deps[dst] + {src} == deps[dst];
    }
  }

  lemma {:induction false} PlacesKeep(placeHolder: map<nat, seq<Pos>>, deps: Deps, plans: seq<Held>, src: nat, dst: nat)
    requires Places(placeHolder, deps, plans) && dst < |deps|
    ensures Places(placeHolder, With(deps, dst, src), plans)
  {
  }

  lemma {:induction false} DependKeeps(deps: Deps, count: map<nat, nat>, topo: map<nat, set<nat>>, placeHolder: map<nat, seq<Pos>>, plans: seq<Held>, k: nat, src: nat, dst: nat)
    requires ParsingOk(deps, count, topo, placeHolder, plans, k) && src < dst < k
    ensures dst in Kids(topo, src) <==> src in deps[dst]
    ensures ParsingOk(With(deps, dst, src), if dst in Kids(topo, src) then count else count[dst := count[dst] + 1],
                      topo[src := Kids(topo, src) + {dst}], placeHolder, plans, k)
  {
    assert Edge(topo, src, dst) <==> Waits(deps, src, dst);
    TopoKeeps(deps, topo, src, dst);
    EnteredKeeps(deps, count, k, src, dst);
    PlacesKeep(placeHolder, deps, plans, src, dst);
  }

  /** The position a reference of line `q` asks for. */
  function Place(q: nat, r: Ref): Pos {
    Pos(q, r.expert, r.param)
  }

  /** The positions the first `k` references of line `q` ask query `p` for. */
  ghost function PlacesIn(line: Line, q: nat, k: nat, p: nat): seq<Pos>
    requires k <= |line.refs|
  {
    if k == 0 then []
    else PlacesIn(line, q, k - 1, p) + if line.refs[k - 1].src == p then [Place(q, line.refs[k - 1])] else []
  }

  /** The same for the first `k` lines. */
  ghost function PlacesFor(lines: seq<Line>, k: nat, p: nat): seq<Pos>
    requires k <= |lines|
  {
    if k == 0 then [] else PlacesFor(lines, k - 1, p) + PlacesIn(lines[k - 1], k - 1, |lines[k - 1].refs|, p)
  }

  /** Exactly the references of the line were recorded, each with the line it refers to. */
  ghost predicate Registered(before: map<nat, seq<Pos>>, after: map<nat, seq<Pos>>, line: Line, q: nat, k: nat)
    requires k <= |line.refs|
  {
    forall p: nat :: Positions(after, p) == Positions(before, p) + PlacesIn(line, q, k, p)
  }

  ghost predicate AllRegistered(placeHolder: map<nat, seq<Pos>>, lines: seq<Line>, k: nat)
    requires k <= |lines|
  {
    forall p: nat :: Positions(placeHolder, p) == PlacesFor(lines, k, p)
  }

  lemma {:induction false} RegisteredNext(a: map<nat, seq<Pos>>, b: map<nat, seq<Pos>>, line: Line, q: nat, k: nat)
    requires k < |line.refs| && Registered(a, b, line, q, k)
    ensures var r := line.refs[k]; Registered(a, b[r.src := Positions(b, r.src) + [Place(q, r)]], line, q, k + 1)
  {
    var r := line.refs[k];
    var c := b[r.src := Positions(b, r.src) + [Place(q, r)]];
    forall p: nat ensures Positions(c, p) == Positions(a, p) + PlacesIn(line, q, k + 1, p) {
      assert Positions(a, p) + PlacesIn(line, q, k, p) + [Place(q, r)] == Positions(a, p) + (PlacesIn(line, q, k, p) + [Place(q, r)]);
    }
  }

  lemma {:induction false} PlacedIn(line: Line, q: nat, k: nat, i: nat)
    requires i < k <= |line.refs|
    ensures Place(q, line.refs[i]) in PlacesIn(line, q, k, line.refs[i].src)
  {
    if i < k - 1 {
      PlacedIn(line, q, k - 1, i);
    }
  }

  lemma {:induction false} PlacedFor(lines: seq<Line>, k: nat, q: nat, i: nat)
    requires q < k <= |lines| && i < |lines[q].refs|
    ensures Place(q, lines[q].refs[i]) in PlacesFor(lines, k, lines[q].refs[i].src)
  {
    if q < k - 1 {
      PlacedFor(lines, k - 1, q, i);
    } else {
      PlacedIn(lines[q], q, |lines[q].refs|, i);
    }
  }

  /** A line waits for every line it refers to. */
  lemma {:induction false} RefsAwaited(placeHolder: map<nat, seq<Pos>>, deps: Deps, plans: seq<Held>, lines: seq<Line>, q: nat, i: nat)
    requires Places(placeHolder, deps, plans) && AllRegistered(placeHolder, lines, |lines|)
    requires |deps| == |lines| + 1 && q < |lines| && i < |lines[q].refs|
    ensures lines[q].refs[i].src in deps[q]
  {
    PlacedFor(lines, |lines|, q, i);
    assert Place(q, lines[q].refs[i]) in Positions(placeHolder, lines[q].refs[i].src);
  }

  // ---------- what every query waits for ----------

  ghost function Sources(line: Line, k: nat): set<nat>
    requires k <= |line.refs|
  {
    if k == 0 then {} else Sources(line, k - 1) + {line.refs[k - 1].src}
  }

  /** The lines from `b` on, before `q`. */
  ghost function Range(b: nat, q: nat): set<nat> {
    if q <= b then {} else Range(b, q - 1) + {q - 1}
  }

  lemma {:induction false} RangeHas(b: nat, q: nat, i: nat)
    ensures i in Range(b, q) <==> b <= i < q
  {
    if q > b {
      RangeHas(b, q - 1, i);
    }
  }

  /** An updating line and the commit statement wait for all lines since the last
      update, a reading line for that update; a line also for what it refers to. */
  ghost function DepsOf(lines: seq<Line>, q: nat): set<nat>
    requires q <= |lines|
  {
    var u := LastUpdate(Updates(lines), q);
    if q == |lines| then Range(Begin(Updates(lines), q), q)
    else Sources(lines[q], |lines[q].refs|) +
         if lines[q].update then Range(Begin(Updates(lines), q), q) else if u >= 0 then {u} else {}
  }

  ghost function AllDeps(lines: seq<Line>): Deps {
    seq(|lines| + 1, q requires 0 <= q <= |lines| => DepsOf(lines, q))
  }

  ghost function Updates(lines: seq<Line>): seq<bool> {
    seq(|lines|, i requires 0 <= i < |lines| => lines[i].update)
  }

  lemma {:induction false} SourcesHas(line: Line, k: nat, p: nat)
    requires k <= |line.refs|
    ensures p in Sources(line, k) <==> exists i | 0 <= i < k :: line.refs[i].src == p
  {
    if k != 0 {
      SourcesHas(line, k - 1, p);
    }
  }

  /** No updating line lies between two queries. */
  ghost predicate NoUpdateBetween(lines: seq<Line>, p: nat, q: nat)
    requires q <= |lines|
  {
    forall i | p < i < q :: !lines[i].update
  }

  /** What a query waits for: the lines it refers to, and, where no update lies
      between, every line if it updates or is the commit statement, and
      otherwise an updating line. */
  lemma {:induction false} DepsExactly(lines: seq<Line>, q: nat, p: nat)
    requires q <= |lines|
    ensures p in DepsOf(lines, q) <==>
      || (q < |lines| && exists i | 0 <= i < |lines[q].refs| :: lines[q].refs[i].src == p)
      || (p < q && NoUpdateBetween(lines, p, q) && (q == |lines| || lines[q].update || lines[p].update))
  {
    var updates := Updates(lines);
    if q < |lines| {
      SourcesHas(lines[q], |lines[q].refs|, p);
    }
    RangeHas(Begin(updates, q), q, p);
    SinceUpdate(lines, q, p);
  }

  lemma {:induction false} SinceUpdate(lines: seq<Line>, q: nat, p: nat)
    requires q <= |lines|
    ensures Begin(Updates(lines), q) <= p < q <==> p < q && NoUpdateBetween(lines, p, q)
    ensures p == LastUpdate(Updates(lines), q) <==> p < q && NoUpdateBetween(lines, p, q) && lines[p].update
  {
    var u := LastUpdate(Updates(lines), q);
    assert forall i | 0 <= i < |lines| :: Updates(lines)[i] == lines[i].update;
    if u >= 0 {
      assert lines[u].update;
    }
    assert forall i | u < i < q :: !Updates(lines)[i];
  }

  lemma {:induction false} DepsAre(deps: Deps, lines: seq<Line>)
    requires |deps| == |lines| + 1 && forall q | 0 <= q <= |lines| :: deps[q] == DepsOf(lines, q)
    ensures deps == AllDeps(lines)
  {
  }

  /** Those dependencies keep the lines in order. */
  lemma {:induction false} DepsOrdered(lines: seq<Line>)
    ensures Ordered(AllDeps(lines), Updates(lines))
  {
    var updates := Updates(lines);
    forall q | 0 <= q <= |lines| ensures OrderedAt(AllDeps(lines)[q], updates, q) {
      if q == |lines| || lines[q].update {
        forall i | Begin(updates, q) <= i < q ensures i in DepsOf(lines, q) {
          RangeHas(Begin(updates, q), q, i);
        }
      }
    }
  }

  lemma {:induction false} AllRegisteredNext(before: map<nat, seq<Pos>>, after: map<nat, seq<Pos>>, lines: seq<Line>, q: nat)
    requires q < |lines| && AllRegistered(before, lines, q) && Registered(before, after, lines[q], q, |lines[q].refs|)
    ensures AllRegistered(after, lines, q + 1)
  {
  }

  // ---------- kinds of experts, which never change ----------

  ghost function Kinds(h: Held): seq<Kind> {
    if h.None? then [] else seq(|h.value|, e requires 0 <= e < |h.value| => h.value[e].kind)
  }

  /** The lines before `n` are held as before, with experts of the same kinds. */
  ghost predicate SameKinds(a: seq<Held>, b: seq<Held>, n: nat) {
    |a| == |b| && forall l | 0 <= l < n && l < |a| :: (a[l].Some? <==> b[l].Some?) && Kinds(a[l]) == Kinds(b[l])
  }

  lemma {:induction false} PatchKinds(plans: seq<Held>, pos: Pos, vec: seq<Value>, n: nat)
    requires HeldAt(plans, pos) && !Misfit(Target(plans, pos), vec)
    ensures SameKinds(plans, PatchOne(plans, pos, vec), n)
  {
    assert Kinds(PatchOne(plans, pos, vec)[pos.query]) == Kinds(plans[pos.query]);
  }

  /** The held lines have experts of the kinds they were parsed into. */
  ghost predicate KindsHeld(plans: seq<Held>, lines: seq<Line>) {
    && |plans| == |lines| + 1
    && forall l | 0 <= l < |lines| && plans[l].Some? :: Kinds(plans[l]) == Kinds(Some(lines[l].experts))
  }

  lemma {:induction false} KindsStay(a: seq<Held>, b: seq<Held>, lines: seq<Line>)
    requires KindsHeld(a, lines) && SameKinds(a, b, |lines|)
    ensures KindsHeld(b, lines)
  {
  }

  ghost function KindAt(lines: seq<Line>, pos: Pos): Kind {
    if pos.query < |lines| && pos.expert < |lines[pos.query].experts| then lines[pos.query].experts[pos.expert].kind else Other
  }

  /** The answer to query `q` goes into an addE expert, which takes exactly one value. */
  ghost predicate Picky(lines: seq<Line>, q: nat) {
    exists i | 0 <= i < |PlacesFor(lines, |lines|, q)| :: KindAt(lines, PlacesFor(lines, |lines|, q)[i]) == AddE
  }

  lemma {:induction false} TargetKind(plans: seq<Held>, lines: seq<Line>, pos: Pos)
    requires KindsHeld(plans, lines) && HeldAt(plans, pos) && pos.query < |lines|
    ensures Target(plans, pos).kind == KindAt(lines, pos)
  {
    assert Kinds(plans[pos.query])[pos.expert] == Target(plans, pos).kind;
    assert |Kinds(plans[pos.query])| == |Kinds(Some(lines[pos.query].experts))|;
    assert Kinds(Some(lines[pos.query].experts))[pos.expert] == lines[pos.query].experts[pos.expert].kind;
  }

  // ---------- a plan that runs ----------

  /** Writing an answer fails exactly when it has not one value and an addE expert asks for it. */
  lemma {:induction false} RefusedExactly(plans: seq<Held>, poss: seq<Pos>, vec: seq<Value>, lines: seq<Line>)
    requires AllHeld(plans, poss) && KindsHeld(plans, lines) && InLines(poss, |lines|)
    ensures Refuses(plans, poss, vec) <==> |vec| != 1 && exists i | 0 <= i < |poss| :: KindAt(lines, poss[i]) == AddE
  {
    forall i | 0 <= i < |poss| ensures Target(plans, poss[i]).kind == KindAt(lines, poss[i]) {
      TargetKind(plans, lines, poss[i]);
    }
  }

  lemma {:induction false} SameTarget(a: seq<Held>, b: seq<Held>, n: nat, pos: Pos)
    requires SameKinds(a, b, n) && pos.query < n && HeldAt(a, pos) && HeldAt(b, pos)
    ensures Target(b, pos).kind == Target(a, pos).kind
  {
    assert Kinds(a[pos.query])[pos.expert] == Target(a, pos).kind && Kinds(b[pos.query])[pos.expert] == Target(b, pos).kind;
  }

  /** The answer was written at the first `i` positions, and was not refused there. */
  ghost predicate Writing(start: seq<Held>, now: seq<Held>, poss: seq<Pos>, i: nat, vec: seq<Value>, n: nat) {
    && i <= |poss| && AllHeld(start, poss) && AllHeld(now, poss) && SameKinds(start, now, n)
    && Filled(start, now, poss[..i], vec) && !Refuses(start, poss[..i], vec)
  }

  lemma {:induction false} WritingStarts(plans: seq<Held>, poss: seq<Pos>, vec: seq<Value>, n: nat)
    requires AllHeld(plans, poss)
    ensures Writing(plans, plans, poss, 0, vec, n)
  {
  }

  lemma {:induction false} WritingEnds(start: seq<Held>, now: seq<Held>, poss: seq<Pos>, vec: seq<Value>, n: nat)
    requires Writing(start, now, poss, |poss|, vec, n)
    ensures Filled(start, now, poss, vec) && SameKinds(start, now, n) && AllHeld(start, poss) && !Refuses(start, poss, vec)
  {
    assert poss[..|poss|] == poss;
  }

  lemma {:induction false} KindsTwice(a: seq<Held>, b: seq<Held>, c: seq<Held>, n: nat)
    requires SameKinds(a, b, n) && SameKinds(b, c, n)
    ensures SameKinds(a, c, n)
  {
  }

  lemma {:induction false} RefusesNext(plans: seq<Held>, poss: seq<Pos>, i: nat, vec: seq<Value>)
    requires i < |poss| && AllHeld(plans, poss)
    ensures AllHeld(plans, poss[..i]) && AllHeld(plans, poss[..i + 1])
    ensures Refuses(plans, poss[..i + 1], vec) <==> Refuses(plans, poss[..i], vec) || Misfit(Target(plans, poss[i]), vec)
    ensures Misfit(Target(plans, poss[i]), vec) ==> Refuses(plans, poss, vec)
  {
    assert poss[..i + 1] == poss[..i] + [poss[i]];
    assert poss[..i + 1][i] == poss[i];
    if Refuses(plans, poss[..i], vec) {
      var j :| 0 <= j < i && Target(plans, poss[..i][j]).kind == AddE && |vec| != 1;
      assert poss[..i + 1][j] == poss[..i][j];
    }
  }

  lemma {:induction false} WritingNext(start: seq<Held>, now: seq<Held>, poss: seq<Pos>, i: nat, vec: seq<Value>, n: nat)
    requires i < |poss| && poss[i].query < n && Writing(start, now, poss, i, vec, n)
    ensures SameKinds(start, now, n) && HeldAt(now, poss[i]) && AllHeld(start, poss)
    ensures if Misfit(Target(now, poss[i]), vec) then Refuses(start, poss, vec)
            else Writing(start, PatchOne(now, poss[i], vec), poss, i + 1, vec, n)
  {
    SameTarget(start, now, n, poss[i]);
    RefusesNext(start, poss, i, vec);
    if !Misfit(Target(now, poss[i]), vec) {
      PatchKeepsAll(now, poss[i], vec, poss);
      PatchKinds(now, poss[i], vec, n);
      KindsTwice(start, now, PatchOne(now, poss[i], vec), n);
      FilledNext(start, now, poss, i, vec);
    }
  }

  lemma {:induction false} PlacesPatched(placeHolder: map<nat, seq<Pos>>, deps: Deps, plans: seq<Held>, pos: Pos, vec: seq<Value>)
    requires Places(placeHolder, deps, plans) && HeldAt(plans, pos) && !Misfit(Target(plans, pos), vec)
    ensures Places(placeHolder, deps, PatchOne(plans, pos, vec))
  {
  }

  /** Sent queries have no plan left here, all others have. */
  ghost predicate HeldUntilSent(plans: seq<Held>, sent: set<nat>) {
    && (forall q | q in sent :: q < |plans|)
    && (forall q | 0 <= q < |plans| :: plans[q].Some? <==> q !in sent)
  }

  /** A line is sent only after what it waits for was answered. */
  ghost predicate LinesInOrder(deps: Deps, sent: set<nat>, filled: set<nat>) {
    forall q | q in sent && q + 1 < |deps| :: deps[q] <= filled
  }

  /** A placeholder target is still held while the answer for it is awaited. */
  lemma {:induction false} TargetsHeld(placeHolder: map<nat, seq<Pos>>, deps: Deps, plans: seq<Held>, sent: set<nat>, filled: set<nat>, p: nat)
    requires Places(placeHolder, deps, plans) && HeldUntilSent(plans, sent) && LinesInOrder(deps, sent, filled) && p !in filled
    requires p in placeHolder && |plans| == |deps|
    ensures AllHeld(plans, placeHolder[p])
  {
  }

  ghost predicate InLines(poss: seq<Pos>, n: nat) {
    forall i | 0 <= i < |poss| :: poss[i].query < n
  }

  /** Nothing but the shortened commit statement is left to send. */
  ghost predicate OnlyCommitLeft(count: map<nat, nat>, plans: seq<Held>, sent: set<nat>, n: nat)
    requires n < |plans|
  {
    if n in sent then count == map[] else count == map[n := 0] && plans[n] == Some(CommitStatement[2..])
  }

  datatype State = State(plans: seq<Held>, count: map<nat, nat>, topo: map<nat, set<nat>>, placeHolder: map<nat, seq<Pos>>,
                         isAbort: bool, isEnd: bool, deps: Deps, updates: seq<bool>, sent: set<nat>, filled: set<nat>)

  /** The state of a running plan; `n` is the commit statement. */
  ghost predicate Inv(v: State, n: nat) {
    && n == |v.updates| && |v.plans| == n + 1 && Ordered(v.deps, v.updates) && Backward(v.deps)
    && TopoOf(v.topo, v.deps) && Places(v.placeHolder, v.deps, v.plans)
    && HeldUntilSent(v.plans, v.sent) && LinesInOrder(v.deps, v.sent, v.filled) && v.filled <= v.sent
    && (v.isEnd <==> n in v.filled)
    && if v.isAbort then OnlyCommitLeft(v.count, v.plans, v.sent, n)
       else Scheduled(v.deps, v.count, v.sent, v.filled) && (n !in v.sent ==> v.plans[n] == Some(CommitStatement))
  }

  /** The same, wrapped so that its parts come into view only where Open is called. */
  ghost predicate RunOk(v: State, n: nat) {
    Wrapped(v, n, n + 3)
  }

  ghost predicate Wrapped(v: State, n: nat, k: nat) {
    if k == 0 then Inv(v, n) else Wrapped(v, n, k - 1)
  }

  lemma {:induction false} Open(v: State, n: nat)
    ensures RunOk(v, n) <==> Inv(v, n)
  {
    Unwrap(v, n, n + 3);
  }

  lemma {:induction false} Unwrap(v: State, n: nat, k: nat)
    ensures Wrapped(v, n, k) <==> Inv(v, n)
  {
    if k != 0 {
      Unwrap(v, n, k - 1);
    }
  }

  /** While a line is unanswered and nothing was aborted, the commit statement is held. */
  lemma {:induction false} CommitHeld(v: State, n: nat, q: nat)
    requires Inv(v, n) && !v.isAbort && q < n && q !in v.filled
    ensures n !in v.sent
  {
    if n in v.sent {
      CommitLast(v.deps, v.updates, v.count, v.sent, v.filled);
    }
  }

  ghost function AbortState(v: State, n: nat): State
    requires n < |v.plans|
  {
    if v.isAbort then v
    else v.(isAbort := true, plans := v.plans[n := Some(CommitStatement[2..])], count := map[n := 0])
  }

  lemma {:induction false} AbortOk(v: State, n: nat)
    requires RunOk(v, n) && (!v.isAbort ==> n !in v.sent)
    ensures |v.plans| == n + 1 && (!v.isAbort ==> v.plans[n] == Some(CommitStatement))
    ensures RunOk(AbortState(v, n), n)
  {
    Open(v, n);
    AbortInv(v, n);
    Open(AbortState(v, n), n);
  }

  lemma {:induction false} AbortInv(v: State, n: nat)
    requires Inv(v, n) && (!v.isAbort ==> n !in v.sent)
    ensures Inv(AbortState(v, n), n)
  {
  }

  /** Writing one placeholder changes nothing else. */
  lemma {:induction false} PatchOk(v: State, n: nat, pos: Pos, vec: seq<Value>)
    requires RunOk(v, n) && HeldAt(v.plans, pos) && !Misfit(Target(v.plans, pos), vec) && pos.query < n
    ensures RunOk(v.(plans := PatchOne(v.plans, pos, vec)), n)
  {
    Open(v, n);
    PatchInv(v, n, pos, vec);
    Open(v.(plans := PatchOne(v.plans, pos, vec)), n);
  }

  lemma {:induction false} PatchInv(v: State, n: nat, pos: Pos, vec: seq<Value>)
    requires Inv(v, n) && HeldAt(v.plans, pos) && !Misfit(Target(v.plans, pos), vec) && pos.query < n
    ensures Inv(v.(plans := PatchOne(v.plans, pos, vec)), n)
  {
    PlacesPatched(v.placeHolder, v.deps, v.plans, pos, vec);
    PatchKeeps(v.plans, pos, vec, pos);
  }

  function Positions(placeHolder: map<nat, seq<Pos>>, q: nat): seq<Pos> {
    if q in placeHolder then placeHolder[q] else []
  }

  function Answers(results: map<nat, seq<Value>>, q: nat): seq<Value> {
    if q in results then results[q] else []
  }

  /** What is known when an answer with placeholders comes in. */
  lemma {:induction false} FillFacts(v: State, n: nat, q: nat)
    requires RunOk(v, n) && q in v.sent && q !in v.filled
    ensures AllHeld(v.plans, Positions(v.placeHolder, q)) && InLines(Positions(v.placeHolder, q), n)
    ensures Positions(v.placeHolder, q) != [] ==> q < n && (!v.isAbort ==> n !in v.sent)
  {
    Open(v, n);
    if q in v.placeHolder && v.placeHolder[q] != [] {
      TargetsHeld(v.placeHolder, v.deps, v.plans, v.sent, v.filled, q);
      assert q in v.deps[v.placeHolder[q][0].query];
      if !v.isAbort {
        CommitHeld(v, n, q);
      }
    }
  }

  /** An abort answer does not count as an answer: what waits for the query stays held. */
  lemma {:induction false} UnfillOk(v: State, w: State, n: nat)
    requires RunOk(v, n) && RunOk(w, n) && w.isAbort && w.sent == v.sent && w.deps == v.deps
    requires v.filled <= w.filled && (n in w.filled <==> n in v.filled)
    ensures RunOk(w.(filled := v.filled), n)
  {
    Open(v, n);
    Open(w, n);
    Open(w.(filled := v.filled), n);
  }

  /** The commit statement is still held while a line is unanswered. */
  lemma {:induction false} LineOpen(v: State, n: nat, q: nat)
    requires RunOk(v, n) && q in v.sent && q !in v.filled && q != n
    ensures q < n && (!v.isAbort ==> n !in v.sent)
  {
    Open(v, n);
    if !v.isAbort {
      CommitHeld(v, n, q);
    }
  }

  ghost predicate Waiting(count: map<nat, nat>, children: set<nat>) {
    forall q | q in children :: q in count && count[q] > 0
  }

  ghost function FilledState(v: State, n: nat, q: nat): State
    requires !v.isAbort ==> Waiting(v.count, Kids(v.topo, q))
  {
    v.(count := if v.isAbort then v.count else Counted(v.count, Kids(v.topo, q)),
       filled := v.filled + {q}, isEnd := v.isEnd || q == n)
  }

  lemma {:induction false} FillOk(v: State, n: nat, q: nat)
    requires RunOk(v, n) && q in v.sent && q !in v.filled
    ensures !v.isAbort ==> Waiting(v.count, Kids(v.topo, q))
    ensures RunOk(FilledState(v, n, q), n)
  {
    Open(v, n);
    KidsAreChildren(v.topo, v.deps, q);
    if !v.isAbort {
      ChildrenWait(v.deps, v.count, v.sent, v.filled, q);
      FillKeeps(v.deps, v.count, v.sent, v.filled, q);
    }
    Open(FilledState(v, n, q), n);
  }

  lemma {:induction false} KidsAreChildren(topo: map<nat, set<nat>>, deps: Deps, p: nat)
    requires TopoOf(topo, deps)
    ensures Kids(topo, p) == Children(deps, p)
  {
    forall q ensures q in Kids(topo, p) <==> q in Children(deps, p) {
      if q >= 0 {
        assert Edge(topo, p, q) <==> Waits(deps, p, q);
      }
    }
  }

  /** The plans that stay when a batch leaves. */
  function Remaining(plans: seq<Held>, batch: set<nat>): (rest: seq<Held>)
    ensures |rest| == |plans|
  {
    seq(|plans|, q requires 0 <= q < |plans| => if q in batch then None else plans[q])
  }

  ghost function SentState(v: State): State {
    var batch := Releasable(v.count);
    v.(count := v.count - batch, sent := v.sent + batch, plans := Remaining(v.plans, batch))
  }

  /** Sending keeps the state in order; nothing is sent twice, and everything
      sent is still held and has what it waits for.  After an abort it is at
      most the commit statement without its validation steps. */
  lemma {:induction false} SendOk(v: State, n: nat)
    requires RunOk(v, n)
    ensures RunOk(SentState(v), n) && |v.plans| == |v.deps| == n + 1 && Releasable(SentState(v).count) == {}
    ensures forall q | q in v.count :: q <= n
    ensures forall q | q in Releasable(v.count) :: q !in v.sent && v.plans[q].Some?
    ensures !v.isAbort ==> forall q | q in Releasable(v.count) :: v.deps[q] <= v.filled
    ensures v.isAbort ==> Releasable(v.count) == if n in v.sent then {} else {n}
    ensures v.isAbort && n in Releasable(v.count) ==> v.plans[n] == Some(CommitStatement[2..])
  {
    Open(v, n);
    if !v.isAbort {
      SendKeeps(v.deps, v.count, v.sent, v.filled);
      forall q | q in Releasable(v.count) ensures v.deps[q] <= v.filled {
        NoneLeft(v.deps[q], v.filled, q);
      }
    }
    Open(SentState(v), n);
  }

  /** A query leaving with its experts. */
  datatype Outgoing = Outgoing(query: nat, experts: seq<Expert>)

  /** The batch that leaves: every query below `k` without a count, in order, as it is held. */
  ghost function Batch(plans: seq<Held>, count: map<nat, nat>, k: nat): seq<Outgoing>
    requires k <= |plans| && forall q | q in Releasable(count) && q < k :: plans[q].Some?
  {
    if k == 0 then []
    else if k - 1 in Releasable(count) then Batch(plans, count, k - 1) + [Outgoing(k - 1, plans[k - 1].value)]
    else Batch(plans, count, k - 1)
  }

  ghost function BelowOnly(batch: set<nat>, k: nat): set<nat> {
    set q | q in batch && q < k
  }

  lemma {:induction false} BelowAll(batch: set<nat>, k: nat)
    requires forall q | q in batch :: q < k
    ensures BelowOnly(batch, k) == batch
  {
  }

  lemma {:induction false} BelowNext(batch: set<nat>, k: nat)
    ensures BelowOnly(batch, k + 1) == BelowOnly(batch, k) + if k in batch then {k} else {}
  {
  }

  class Plan {
    var plans: seq<Held>
    var depsCount: map<nat, nat>
    var topo: map<nat, set<nat>>
    var placeHolder: map<nat, seq<Pos>>
    var results: map<nat, seq<Value>>
    var isAbort: bool
    var isEnd: bool
    ghost var deps: Deps
    ghost var updates: seq<bool>
    ghost var sent: set<nat>
    ghost var filled: set<nat>

    /** The state while `k` queries have been entered. */
    ghost predicate Parsing(k: nat)
      reads `deps, `depsCount, `topo, `placeHolder, `plans
    {
      ParsingOk(deps, depsCount, topo, placeHolder, plans, k)
    }

    method RegDependency(src: nat, dst: nat, ghost k: nat)
      requires Parsing(k) && src < dst < k
      modifies `depsCount, `topo, `deps
      ensures Parsing(k) && deps == With(old(deps), dst, src)
    {
      DependKeeps(deps, depsCount, topo, placeHolder, plans, k, src, dst);
      var children := Kids(topo, src);
      if dst !in children {
        depsCount := depsCount[dst := depsCount[dst] + 1];
      }
      topo := topo[src := children + {dst}];
      deps := With(deps, dst, src);
    }

    method RegPlaceHolder(src: nat, dst: nat, expert: nat, param: int, ghost k: nat)
      requires Parsing(k) && src < dst < k && dst + 1 < |deps| && PosOk(plans, Pos(dst, expert, param))
      modifies `depsCount, `topo, `deps, `placeHolder
      ensures Parsing(k) && deps == With(old(deps), dst, src)
      ensures placeHolder == old(placeHolder)[src := Positions(old(placeHolder), src) + [Pos(dst, expert, param)]]
    {
      RegDependency(src, dst, k);
      placeHolder := placeHolder[src := Positions(placeHolder, src) + [Pos(dst, expert, param)]];
    }

    constructor ()
      ensures Parsing(0) && plans == [] && placeHolder == map[] && !isAbort && !isEnd && results == map[] && sent == {} && filled == {}
    {
      plans, depsCount, topo, placeHolder, results, isAbort, isEnd := [], map[], map[], map[], map[], false, false;
      deps, updates, sent, filled := [], [], {}, {};
    }

    /** Wait for every line from `b` on. */
    method DependOnRange(b: nat, q: nat)
      requires Parsing(q + 1) && b <= q < |deps|
      modifies `depsCount, `topo, `deps
      ensures Parsing(q + 1) && |deps| == |old(deps)| && deps[q] == old(deps)[q] + Range(b, q)
      ensures forall j | 0 <= j < |deps| && j != q :: deps[j] == old(deps)[j]
    {
      for i := b to q
        invariant Parsing(q + 1) && |deps| == |old(deps)| && deps[q] == old(deps)[q] + Range(b, i)
        invariant forall j | 0 <= j < |deps| && j != q :: deps[j] == old(deps)[j]
      {
        RegDependency(i, q, q + 1);
      }
    }

    /** Open query `q` with no dependency yet. */
    method OpenQuery(q: nat, experts: seq<Expert>)
      requires Parsing(q) && q < |deps|
      modifies `depsCount, `plans
      ensures Parsing(q + 1) && plans == old(plans)[q := Some(experts)] && deps[q] == {}
    {
      forall p, i | p in placeHolder && 0 <= i < |placeHolder[p]| ensures placeHolder[p][i].query != q {
        assert p in deps[placeHolder[p][i].query];
      }
      PendingNone(q, {});
      depsCount := depsCount[q := 0];
      plans := plans[q := Some(experts)];
    }

    method RegRef(line: Line, q: nat, i: nat, ghost known: map<nat, seq<Pos>>)
      requires Parsing(q + 1) && q + 1 < |deps| && i < |line.refs| && line.refs[i].src < q
      requires Registered(known, placeHolder, line, q, i) && PosOk(plans, Place(q, line.refs[i]))
      modifies `depsCount, `topo, `deps, `placeHolder
      ensures Parsing(q + 1)
      ensures Registered(known, placeHolder, line, q, i + 1)
      ensures |deps| == |old(deps)| && (old(deps)[q] == Sources(line, i) ==> deps[q] == Sources(line, i + 1))
      ensures forall j | 0 <= j < |deps| && j != q :: deps[j] == old(deps)[j]
    {
      var r := line.refs[i];
      RegisteredNext(known, placeHolder, line, q, i);
      RegPlaceHolder(r.src, q, r.expert, r.param, q + 1);
    }

    /** Register the variables a line uses; an unknown variable is a parser error. */
    method RegRefs(line: Line, q: nat) returns (ok: bool)
      requires Parsing(q + 1) && q + 1 < |deps| && LineOk(line) && plans[q] == Some(line.experts) && deps[q] == {}
      modifies `depsCount, `topo, `deps, `placeHolder
      ensures |deps| == |old(deps)| && (forall j | 0 <= j < |deps| && j != q :: deps[j] == old(deps)[j])
      ensures ok ==> Parsing(q + 1) && deps[q] == Sources(line, |line.refs|)
      ensures ok ==> Registered(old(placeHolder), placeHolder, line, q, |line.refs|)
      ensures ok <==> forall i | 0 <= i < |line.refs| :: line.refs[i].src < q
    {
      for i := 0 to |line.refs|
        invariant Parsing(q + 1) && |deps| == |old(deps)| && deps[q] == Sources(line, i)
        invariant Registered(old(placeHolder), placeHolder, line, q, i)
        invariant forall j | 0 <= j < |deps| && j != q :: deps[j] == old(deps)[j]
        invariant forall j | 0 <= j < i :: line.refs[j].src < q
      {
        if line.refs[i].src >= q {
          return false;
        }
        RegRef(line, q, i, old(placeHolder));
      }
      ok := true;
    }

    /** Parse one line into query `q`. */
    method AddLine(lines: seq<Line>, q: nat, lastUpdate: int) returns (ok: bool)
      requires q < |lines| && Parsing(q) && |lines| + 1 == |deps| && LineOk(lines[q])
      requires lastUpdate == LastUpdate(Updates(lines), q)
      modifies `depsCount, `topo, `deps, `placeHolder, `plans
      ensures |deps| == |old(deps)| && plans == old(plans)[q := Some(lines[q].experts)]
      ensures forall j | 0 <= j < q :: deps[j] == old(deps)[j]
      ensures ok ==> Parsing(q + 1) && deps[q] == DepsOf(lines, q)
      ensures ok ==> Registered(old(placeHolder), placeHolder, lines[q], q, |lines[q].refs|)
      ensures ok <==> forall i | 0 <= i < |lines[q].refs| :: lines[q].refs[i].src < q
    {
      OpenQuery(q, lines[q].experts);
      ok := RegRefs(lines[q], q);
      if !ok {
        return;
      }
      if lines[q].update {
        DependOnRange(if lastUpdate > 0 then lastUpdate else 0, q);
      } else if lastUpdate >= 0 {
        RegDependency(lastUpdate, q, q + 1);
      }
    }

    /** Every variable a line uses was returned by an earlier line. */
    static ghost predicate Resolved(lines: seq<Line>) {
      forall q, i | 0 <= q < |lines| && 0 <= i < |lines[q].refs| :: lines[q].refs[i].src < q
    }

    /** The first `k` lines are entered with the dependencies they need. */
    ghost predicate Lines(lines: seq<Line>, k: nat)
      requires k <= |lines|
      reads this
    {
      && |deps| == |plans| == |lines| + 1
      && (forall j | 0 <= j < k :: deps[j] == DepsOf(lines, j))
      && (forall j | 0 <= j < k :: plans[j] == Some(lines[j].experts))
    }

    method Resize(n: nat)
      requires Parsing(0) && plans == []
      modifies `plans, `deps
      ensures Parsing(0) && |deps| == n
    {
      plans := seq(n, _ => Some([]));
      deps := seq(n, _ => {});
    }

    method AddCommitStatement(lines: seq<Line>, lastUpdate: int)
      requires Parsing(|lines|) && Lines(lines, |lines|) && lastUpdate == LastUpdate(Updates(lines), |lines|)
      modifies `depsCount, `topo, `deps, `plans
      ensures Parsing(|lines| + 1) && Lines(lines, |lines|) && deps == AllDeps(lines)
      ensures plans[|lines|] == Some(CommitStatement)
    {
      OpenQuery(|lines|, CommitStatement);
      DependOnRange(if lastUpdate > 0 then lastUpdate else 0, |lines|);
      assert {} + Range(Begin(Updates(lines), |lines|), |lines|) == Range(Begin(Updates(lines), |lines|), |lines|);
      DepsAre(deps, lines);
    }

    method NextLine(lines: seq<Line>, q: nat, lastUpdate: int) returns (ok: bool, lastUpdate': int)
      requires q < |lines| && LineOk(lines[q])
      requires Parsing(q) && Lines(lines, q) && lastUpdate == LastUpdate(Updates(lines), q)
      requires Resolved(lines[..q]) && AllRegistered(placeHolder, lines, q)
      modifies `depsCount, `topo, `deps, `placeHolder, `plans
      ensures ok ==> Parsing(q + 1) && Lines(lines, q + 1) && lastUpdate' == LastUpdate(Updates(lines), q + 1)
      ensures ok ==> Resolved(lines[..q + 1]) && AllRegistered(placeHolder, lines, q + 1)
      ensures !ok ==> !Resolved(lines)
    {
      ResolvedSnoc(lines, q);
      ok := AddLine(lines, q, lastUpdate);
      if ok {
        AllRegisteredNext(old(placeHolder), placeHolder, lines, q);
      } else {
        ResolvedPrefix(lines, q + 1);
      }
      lastUpdate' := if lines[q].update then q else lastUpdate;
    }

    /** The lines one after the other. */
    method AddLines(lines: seq<Line>) returns (ok: bool, lastUpdate: int)
      requires Parsing(0) && Lines(lines, 0) && AllRegistered(placeHolder, lines, 0) && Resolved(lines[..0])
      requires forall q | 0 <= q < |lines| :: LineOk(lines[q])
      modifies `depsCount, `topo, `deps, `placeHolder, `plans
      ensures ok ==> Parsing(|lines|) && Lines(lines, |lines|) && lastUpdate == LastUpdate(Updates(lines), |lines|)
      ensures ok ==> Resolved(lines[..|lines|]) && AllRegistered(placeHolder, lines, |lines|)
      ensures !ok ==> !Resolved(lines)
    {
      ok, lastUpdate := true, -1;
      for q := 0 to |lines|
        invariant ok && Parsing(q) && Lines(lines, q) && lastUpdate == LastUpdate(Updates(lines), q)
        invariant Resolved(lines[..q]) && AllRegistered(placeHolder, lines, q)
      {
        ok, lastUpdate := NextLine(lines, q, lastUpdate);
        if !ok {
          return;
        }
      }
    }

    /** ParserObject::Parse: it fails exactly when a variable is unknown, and
        otherwise leaves a plan ready to run, with exactly the dependencies and
        placeholders the lines ask for. */
    method Parse(lines: seq<Line>) returns (ok: bool)
      requires Parsing(0) && plans == [] && placeHolder == map[] && forall q | 0 <= q < |lines| :: LineOk(lines[q])
      modifies `depsCount, `topo, `deps, `placeHolder, `plans
      ensures ok <==> Resolved(lines)
      ensures ok ==> Parsing(|lines| + 1) && Lines(lines, |lines|) && deps == AllDeps(lines)
      ensures ok ==> plans[|lines|] == Some(CommitStatement) && AllRegistered(placeHolder, lines, |lines|)
    {
      Resize(|lines| + 1);
      var lastUpdate;
      ok, lastUpdate := AddLines(lines);
      if ok {
        assert lines[..|lines|] == lines;
        AddCommitStatement(lines, lastUpdate);
      }
    }

    static lemma {:induction false} ResolvedSnoc(lines: seq<Line>, q: nat)
      requires q < |lines| && Resolved(lines[..q])
      ensures Resolved(lines[..q + 1]) <==> forall i | 0 <= i < |lines[q].refs| :: lines[q].refs[i].src < q
    {
    }

    static lemma {:induction false} ResolvedPrefix(lines: seq<Line>, q: nat)
      requires q <= |lines| && !Resolved(lines[..q])
      ensures !Resolved(lines)
    {
    }
  
    ghost function View(): State
      reads `plans, `depsCount, `topo, `placeHolder, `isAbort, `isEnd, `deps, `updates, `sent, `filled
    {
      State(plans, depsCount, topo, placeHolder, isAbort, isEnd, deps, updates, sent, filled)
    }

    ghost predicate Valid(n: nat)
      reads `plans, `depsCount, `topo, `placeHolder, `isAbort, `isEnd, `deps, `updates, `sent, `filled
    {
      RunOk(View(), n)
    }

    /** A parsed plan is ready to run. */
    lemma {:induction false} Ready(n: nat)
      requires Parsing(n + 1) && |updates| == n && Ordered(deps, updates) && plans[n] == Some(CommitStatement)
      requires !isAbort && !isEnd && sent == {} && filled == {}
      requires forall q | 0 <= q <= n :: plans[q].Some?
      ensures Valid(n)
    {
      Open(View(), n);
    }

    /** Abort, when some line is still unanswered. */
    method Abort(n: nat)
      requires Valid(n) && (!isAbort ==> n !in sent)
      modifies `isAbort, `depsCount, `plans
      ensures Valid(n) && |old(plans)| == n + 1 && View() == AbortState(old(View()), n)
    {
      AbortOk(View(), n);
      if isAbort {
        return;
      }
      isAbort := true;
      plans := plans[n := Some(plans[n].value[2..])];
      depsCount := map[n := 0];
    }

    method PatchAt(n: nat, pos: Pos, vec: seq<Value>)
      requires Valid(n) && HeldAt(plans, pos) && !Misfit(Target(plans, pos), vec) && pos.query < n
      modifies `plans
      ensures Valid(n) && plans == PatchOne(old(plans), pos, vec) && SameKinds(old(plans), plans, n)
    {
      PatchOk(View(), n, pos, vec);
      PatchKinds(plans, pos, vec, n);
      plans := PatchOne(plans, pos, vec);
    }

    method WriteOne(n: nat, poss: seq<Pos>, i: nat, vec: seq<Value>, ghost start: seq<Held>) returns (ok: bool)
      requires Valid(n) && i < |poss| && poss[i].query < n && (!isAbort ==> n !in sent) && Writing(start, plans, poss, i, vec, n)
      modifies `isAbort, `depsCount, `plans
      ensures Valid(n) && SameKinds(start, plans, n)
      ensures ok ==> Writing(start, plans, poss, i + 1, vec, n) && isAbort == old(isAbort) && depsCount == old(depsCount)
      ensures !ok ==> isAbort && AllHeld(start, poss) && Refuses(start, poss, vec)
    {
      WritingNext(start, plans, poss, i, vec, n);
      ok := !Misfit(Target(plans, poss[i]), vec);
      if ok {
        PatchAt(n, poss[i], vec);
      } else {
        Abort(n);
      }
    }

    /** Write an answer at the given positions; a misfit aborts. */
    method WriteAll(n: nat, poss: seq<Pos>, vec: seq<Value>) returns (ok: bool)
      requires Valid(n) && AllHeld(plans, poss) && InLines(poss, n) && (!isAbort ==> n !in sent)
      modifies `isAbort, `depsCount, `plans
      ensures Valid(n) && (ok <==> !Refuses(old(plans), poss, vec))
      ensures ok ==> Filled(old(plans), plans, poss, vec) && isAbort == old(isAbort) && depsCount == old(depsCount)
      ensures !ok ==> isAbort
      ensures SameKinds(old(plans), plans, n)
    {
      WritingStarts(plans, poss, vec, n);
      for i := 0 to |poss|
        invariant Valid(n) && isAbort == old(isAbort) && depsCount == old(depsCount)
        invariant Writing(old(plans), plans, poss, i, vec, n)
      {
        ok := WriteOne(n, poss, i, vec, old(plans));
        if !ok {
          return;
        }
      }
      WritingEnds(old(plans), plans, poss, vec, n);
      ok := true;
    }
  
    /** Take one off the count of every query waiting for the answered one. */
    method CountDown(children: set<nat>)
      requires Waiting(depsCount, children)
      modifies `depsCount
      ensures depsCount == Counted(old(depsCount), children)
    {
      var rest := children;
      while rest != {}
        invariant rest <= children && depsCount.Keys == old(depsCount).Keys
        invariant forall q | q in depsCount ::
          depsCount[q] == if q in children && q !in rest then old(depsCount)[q] - 1 else old(depsCount)[q]
        decreases rest
      {
        var q :| q in rest;
        depsCount := depsCount[q := depsCount[q] - 1];
        rest := rest - {q};
      }
    }

    /** Mark a query answered and release what waits for it. */
    method Settle(n: nat, q: nat)
      requires Valid(n) && q in sent && q !in filled
      modifies `depsCount, `isEnd, `filled
      ensures Valid(n) && filled == old(filled) + {q}
    {
      FillOk(View(), n, q);
      if !isAbort {
        CountDown(Kids(topo, q));
      }
      isEnd := isEnd || q == n;
      filled := filled + {q};
      assert View() == FilledState(old(View()), n, q);
    }

    /** Write an answer at its placeholders, all of which are still held. */
    method FillPlaces(n: nat, q: nat, vec: seq<Value>) returns (ok: bool)
      requires Valid(n) && q in sent && q !in filled
      modifies `isAbort, `depsCount, `plans
      ensures Valid(n) && AllHeld(old(plans), Positions(placeHolder, q))
      ensures ok <==> !Refuses(old(plans), Positions(placeHolder, q), vec)
      ensures ok ==> Filled(old(plans), plans, Positions(placeHolder, q), vec) && isAbort == old(isAbort)
      ensures !ok ==> isAbort && q < n
      ensures SameKinds(old(plans), plans, n) && InLines(Positions(placeHolder, q), n)
    {
      var poss := Positions(placeHolder, q);
      FillFacts(View(), n, q);
      if poss == [] {
        return true;
      }
      ok := WriteAll(n, poss, vec);
    }

    method Record(n: nat, q: nat, vec: seq<Value>)
      modifies `results
      ensures results == old(results)[q := if q == n then Answers(old(results), q) else Answers(old(results), q) + vec]
    {
      results := results[q := if q == n then Answers(results, q) else Answers(results, q) + vec];
    }

    /** FillResult, for a query that was sent and not answered yet: false exactly
        when an addE expert cannot take the answer, which aborts. */
    method FillResult(n: nat, q: nat, vec: seq<Value>) returns (ok: bool)
      requires Valid(n) && q in sent && q !in filled
      modifies `isAbort, `depsCount, `plans, `isEnd, `filled, `results
      ensures Valid(n) && AllHeld(old(plans), Positions(placeHolder, q))
      ensures ok <==> !Refuses(old(plans), Positions(placeHolder, q), vec)
      ensures ok ==> Filled(old(plans), plans, Positions(placeHolder, q), vec)
      ensures ok ==> filled == old(filled) + {q} && isAbort == old(isAbort)
      ensures ok ==> results.Keys == old(results).Keys + {q} && (forall p | p in old(results) && p != q :: results[p] == old(results)[p])
      ensures ok ==> var was := if q in old(results) then old(results)[q] else []; results[q] == if q == n then was else was + vec
      ensures !ok ==> filled == old(filled) && isAbort && results == old(results) && q < n
      ensures SameKinds(old(plans), plans, n) && InLines(Positions(placeHolder, q), n)
    {
      ok := FillPlaces(n, q, vec);
      if ok {
        Settle(n, q);
        Record(n, q, vec);
      }
    }
  
    /** Move one query out. */
    method SendOne(q: nat) returns (out: Outgoing)
      requires q < |plans| && plans[q].Some? && q in depsCount
      modifies `plans, `depsCount
      ensures out == Outgoing(q, old(plans)[q].value)
      ensures plans == old(plans)[q := None] && depsCount == old(depsCount) - {q}
    {
      out := Outgoing(q, plans[q].value);
      plans := plans[q := None];
      depsCount := depsCount - {q};
    }

    /** The loop of NextQueries over the counts. */
    method SendAll() returns (batch: seq<Outgoing>)
      requires forall q | q in depsCount :: q < |plans|
      requires forall q | q in Releasable(depsCount) :: plans[q].Some?
      modifies `plans, `depsCount
      ensures batch == Batch(old(plans), old(depsCount), |old(plans)|)
      ensures depsCount == old(depsCount) - Releasable(old(depsCount))
      ensures plans == Remaining(old(plans), Releasable(old(depsCount)))
    {
      batch := [];
      ghost var all, count, held := Releasable(depsCount), depsCount, plans;
      var q := 0;
      while q < |plans|
        invariant q <= |plans| == |held| && batch == Batch(held, count, q)
        invariant depsCount == count - BelowOnly(all, q)
        invariant forall j | 0 <= j < |held| :: plans[j] == if j in all && j < q then None else held[j]
      {
        BelowNext(all, q);
        assert q in depsCount && depsCount[q] == 0 <==> q in all;
        if q in depsCount && depsCount[q] == 0 {
          var out := SendOne(q);
          batch := batch + [out];
        }
        q := q + 1;
      }
      BelowAll(all, |held|);
    }

    /** NextQueries: false once the commit statement was answered; otherwise
        everything without an open dependency leaves, exactly once. */
    method NextQueries(n: nat) returns (more: bool, batch: seq<Outgoing>)
      requires Valid(n)
      modifies `plans, `depsCount, `sent
      ensures Valid(n) && more == !isEnd
      ensures !more ==> batch == [] && View() == old(View())
      ensures more ==>
        && View() == SentState(old(View())) && Releasable(depsCount) == {} && |old(plans)| == n + 1 && (forall q | q in Releasable(old(depsCount)) :: q <= n && old(plans)[q].Some?)
        && batch == Batch(old(plans), old(depsCount), n + 1)
        && sent == old(sent) + Releasable(old(depsCount))
    {
      if isEnd {
        return false, [];
      }
      more := true;
      SendOk(View(), n);
      ghost var v := View();
      batch := SendAll();
      sent := sent + Releasable(v.count);
      assert View() == SentState(v);
    }
  
    /** An abort answer for a line: fill what can be filled, then abort. */
    method ReplyAbort(n: nat, q: nat, vec: seq<Value>)
      requires Valid(n) && q in sent && q !in filled && q != n
      modifies `isAbort, `depsCount, `plans, `isEnd, `filled, `results
      ensures Valid(n) && isAbort && filled == old(filled) && SameKinds(old(plans), plans, n)
    {
      ghost var v := View();
      LineOpen(v, n, q);
      var ok := FillResult(n, q, vec);
      Abort(n);
      UnfillOk(v, View(), n);
      filled := v.filled;
    }
  }
}
