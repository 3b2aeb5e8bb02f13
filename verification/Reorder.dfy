/** Reordering the steps of a query: cheap filters move towards the front. */
module Reorder {

  datatype Kind =
    | Is | Where | Has | HasNot | HasKey | HasValue | HasLabel | And | Or | Not | Dedup | As | Order
    | Fixed(step: nat)   // any step that is not reordered

  /** A step with its parameter text; `sub` tells whether that text is a query
      itself, `labels` whether such a sub-query reads labels, `pos` where in the
      query the step was written. */
  datatype Token = Token(kind: Kind, param: string, sub: bool, labels: bool, pos: int)

  function Priority(k: Kind): int {
    match k
    case Is => 0 case Where => 0
    case Has => 1 case HasNot => 1 case HasKey => 1 case HasValue => 1
    case HasLabel => 2
    case And => 3 case Or => 3 case Not => 3
    case Dedup => 4
    case As => 5
    case Order => 6
    case Fixed(_) => -1
  }

  /** The priority a step moves with: a where with a sub-query counts as an and. */
  function Moving(t: Token): int {
    if t.kind == Where && t.sub then Priority(And) else Priority(t.kind)
  }

  /** The where and dedup steps that the code keeps behind every as. */
  predicate ReadsLabels(t: Token) {
    (t.kind == Where && !t.sub) || (t.kind == Dedup && t.param != [])
  }

  /** May step `t` move in front of step `x`? */
  predicate Passes(t: Token, x: Token) {
    Priority(t.kind) != -1 && !(ReadsLabels(t) && x.kind == As) && Priority(x.kind) > Moving(t)
  }

  /** How far from the front `t` stops when it moves forward from the end of `s`. */
  function Cut(s: seq<Token>, t: Token): (c: nat)
    ensures c <= |s|
  {
    if s == [] || !Passes(t, s[|s| - 1]) then |s| else Cut(s[..|s| - 1], t)
  }

  function At(s: seq<Token>, c: nat, t: Token, j: nat): Token
    requires c <= |s| && j <= |s|
  {
    if j < c then s[j] else if j == c then t else s[j - 1]
  }

  /** `t` put at place `c`. */
  function Put(s: seq<Token>, c: nat, t: Token): (r: seq<Token>)
    requires c <= |s|
    ensures |r| == |s| + 1
  {
    seq(|s| + 1, j requires 0 <= j <= |s| => At(s, c, t, j))
  }

  function Reordered(s: seq<Token>): (r: seq<Token>)
    ensures |r| == |s|
  {
    if s == [] then []
    else
      var r := Reordered(s[..|s| - 1]);
      Put(r, Cut(r, s[|s| - 1]), s[|s| - 1])
  }

  // ---------- the in-place form ----------

  lemma {:induction false} CutStep(s: seq<Token>, cur: nat, t: Token)
    requires cur <= |s|
    ensures cur > 0 && Passes(t, s[cur - 1]) ==> Cut(s[..cur], t) == Cut(s[..cur - 1], t)
    ensures cur == 0 || !Passes(t, s[cur - 1]) ==> Cut(s[..cur], t) == cur
  {
    if cur > 0 {
      assert s[..cur][..cur - 1] == s[..cur - 1];
    }
  }

  /** One swap moves `t` one place forward. */
  method SwapBack(a: array<Token>, cur: nat, ghost s: seq<Token>, ghost t: Token)
    requires 0 < cur <= |s| < a.Length && forall j | 0 <= j <= |s| :: a[j] == At(s, cur, t, j)
    modifies a
    ensures forall j | 0 <= j <= |s| :: a[j] == At(s, cur - 1, t, j)
    ensures forall j | |s| < j < a.Length :: a[j] == old(a[j])
  {
    a[cur], a[cur - 1] := a[cur - 1], a[cur];
  }

  /** Bubble the i-th token forward by swaps. */
  method MoveForward(a: array<Token>, i: nat, ghost s: seq<Token>)
    requires i < a.Length && s == a[..i]
    modifies a
    ensures forall j | 0 <= j <= i :: a[j] == At(s, Cut(s, old(a[i])), old(a[i]), j)
    ensures forall j | i < j < a.Length :: a[j] == old(a[j])
  {
    var t := a[i];
    var cur := i;
    assert s[..i] == s;
    while cur > 0 && Passes(t, a[cur - 1])
      invariant cur <= i && Cut(s, t) == Cut(s[..cur], t)
      invariant forall j | 0 <= j <= i :: a[j] == At(s, cur, t, j)
      invariant forall j | i < j < a.Length :: a[j] == old(a[j])
    {
      CutStep(s, cur, t);
      SwapBack(a, cur, s, t);
      cur := cur - 1;
    }
    CutStep(s, cur, t);
  }

  /** Every step in turn. */
  method MoveAll(a: array<Token>)
    modifies a
    ensures a[..] == Reordered(old(a[..]))
  {
    if a.Length == 0 {
      return;
    }
    ghost var s := a[..];
    assert Reordered(s[..1]) == [s[0]] by {
      assert s[..1][..0] == [];
    }
    var i := 1;
    while i < a.Length
      invariant 1 <= i <= a.Length && a[..i] == Reordered(s[..i])
      invariant forall j | i <= j < a.Length :: a[j] == s[j]
    {
      assert s[..i + 1][..i] == s[..i];
      MoveForward(a, i, Reordered(s[..i]));
      i := i + 1;
    }
    assert s[..i] == s && a[..i] == a[..];
  }

  /** ReOrderSteps: a query read off the text is put in order, every step as far
      in front as it may. */
  method ReOrderSteps(a: array<Token>, enabled: bool)
    modifies a
    ensures a[..] == if enabled then Reordered(old(a[..])) else old(a[..])
    ensures enabled && InTextOrder(old(a[..])) ==> Arranged(old(a[..]), a[..])
  {
    if enabled {
      ghost var s := a[..];
      MoveAll(a);
      if InTextOrder(s) {
        ReorderedArranged(s);
      }
    }
  }

  // ---------- what moves and what does not ----------

  /** The steps as the parser reads them off the query. */
  ghost predicate InTextOrder(s: seq<Token>) {
    forall i, j | 0 <= i < j < |s| :: s[i].pos < s[j].pos
  }

  lemma {:induction false} CutPassed(s: seq<Token>, t: Token, j: nat)
    requires Cut(s, t) <= j < |s|
    ensures Passes(t, s[j])
  {
    if j < |s| - 1 {
      CutPassed(s[..|s| - 1], t, j);
    }
  }

  /** What stands at place `k`, in terms of the steps before the last one. */
  lemma {:induction false} Unfold(s: seq<Token>, k: nat) returns (r: seq<Token>, t: Token, c: nat)
    requires k < |s|
    ensures t == s[|s| - 1] && r == Reordered(s[..|s| - 1]) && c == Cut(r, t)
    ensures Reordered(s)[k] == if k < c then r[k] else if k == c then t else r[k - 1]
  {
    t, r := s[|s| - 1], Reordered(s[..|s| - 1]);
    c := Cut(r, t);
  }

  lemma {:induction false} FromInput(s: seq<Token>, k: nat)
    requires k < |s|
    ensures Reordered(s)[k] in s
    decreases |s|
  {
    var r, t, c := Unfold(s, k);
    if k != c {
      FromInput(s[..|s| - 1], if k < c then k else k - 1);
    }
  }

  /** Standing in this order, two steps are in text order or the first may pass the second. */
  predicate Allowed(a: Token, b: Token) {
    a.pos != b.pos && (a.pos > b.pos ==> Passes(a, b))
  }

  lemma {:induction false} Earlier(s: seq<Token>, k: nat)
    requires InTextOrder(s) && k < |s| - 1
    ensures Reordered(s[..|s| - 1])[k].pos < s[|s| - 1].pos
  {
    FromInput(s[..|s| - 1], k);
  }

  lemma {:induction false} PutAllowed(s: seq<Token>, t: Token, k: nat, l: nat)
    requires k < l <= |s| && forall j | 0 <= j < |s| :: s[j].pos < t.pos
    ensures var c := Cut(s, t);
      if k == c then At(s, c, t, k) == t && At(s, c, t, l) == s[l - 1] && Allowed(t, s[l - 1])
      else if l == c then At(s, c, t, l) == t && At(s, c, t, k) == s[k] && Allowed(s[k], t)
      else At(s, c, t, k) == s[if k < c then k else k - 1] && At(s, c, t, l) == s[if l < c then l else l - 1]
  {
    if k == Cut(s, t) {
      CutPassed(s, t, l - 1);
    }
  }

  /** Two steps change places only when the later one may pass the earlier one:
      its priority is strictly smaller, and it is not a label-reading step behind an as. */
  lemma {:induction false} OnlyPassingInverts(s: seq<Token>, k: nat, l: nat)
    requires InTextOrder(s) && k < l < |s|
    ensures Allowed(Reordered(s)[k], Reordered(s)[l])
    decreases |s|
  {
    var init, t := s[..|s| - 1], s[|s| - 1];
    var r := Reordered(init);
    var c := Cut(r, t);
    forall j | 0 <= j < |r| ensures r[j].pos < t.pos {
      Earlier(s, j);
    }
    PutAllowed(r, t, k, l);
    if k != c && l != c {
      OnlyPassingInverts(init, if k < c then k else k - 1, if l < c then l else l - 1);
    }
  }

  /** Steps that are not reordered keep their places. */
  lemma {:induction false} FixedStays(s: seq<Token>, i: nat)
    requires i < |s| && Priority(s[i].kind) == -1
    ensures Reordered(s)[i] == s[i]
    decreases |s|
  {
    var r, t, c := Unfold(s, i);
    if i < |s| - 1 {
      FixedStays(s[..|s| - 1], i);
      NotPassed(r, t, i);
    } else {
      FixedLast(r, t);
    }
  }

  lemma {:induction false} NotPassed(s: seq<Token>, t: Token, i: nat)
    requires i < |s| && !Passes(t, s[i])
    ensures i < Cut(s, t)
  {
    if Cut(s, t) <= i {
      CutPassed(s, t, i);
    }
  }

  lemma {:induction false} FixedLast(s: seq<Token>, t: Token)
    requires Priority(t.kind) == -1
    ensures Cut(s, t) == |s|
  {
  }

  lemma {:induction false} PutMultiset(s: seq<Token>, c: nat, t: Token)
    requires c <= |s|
    ensures multiset(Put(s, c, t)) == multiset(s) + multiset{t}
  {
    assert Put(s, c, t) == s[..c] + [t] + s[c..];
    assert s == s[..c] + s[c..];
  }

  /** No step is lost, added or changed. */
  lemma {:induction false} SameSteps(s: seq<Token>)
    ensures multiset(Reordered(s)) == multiset(s)
  {
    if s != [] {
      var n := |s| - 1;
      SameSteps(s[..n]);
      PutMultiset(Reordered(s[..n]), Cut(Reordered(s[..n]), s[n]), s[n]);
      assert s == s[..n] + [s[n]];
    }
  }

  // ---------- the order that results ----------

  /** The classes of steps, in the order in which they are to be tried. */
  const Classes: seq<set<Kind>> :=
    [{Is, Where}, {Has, HasNot, HasKey, HasValue}, {HasLabel}, {And, Or, Not}, {Dedup}, {As}, {Order}]

  /** A step moves with its class; a where with a sub-query moves like an and. */
  ghost predicate Ranks(t: Token, c: nat) {
    c < |Classes| && (if t.kind == Where && t.sub then And else t.kind) in Classes[c]
  }

  /** A where or dedup that names labels must not come before the as that sets them. */
  ghost predicate Tied(t: Token, x: Token) {
    x.kind == As && ((t.kind == Where && !t.sub) || (t.kind == Dedup && t.param != ""))
  }

  /** Step `t`, written behind `x`, may stand in front of it: its class is earlier, and it is not tied. */
  ghost predicate Overtakes(t: Token, x: Token) {
    !Tied(t, x) && exists c, d | 0 <= c < d < |Classes| :: Ranks(t, c) && x.kind in Classes[d]
  }

  lemma {:induction false} ClassIs(k: Kind, c: nat)
    requires c < |Classes|
    ensures k in Classes[c] <==> Priority(k) == c
  {
  }

  lemma {:induction false} PassesExactly(t: Token, x: Token)
    ensures Passes(t, x) <==> Overtakes(t, x)
  {
    forall c: nat | c < |Classes| ensures (Ranks(t, c) <==> Moving(t) == c) && (x.kind in Classes[c] <==> Priority(x.kind) == c) {
      ClassIs(And, c);
      ClassIs(t.kind, c);
      ClassIs(x.kind, c);
    }
    if Passes(t, x) {
      assert Ranks(t, Moving(t)) && x.kind in Classes[Priority(x.kind)];
    }
  }

  /** Steps stand in text order unless the later one may overtake the earlier one. */
  ghost predicate InOrder(r: seq<Token>) {
    forall k, l | 0 <= k < l < |r| :: r[k].pos < r[l].pos || (r[k].pos > r[l].pos && Overtakes(r[k], r[l]))
  }

  /** From place `k` on a step written before the one at `l` keeps that one back. */
  ghost predicate Stopped(r: seq<Token>, k: nat, l: nat)
    requires k < l < |r|
  {
    exists m | k <= m < l :: r[m].pos < r[l].pos && !Overtakes(r[l], r[m])
  }

  /** Every step stands as far in front as it may. */
  ghost predicate AsFar(r: seq<Token>) {
    forall k: nat, l: nat | k < l < |r| && r[k].pos < r[l].pos :: Stopped(r, k, l)
  }

  /** `r` has the steps of `s`, in order and as far in front as they may. */
  ghost predicate Arranged(s: seq<Token>, r: seq<Token>) {
    multiset(r) == multiset(s) && InOrder(r) && AsFar(r)
  }

  lemma {:induction false} CutStops(s: seq<Token>, t: Token)
    requires Cut(s, t) > 0
    ensures !Passes(t, s[Cut(s, t) - 1])
  {
    if Passes(t, s[|s| - 1]) {
      CutStops(s[..|s| - 1], t);
    }
  }

  function Skip(i: nat, j: nat): nat {
    if j < i then j else j + 1
  }

  /** The step put in is stopped where it stands. */
  lemma {:induction false} NewStopped(s: seq<Token>, t: Token, k: nat)
    requires k < Cut(s, t) && s[Cut(s, t) - 1].pos < t.pos
    ensures Stopped(Put(s, Cut(s, t), t), k, Cut(s, t))
  {
    CutStops(s, t);
    PassesExactly(t, s[Cut(s, t) - 1]);
    assert Put(s, Cut(s, t), t)[Cut(s, t) - 1] == s[Cut(s, t) - 1];
  }

  /** The others are still stopped by what stopped them. */
  lemma {:induction false} StillStopped(s: seq<Token>, c: nat, t: Token, k: nat, l: nat)
    requires c <= |s| && k < l < |s| && Stopped(s, k, l)
    ensures Stopped(Put(s, c, t), Skip(c, k), Skip(c, l))
  {
    var m :| k <= m < l && s[m].pos < s[l].pos && !Overtakes(s[l], s[m]);
    var r := Put(s, c, t);
    assert r[Skip(c, m)] == s[m] && r[Skip(c, l)] == s[l];
  }

  /** Before the step was put in, what stands at `k` and `l` was stopped. */
  ghost predicate WasStopped(s: seq<Token>, c: nat, k: nat, l: nat)
    requires k < l <= |s| && c <= |s|
  {
    k == c || l == c || Stopped(s, if k < c then k else k - 1, if l < c then l else l - 1)
  }

  lemma {:induction false} PutStopped(s: seq<Token>, t: Token, k: nat, l: nat)
    requires k < l <= |s| && k != Cut(s, t) && WasStopped(s, Cut(s, t), k, l)
    requires forall j | 0 <= j < |s| :: s[j].pos < t.pos
    ensures Stopped(Put(s, Cut(s, t), t), k, l)
  {
    if l == Cut(s, t) {
      NewStopped(s, t, k);
    } else {
      StillStopped(s, Cut(s, t), t, if k < Cut(s, t) then k else k - 1, if l < Cut(s, t) then l else l - 1);
    }
  }

  lemma {:induction false} PutFar(s: seq<Token>, t: Token)
    requires AsFar(s) && forall j | 0 <= j < |s| :: s[j].pos < t.pos
    ensures AsFar(Put(s, Cut(s, t), t))
  {
    var c := Cut(s, t);
    var r := Put(s, c, t);
    forall k: nat, l: nat | k < l < |r| && r[k].pos < r[l].pos ensures Stopped(r, k, l) {
      assert r[k] == At(s, c, t, k) && r[l] == At(s, c, t, l);
      assert WasStopped(s, c, k, l);
      PutStopped(s, t, k, l);
    }
  }

  /** Reordering moves every step as far as it may. */
  lemma {:induction false} MovesAsFar(s: seq<Token>)
    requires InTextOrder(s)
    ensures AsFar(Reordered(s))
    decreases |s|
  {
    if s != [] {
      var r, t := Reordered(s[..|s| - 1]), s[|s| - 1];
      MovesAsFar(s[..|s| - 1]);
      forall j | 0 <= j < |r| ensures r[j].pos < t.pos {
        Earlier(s, j);
      }
      PutFar(r, t);
    }
  }

  lemma {:induction false} ReorderedArranged(s: seq<Token>)
    requires InTextOrder(s)
    ensures Arranged(s, Reordered(s))
  {
    SameSteps(s);
    MovesAsFar(s);
    var r := Reordered(s);
    forall k, l | 0 <= k < l < |r| ensures r[k].pos < r[l].pos || (r[k].pos > r[l].pos && Overtakes(r[k], r[l])) {
      OnlyPassingInverts(s, k, l);
      PassesExactly(r[k], r[l]);
    }
  }

  // ---------- there is only one such order ----------

  lemma {:induction false} CutIs(s: seq<Token>, t: Token, c: nat)
    requires c <= |s| && (forall j | c <= j < |s| :: Passes(t, s[j])) && (c > 0 ==> !Passes(t, s[c - 1]))
    ensures Cut(s, t) == c
  {
    if c < |s| {
      CutIs(s[..|s| - 1], t, c);
    }
  }

  ghost function Less(r: seq<Token>, i: nat): (q: seq<Token>)
    requires i < |r|
    ensures |q| == |r| - 1 && forall j {:trigger q[j]} | 0 <= j < |q| :: q[j] == r[Skip(i, j)]
  {
    r[..i] + r[i + 1..]
  }

  /** Leaving out the step written last leaves the others in order and as far as they may. */
  lemma {:induction false} LessArranged(r: seq<Token>, i: nat)
    requires InOrder(r) && AsFar(r) && i < |r| && forall j | 0 <= j < |r| :: r[j].pos <= r[i].pos
    ensures InOrder(Less(r, i)) && AsFar(Less(r, i))
  {
    var q := Less(r, i);
    forall k: nat, l: nat | k < l < |q| && q[k].pos < q[l].pos ensures Stopped(q, k, l) {
      assert Stopped(r, Skip(i, k), Skip(i, l));
      var m :| Skip(i, k) <= m < Skip(i, l) && r[m].pos < r[Skip(i, l)].pos && !Overtakes(r[Skip(i, l)], r[m]);
      assert m != i;
      assert q[if m < i then m else m - 1] == r[m];
    }
  }

  lemma {:induction false} LessMultiset(r: seq<Token>, i: nat)
    requires i < |r|
    ensures multiset(r) == multiset(Less(r, i)) + multiset{r[i]}
  {
    assert r == r[..i] + [r[i]] + r[i + 1..];
  }

  /** The last step stands where the cut is. */
  lemma {:induction false} LastAtCut(r: seq<Token>, i: nat)
    requires InOrder(r) && AsFar(r) && i < |r| && forall j | 0 <= j < |r| && j != i :: r[j].pos < r[i].pos
    ensures Cut(Less(r, i), r[i]) == i && Put(Less(r, i), i, r[i]) == r
  {
    var q, t := Less(r, i), r[i];
    forall j | i <= j < |q| ensures Passes(t, q[j]) {
      assert q[j] == r[j + 1];
      PassesExactly(t, q[j]);
    }
    if i > 0 {
      assert Stopped(r, i - 1, i);
      assert q[i - 1] == r[i - 1];
      PassesExactly(t, q[i - 1]);
    }
    CutIs(q, t, i);
  }

  lemma {:induction false} InMultiset(s: seq<Token>, r: seq<Token>, j: nat)
    requires multiset(r) == multiset(s) && j < |r|
    ensures r[j] in s
  {
    assert r[j] in multiset(r);
  }

  lemma {:induction false} MultisetLess(s: seq<Token>, r: seq<Token>, i: nat)
    requires s != [] && multiset(r) == multiset(s) && i < |r| && r[i] == s[|s| - 1]
    ensures multiset(Less(r, i)) == multiset(s[..|s| - 1])
  {
    LessMultiset(r, i);
    assert s == s[..|s| - 1] + [s[|s| - 1]];
    assert multiset(Less(r, i)) == multiset(r) - multiset{r[i]};
  }

  lemma {:induction false} LastLatest(s: seq<Token>, r: seq<Token>) returns (i: nat)
    requires InTextOrder(s) && s != [] && multiset(r) == multiset(s)
    ensures i < |r| && r[i] == s[|s| - 1] && multiset(Less(r, i)) == multiset(s[..|s| - 1])
    ensures forall j | 0 <= j < |r| && j != i :: r[j].pos < r[i].pos
  {
    InMultiset(r, s, |s| - 1);
    i :| 0 <= i < |r| && r[i] == s[|s| - 1];
    MultisetLess(s, r, i);
    forall j | 0 <= j < |r| && j != i ensures r[j].pos < r[i].pos {
      var j' := if j < i then j else j - 1;
      InMultiset(s[..|s| - 1], Less(r, i), j');
      assert Less(r, i)[j'] == r[j];
    }
  }

  /** Reordering is the only arrangement of the steps that is in order and as far as may be. */
  lemma {:induction false} OnlyArrangement(s: seq<Token>, r: seq<Token>)
    requires InTextOrder(s) && Arranged(s, r)
    ensures r == Reordered(s)
    decreases |s|
  {
    if s == [] {
      assert r == [] by {
        assert |multiset(r)| == 0;
      }
    } else {
      var i := LastLatest(s, r);
      LessArranged(r, i);
      OnlyArrangement(s[..|s| - 1], Less(r, i));
      LastAtCut(r, i);
    }
  }

  // ---------- the classes in the result ----------

  /** A step that keeps later ones back although their class is earlier: a where
      with a sub-query, which they meet as a where, or an as before a tied step. */
  ghost predicate Holds(x: Token, t: Token) {
    x.pos < t.pos && ((x.kind == Where && x.sub) || Tied(t, x))
  }

  ghost predicate Held(r: seq<Token>, k: nat, l: nat)
    requires k < l < |r|
  {
    exists m, n | k <= m < n <= l :: Holds(r[m], r[n])
  }

  /** Between two fixed steps, two steps of the same class stand in text order. */
  lemma {:induction false} Stable(s: seq<Token>, k: nat, l: nat, c: nat)
    requires InTextOrder(s) && k < l < |s| && Ranks(Reordered(s)[k], c) && Ranks(Reordered(s)[l], c)
    ensures Reordered(s)[k].pos < Reordered(s)[l].pos
  {
    var r := Reordered(s);
    ReorderedArranged(s);
    if Overtakes(r[k], r[l]) {
      PassesExactly(r[k], r[l]);
      ClassIs(r[k].kind, c);
      ClassIs(r[l].kind, c);
      ClassIs(And, c);
    }
  }

  /** Between two fixed steps, a later class stands before an earlier one only
      around a step that keeps back another. */
  lemma {:induction false} ClassOrder(s: seq<Token>, k: nat, l: nat, c: nat, d: nat)
    requires InTextOrder(s) && k < l < |s| && Ranks(Reordered(s)[k], c) && Ranks(Reordered(s)[l], d) && d < c
    requires forall m | k <= m <= l :: !Reordered(s)[m].kind.Fixed?
    ensures Held(Reordered(s), k, l)
    decreases l
  {
    var r := Reordered(s);
    ReorderedArranged(s);
    RankIs(r[k], c);
    RankIs(r[l], d);
    PassesExactly(r[k], r[l]);
    assert Stopped(r, k, l);
    var m :| k <= m < l && r[m].pos < r[l].pos && !Overtakes(r[l], r[m]);
    PassesExactly(r[l], r[m]);
    if Holds(r[m], r[l]) {
      assert Held(r, k, l);
    } else {
      var e := Moving(r[m]);
      RankIs(r[m], e);
      ClassOrder(s, k, m, c, e);
    }
  }

  lemma {:induction false} RankIs(t: Token, c: nat)
    ensures Ranks(t, c) <==> Moving(t) == c
  {
    if c < |Classes| {
      ClassIs(And, c);
      ClassIs(t.kind, c);
    }
  }
}
