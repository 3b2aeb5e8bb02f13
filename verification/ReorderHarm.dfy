/** Exactly when reordering keeps what a query means. */
module ReorderHarm {
  import opened Reorder
  import opened ReorderMeaning

  /** The step at `k` was written behind the one at `l`, stands before it now, and must not. */
  predicate Harm(r: seq<Token>, k: nat, l: nat)
    requires k < l < |r|
  {
    r[k].pos > r[l].pos && (Breaks(r[k], r[l]) || (BreaksRepeats(r[k], r[l]) && !Deduped(r[..k])))
  }

  predicate Harmed(r: seq<Token>) {
    exists k, l | 0 <= k < l < |r| :: Harm(r, k, l)
  }

  // ---------- without harm the meaning is kept ----------

  /** Taking a filter out of a query does not end a stretch without repeated values. */
  lemma {:induction false} DedupedWithout(s: seq<Token>, c: nat, t: Token)
    requires c <= |s| && Filtering(t.kind) && Deduped(Put(s, c, t))
    ensures Deduped(s)
    decreases |s|
  {
    PutSnoc(s, c, t);
    if c == |s| {
      assert (s + [t])[..|s|] == s;
    } else {
      var init := s[..|s| - 1];
      assert (Put(init, c, t) + [s[|s| - 1]])[..|s|] == Put(init, c, t);
      if !Unkeyed(s[|s| - 1]) {
        DedupedWithout(init, c, t);
      }
    }
  }

  lemma {:induction false} PutPrefix(s: seq<Token>, c: nat, t: Token, k: nat)
    requires c <= |s| && k <= |s|
    ensures k <= c ==> Put(s, c, t)[..k] == s[..k]
    ensures c <= k ==> Put(s, c, t)[..k + 1] == Put(s[..k], c, t)
  {
  }

  /** The place of a step after `t` was put at `c`. */
  function Moved(c: nat, k: nat): nat {
    if k < c then k else k + 1
  }

  lemma {:induction false} NotDedupedAfter(s: seq<Token>, t: Token, k: nat)
    requires k < |s| && Filtering(s[k].kind) && !Deduped(s[..k])
    ensures !Deduped(Put(s, Cut(s, t), t)[..Moved(Cut(s, t), k)])
  {
    var c := Cut(s, t);
    PutPrefix(s, c, t, k);
    if c <= k {
      CutPassed(s, t, k);
      if Deduped(Put(s[..k], c, t)) {
        DedupedWithout(s[..k], c, t);
      }
    }
  }

  /** Harm done by an early move is not undone. */
  lemma {:induction false} HarmStays(s: seq<Token>, t: Token, k: nat, l: nat)
    requires k < l < |s| && Harm(s, k, l)
    ensures Harmed(Put(s, Cut(s, t), t))
  {
    var c := Cut(s, t);
    if !Breaks(s[k], s[l]) {
      NotDedupedAfter(s, t, k);
    }
    assert Harm(Put(s, c, t), Moved(c, k), Moved(c, l));
  }

  /** A move that does no harm is a harmless one. */
  lemma {:induction false} LastHarmless(s: seq<Token>, t: Token)
    requires !Harmed(Put(s, Cut(s, t), t)) && forall j | 0 <= j < |s| :: s[j].pos < t.pos
    ensures Harmless(s, Cut(s, t), t)
  {
    var c := Cut(s, t);
    var r := Put(s, c, t);
    PutPrefix(s, c, t, c);
    forall j | c <= j < |s| ensures Passes(t, s[j]) && !Breaks(t, s[j]) && (BreaksRepeats(t, s[j]) ==> Deduped(s[..c])) {
      CutPassed(s, t, j);
      assert r[c] == t && r[j + 1] == s[j];
      assert !Harm(r, c, j + 1);
    }
  }

  /** An unharmed query returns the same list of histories and values as before. */
  lemma {:induction false} UnharmedMeans(m: Sem, s: seq<Token>, xs: seq<Item>)
    requires InTextOrder(s) && !Harmed(Reordered(s))
    ensures Eval(m, Reordered(s), xs) == Eval(m, s, xs)
    decreases |s|
  {
    if s != [] {
      var init, t := s[..|s| - 1], s[|s| - 1];
      var r := Reordered(init);
      if Harmed(r) {
        var k, l :| 0 <= k < l < |r| && Harm(r, k, l);
        HarmStays(r, t, k, l);
      }
      UnharmedMeans(m, init, xs);
      forall j | 0 <= j < |r| ensures r[j].pos < t.pos {
        Earlier(s, j);
      }
      LastHarmless(r, t);
      PutMeans(m, r, Cut(r, t), t, xs);
      EvalSnoc(m, r, t, xs);
    }
  }

  // ---------- a harmed query means something else ----------

  const MARK: History := [(0, 2)]

  /** Steps that do nothing, except those written at `p` and `q`; fixed steps
      before `q` start again from `base`. */
  ghost function Probe(p: int, q: int, base: seq<Item>): Sem {
    Sem((t: Token, v: Value) => t.pos != p || v == 2,
        (t: Token, x: Item) => t.pos != p || x.hist == MARK,
        (t: Token, h: History) => if t.pos == p || t.pos == q then [] else h,
        (t: Token, h: History, v: Value) => if t.pos == q then MARK else h,
        (t: Token, v: Value) => if t.pos == q then -v else 0,
        (t: Token, ys: seq<Item>) => if t.pos < q then base else ys)
  }

  /** At most two items, told apart by their labels. */
  ghost predicate Small(ys: seq<Item>) {
    |ys| <= 2 && (|ys| == 2 ==> ys[0].hist != ys[1].hist)
  }

  lemma {:induction false} OnOne(m: Sem, t: Token, ys: seq<Item>)
    requires |ys| == 1
    ensures Filter(m, t, ys) == if Keeps(m, t, ys[0]) then ys else []
    ensures Distinct(m, t, ys) == Sort(m, t, ys) == ys && TagAll(m, t, ys) == [Tag(m, t, ys[0])]
    ensures forall k :: Seen(m, t, ys, k) <==> MarkOf(m, t, ys[0]) == k
  {
    assert ys[..0] == [] && ys == [ys[0]];
  }

  lemma {:induction false} FilterTwo(m: Sem, t: Token, ys: seq<Item>)
    requires |ys| == 2
    ensures Filter(m, t, ys) ==
            (if Keeps(m, t, ys[0]) then [ys[0]] else []) + if Keeps(m, t, ys[1]) then [ys[1]] else []
  {
    OnOne(m, t, ys[..1]);
    assert ys[..1] == [ys[0]];
  }

  lemma {:induction false} DistinctTwo(m: Sem, t: Token, ys: seq<Item>)
    requires |ys| == 2
    ensures Distinct(m, t, ys) == if MarkOf(m, t, ys[0]) == MarkOf(m, t, ys[1]) then [ys[0]] else ys
  {
    OnOne(m, t, ys[..1]);
    assert ys[..1] == [ys[0]];
  }

  lemma {:induction false} TagTwo(m: Sem, t: Token, ys: seq<Item>)
    requires |ys| == 2
    ensures TagAll(m, t, ys) == [Tag(m, t, ys[0]), Tag(m, t, ys[1])]
  {
    OnOne(m, t, ys[..1]);
  }

  lemma {:induction false} SortTwo(m: Sem, t: Token, ys: seq<Item>)
    requires |ys| == 2
    ensures Sort(m, t, ys) == if m.key(t, ys[0].v) <= m.key(t, ys[1].v) then ys else [ys[1], ys[0]]
  {
    OnOne(m, t, ys[..1]);
    var one, y := ys[..1], ys[1];
    assert Sort(m, t, ys) == Ins(m, t, one, y) && ys == one + [y];
    assert Ins(m, t, one[..0], y) == [y];
  }

  lemma {:induction false} UniqueTwo(ys: seq<Item>)
    requires |ys| <= 2
    ensures Unique(ys) <==> |ys| == 2 ==> ys[0].v != ys[1].v
  {
    if |ys| == 2 {
      UniqueOne(ys[..1]);
    } else if |ys| == 1 {
      UniqueOne(ys);
    }
  }

  lemma {:induction false} UniqueOne(ys: seq<Item>)
    requires |ys| == 1
    ensures Unique(ys) && forall v :: Contains(ys, v) <==> ys[0].v == v
  {
    assert Unique(ys[..0]) && !Contains(ys[..0], ys[0].v);
  }

  lemma {:induction false} ProbeIdle(p: int, q: int, base: seq<Item>, t: Token, x: Item)
    requires t.pos != p && t.pos != q
    ensures var m := Probe(p, q, base);
      && Keeps(m, t, x) && Tag(m, t, x) == x && m.key(t, x.v) == 0
      && MarkOf(m, t, x) == if Keyed(t) then OfLabels(x.hist) else OfValue(x.v)
  {
  }

  lemma {:induction false} StillTwo(m: Sem, t: Token, ys: seq<Item>)
    requires |ys| == 2 && forall i | 0 <= i < 2 :: Keeps(m, t, ys[i]) && Tag(m, t, ys[i]) == ys[i]
    requires m.key(t, ys[0].v) == m.key(t, ys[1].v) && Priority(t.kind) != -1
    requires t.kind == Dedup ==> MarkOf(m, t, ys[0]) != MarkOf(m, t, ys[1])
    ensures Step(m, t, ys) == ys
  {
    FilterTwo(m, t, ys);
    DistinctTwo(m, t, ys);
    TagTwo(m, t, ys);
    SortTwo(m, t, ys);
    assert ys == [ys[0], ys[1]];
  }

  lemma {:induction false} StillOne(m: Sem, t: Token, ys: seq<Item>)
    requires |ys| == 1 && Keeps(m, t, ys[0]) && Tag(m, t, ys[0]) == ys[0] && Priority(t.kind) != -1
    ensures Step(m, t, ys) == ys
  {
    OnOne(m, t, ys);
    assert ys == [ys[0]];
  }

  /** The other steps do nothing. */
  lemma {:induction false} StepIdle(p: int, q: int, base: seq<Item>, t: Token, ys: seq<Item>)
    requires t.pos != p && t.pos != q && Small(ys) && (Unkeyed(t) ==> Unique(ys))
    requires Priority(t.kind) == -1 ==> t.pos > q || ys == base
    ensures Step(Probe(p, q, base), t, ys) == ys
  {
    var m := Probe(p, q, base);
    forall i | 0 <= i < |ys| ensures Keeps(m, t, ys[i]) && Tag(m, t, ys[i]) == ys[i] {
      ProbeIdle(p, q, base, t, ys[i]);
    }
    if Priority(t.kind) == -1 {
    } else if |ys| == 1 {
      StillOne(m, t, ys);
    } else if |ys| == 2 {
      UniqueTwo(ys);
      ProbeIdle(p, q, base, t, ys[0]);
      ProbeIdle(p, q, base, t, ys[1]);
      StillTwo(m, t, ys);
    }
  }

  /** `f` is where the first of the two special steps stands, `g` the second. */
  ghost predicate Around(s: seq<Token>, f: nat, g: nat, p: int, q: int) {
    && f < g < |s| && {s[f].pos, s[g].pos} == {p, q}
    && (forall i | 0 <= i < |s| && i != f && i != g :: s[i].pos != p && s[i].pos != q)
    && (forall i | 0 <= i < |s| && Priority(s[i].kind) == -1 :: if i < f then s[i].pos < q else s[i].pos > q)
  }

  lemma {:induction false} EvalNext(m: Sem, s: seq<Token>, i: nat, xs: seq<Item>)
    requires i < |s|
    ensures Eval(m, s[..i + 1], xs) == Step(m, s[i], Eval(m, s[..i], xs))
  {
    assert s[..i + 1][..i] == s[..i];
  }

  /** A stretch of steps that do nothing. */
  lemma {:induction false} IdleRun(m: Sem, s: seq<Token>, i: nat, j: nat, xs: seq<Item>, ys: seq<Item>)
    requires i <= j <= |s| && Eval(m, s[..i], xs) == ys && forall k | i <= k < j :: Step(m, s[k], ys) == ys
    ensures Eval(m, s[..j], xs) == ys
    decreases j - i
  {
    if i < j {
      EvalNext(m, s, i, xs);
      IdleRun(m, s, i + 1, j, xs, ys);
    }
  }

  lemma {:induction false} Idle(s: seq<Token>, f: nat, g: nat, p: int, q: int, base: seq<Item>, ys: seq<Item>, k: nat)
    requires Around(s, f, g, p, q) && f < k < |s| && k != g && Small(ys) && Unique(ys)
    ensures Step(Probe(p, q, base), s[k], ys) == ys
  {
    StepIdle(p, q, base, s[k], ys);
  }

  /** Up to the first of the two special steps the items are those of `base`. */
  lemma {:induction false} Before(s: seq<Token>, f: nat, g: nat, p: int, q: int, base: seq<Item>, i: nat)
    requires Around(s, f, g, p, q) && i <= f && Small(base) && (Unique(base) || !Deduped(s[..i]))
    ensures Eval(Probe(p, q, base), s[..i], base) == base
    decreases i
  {
    if i > 0 {
      EvalNext(Probe(p, q, base), s, i - 1, base);
      if Priority(s[i - 1].kind) != -1 {
        assert s[..i][..i - 1] == s[..i - 1];
        Before(s, f, g, p, q, base, i - 1);
        StepIdle(p, q, base, s[i - 1], base);
      }
    }
  }

  /** Or what an unkeyed dedup leaves of them. */
  lemma {:induction false} BeforeTwin(s: seq<Token>, f: nat, g: nat, p: int, q: int, base: seq<Item>, i: nat)
    requires Around(s, f, g, p, q) && i <= f && |base| == 2 && Small(base) && base[0].v == base[1].v
    ensures Eval(Probe(p, q, base), s[..i], base) in {base, base[..1]}
    decreases i
  {
    if i > 0 {
      EvalNext(Probe(p, q, base), s, i - 1, base);
      if Priority(s[i - 1].kind) != -1 {
        BeforeTwin(s, f, g, p, q, base, i - 1);
        TwinStep(p, q, base, s[i - 1]);
      }
    }
  }

  lemma {:induction false} TwinStep(p: int, q: int, base: seq<Item>, t: Token)
    requires t.pos != p && t.pos != q && Priority(t.kind) != -1
    requires |base| == 2 && Small(base) && base[0].v == base[1].v
    ensures Step(Probe(p, q, base), t, base) in {base, base[..1]}
    ensures Step(Probe(p, q, base), t, base[..1]) == base[..1]
  {
    UniqueTwo(base[..1]);
    StepIdle(p, q, base, t, base[..1]);
    if Unkeyed(t) {
      DistinctTwo(Probe(p, q, base), t, base);
    } else {
      StepIdle(p, q, base, t, base);
    }
  }

  /** One step that matters, and then nothing happens up to `j`. */
  lemma {:induction false} RunOne(m: Sem, s: seq<Token>, f: nat, j: nat, xs: seq<Item>, ys: seq<Item>)
    requires f < j <= |s| && Step(m, s[f], Eval(m, s[..f], xs)) == ys && forall k | f < k < j :: Step(m, s[k], ys) == ys
    ensures Eval(m, s[..j], xs) == ys
  {
    EvalNext(m, s, f, xs);
    IdleRun(m, s, f + 1, j, xs, ys);
  }

  lemma {:induction false} RunPair(s: seq<Token>, f: nat, g: nat, p: int, q: int, base: seq<Item>, ys: seq<Item>, zs: seq<Item>)
    requires Around(s, f, g, p, q) && Small(ys) && Unique(ys) && Small(zs) && Unique(zs)
    requires Step(Probe(p, q, base), s[f], Eval(Probe(p, q, base), s[..f], base)) == ys
    requires Step(Probe(p, q, base), s[g], ys) == zs
    ensures Eval(Probe(p, q, base), s, base) == zs
  {
    var m := Probe(p, q, base);
    forall k | f < k < g ensures Step(m, s[k], ys) == ys {
      Idle(s, f, g, p, q, base, ys, k);
    }
    forall k | g < k < |s| ensures Step(m, s[k], zs) == zs {
      Idle(s, f, g, p, q, base, zs, k);
    }
    RunOne(m, s, f, g, base, ys);
    RunOne(m, s, g, |s|, base, zs);
    assert s[..|s|] == s;
  }

  // ---------- the four kinds of harm ----------

  /** The two steps where they were written, the one at `q` first, and where
      they stand after reordering, the one at `p` first. */
  ghost predicate Swapped(s: seq<Token>, i: nat, j: nat, r: seq<Token>, k: nat, l: nat, p: int, q: int) {
    && Around(s, i, j, p, q) && Around(r, k, l, p, q) && q < p
    && r[k] == s[j] && s[j].pos == p && r[l] == s[i] && s[i].pos == q
  }

  ghost predicate Differ(s: seq<Token>, r: seq<Token>, m: Sem, xs: seq<Item>) {
    Eval(m, r, xs) != Eval(m, s, xs)
  }

  /** Two items; `v` tells whether the second repeats the value of the first. */
  function Two(v: Value): (ys: seq<Item>)
    ensures |ys| == 2 && ys[0].hist != ys[1].hist && ys[0].v == 1 && ys[1].v == v && ys[1].hist == MARK != ys[0].hist
  {
    [Item([(0, 1)], 1), Item(MARK, v)]
  }

  /** What the steps at `p` and `q` do. */
  lemma {:induction false} FilterStep(p: int, q: int, base: seq<Item>, t: Token, v: Value)
    requires Filtering(t.kind) && t.pos == p && (v == 2 || LabelFilter(t))
    ensures Step(Probe(p, q, base), t, Two(v)) == Two(v)[1..]
    ensures Step(Probe(p, q, base), t, Two(v)[..1]) == []
  {
    var m, ys := Probe(p, q, base), Two(v);
    FilterTwo(m, t, ys);
    OnOne(m, t, ys[..1]);
    assert !Keeps(m, t, ys[0]) && Keeps(m, t, ys[1]);
  }

  lemma {:induction false} DedupStep(p: int, q: int, base: seq<Item>, t: Token, ys: seq<Item>)
    requires t.kind == Dedup && (t.pos == p || t.pos == q) && |ys| <= 2 && (!Keyed(t) && |ys| == 2 ==> ys[0].v == ys[1].v)
    ensures Step(Probe(p, q, base), t, ys) == if |ys| == 2 then ys[..1] else ys
  {
    var m := Probe(p, q, base);
    if |ys| == 2 {
      DistinctTwo(m, t, ys);
      assert ys[..1] == [ys[0]];
    } else if |ys| == 1 {
      OnOne(m, t, ys);
    }
  }

  lemma {:induction false} OrderStep(p: int, q: int, base: seq<Item>, t: Token)
    requires t.kind == Order && t.pos == q
    ensures Step(Probe(p, q, base), t, Two(2)) == [Two(2)[1], Two(2)[0]]
    ensures Step(Probe(p, q, base), t, Two(2)[..1]) == Two(2)[..1]
  {
    SortTwo(Probe(p, q, base), t, Two(2));
    OnOne(Probe(p, q, base), t, Two(2)[..1]);
  }

  lemma {:induction false} TwoFacts(v: Value)
    ensures Small(Two(v)) && (Unique(Two(v)) <==> v != 1)
    ensures Small(Two(v)[..1]) && Unique(Two(v)[..1]) && Small(Two(v)[1..]) && Unique(Two(v)[1..])
    ensures Small([]) && Unique([])
  {
    UniqueTwo(Two(v));
    UniqueTwo(Two(v)[..1]);
    UniqueTwo(Two(v)[1..]);
  }

  /** A filter in front of a keyed dedup: dedup keeps the first item of a key,
      the filter may want another one. */
  lemma {:induction false} FilterKeyed(s: seq<Token>, i: nat, j: nat, r: seq<Token>, k: nat, l: nat, p: int, q: int)
    requires Swapped(s, i, j, r, k, l, p, q) && Filtering(r[k].kind) && Keyed(r[l])
    ensures Differ(s, r, Probe(p, q, Two(2)), Two(2))
  {
    var xs := Two(2);
    TwoFacts(2);
    Before(s, i, j, p, q, xs, i);
    Before(r, k, l, p, q, xs, k);
    FilterStep(p, q, xs, r[k], 2);
    DedupStep(p, q, xs, r[l], xs);
    DedupStep(p, q, xs, r[l], xs[1..]);
    RunPair(s, i, j, p, q, xs, xs[..1], []);
    RunPair(r, k, l, p, q, xs, xs[1..], xs[1..]);
  }

  /** A keyed dedup in front of an order: another item comes first. */
  lemma {:induction false} KeyedOrder(s: seq<Token>, i: nat, j: nat, r: seq<Token>, k: nat, l: nat, p: int, q: int)
    requires Swapped(s, i, j, r, k, l, p, q) && Keyed(r[k]) && r[l].kind == Order
    ensures Differ(s, r, Probe(p, q, Two(2)), Two(2))
  {
    var xs := Two(2);
    var back := [xs[1], xs[0]];
    TwoFacts(2);
    UniqueTwo(back);
    Before(s, i, j, p, q, xs, i);
    Before(r, k, l, p, q, xs, k);
    OrderStep(p, q, xs, r[l]);
    DedupStep(p, q, xs, r[k], xs);
    DedupStep(p, q, xs, r[k], back);
    assert back[..1] == xs[1..] && xs[..1][0] != xs[1..][0];
    RunPair(s, i, j, p, q, xs, back, xs[1..]);
    RunPair(r, k, l, p, q, xs, xs[..1], xs[..1]);
  }

  lemma {:induction false} AsStep(p: int, q: int, base: seq<Item>, t: Token, ys: seq<Item>)
    requires t.kind == As && t.pos == q && |ys| == 1
    ensures Step(Probe(p, q, base), t, ys) == [Item(MARK, ys[0].v)]
    ensures Step(Probe(p, q, base), t, []) == []
  {
    OnOne(Probe(p, q, base), t, ys);
  }

  lemma {:induction false} LabelStep(p: int, q: int, base: seq<Item>, t: Token, ys: seq<Item>)
    requires LabelFilter(t) && t.pos == p && |ys| == 1
    ensures Step(Probe(p, q, base), t, ys) == if ys[0].hist == MARK then ys else []
  {
    OnOne(Probe(p, q, base), t, ys);
  }

  /** A label-reading sub-query in front of the as it refers to. */
  lemma {:induction false} FilterAs(s: seq<Token>, i: nat, j: nat, r: seq<Token>, k: nat, l: nat, p: int, q: int)
    requires Swapped(s, i, j, r, k, l, p, q) && LabelFilter(r[k]) && r[l].kind == As
    ensures Differ(s, r, Probe(p, q, Two(2)[..1]), Two(2)[..1])
  {
    var xs := Two(2)[..1];
    var tagged := [Item(MARK, 1)];
    TwoFacts(2);
    UniqueTwo(tagged);
    Before(s, i, j, p, q, xs, i);
    Before(r, k, l, p, q, xs, k);
    AsStep(p, q, xs, r[l], xs);
    LabelStep(p, q, xs, r[k], xs);
    LabelStep(p, q, xs, r[k], tagged);
    RunPair(s, i, j, p, q, xs, tagged, tagged);
    RunPair(r, k, l, p, q, xs, [], []);
  }

  /** A label-reading filter in front of the first unkeyed dedup since a fixed
      step: dedup keeps the first item of a value, the filter may want another one. */
  lemma {:induction false} FilterUnkeyed(s: seq<Token>, i: nat, j: nat, r: seq<Token>, k: nat, l: nat, p: int, q: int)
    requires Swapped(s, i, j, r, k, l, p, q) && LabelFilter(r[k]) && Unkeyed(r[l]) && !Deduped(r[..k])
    ensures Differ(s, r, Probe(p, q, Two(1)), Two(1))
  {
    var xs := Two(1);
    TwoFacts(1);
    BeforeTwin(s, i, j, p, q, xs, i);
    Before(r, k, l, p, q, xs, k);
    FilterStep(p, q, xs, r[k], 1);
    DedupStep(p, q, xs, r[l], xs);
    DedupStep(p, q, xs, r[l], xs[..1]);
    DedupStep(p, q, xs, r[l], xs[1..]);
    RunPair(s, i, j, p, q, xs, xs[..1], []);
    RunPair(r, k, l, p, q, xs, xs[1..], xs[1..]);
  }

  // ---------- both directions ----------

  lemma {:induction false} AroundText(s: seq<Token>, i: nat, j: nat)
    requires InTextOrder(s) && i < j < |s| && Priority(s[i].kind) != -1
    ensures Around(s, i, j, s[j].pos, s[i].pos)
  {
  }

  lemma {:induction false} AroundReordered(s: seq<Token>, k: nat, l: nat)
    requires InTextOrder(s) && k < l < |s| && Reordered(s)[k].pos > Reordered(s)[l].pos
    ensures Around(Reordered(s), k, l, Reordered(s)[k].pos, Reordered(s)[l].pos)
  {
    var r := Reordered(s);
    OnlyPassingInverts(s, k, l);
    forall i | 0 <= i < |r| && i != k && i != l
      ensures r[i].pos != r[k].pos && r[i].pos != r[l].pos
      ensures Priority(r[i].kind) == -1 ==> if i < k then r[i].pos < r[l].pos else r[i].pos > r[l].pos
    {
      OnlyPassingInverts(s, if i < k then i else k, if i < k then k else i);
      OnlyPassingInverts(s, if i < l then i else l, if i < l then l else i);
    }
  }

  lemma {:induction false} Swaps(s: seq<Token>, k: nat, l: nat) returns (i: nat, j: nat)
    requires InTextOrder(s) && k < l < |s| && Reordered(s)[k].pos > Reordered(s)[l].pos
    ensures Swapped(s, i, j, Reordered(s), k, l, Reordered(s)[k].pos, Reordered(s)[l].pos)
  {
    var r := Reordered(s);
    FromInput(s, k);
    FromInput(s, l);
    j :| 0 <= j < |s| && s[j] == r[k];
    i :| 0 <= i < |s| && s[i] == r[l];
    OnlyPassingInverts(s, k, l);
    AroundReordered(s, k, l);
    AroundText(s, i, j);
  }

  /** A harmed query returns something else for some meaning of its steps and some input. */
  lemma {:induction false} HarmedDiffers(s: seq<Token>) returns (m: Sem, xs: seq<Item>)
    requires InTextOrder(s) && Harmed(Reordered(s))
    ensures Eval(m, Reordered(s), xs) != Eval(m, s, xs)
  {
    var r := Reordered(s);
    var k, l :| 0 <= k < l < |r| && Harm(r, k, l);
    var p, q := r[k].pos, r[l].pos;
    var i, j := Swaps(s, k, l);
    xs := if r[l].kind == As then Two(2)[..1] else if Unkeyed(r[l]) then Two(1) else Two(2);
    m := Probe(p, q, xs);
    if Keyed(r[l]) {
      FilterKeyed(s, i, j, r, k, l, p, q);
    } else if r[l].kind == Order {
      KeyedOrder(s, i, j, r, k, l, p, q);
    } else if r[l].kind == As {
      FilterAs(s, i, j, r, k, l, p, q);
    } else {
      FilterUnkeyed(s, i, j, r, k, l, p, q);
    }
  }

  /** Reordering keeps the meaning of a query, whatever its steps do and
      whatever they are given, exactly when it does none of the four kinds of harm. */
  lemma {:induction false} MeaningKept(s: seq<Token>)
    requires InTextOrder(s)
    ensures (forall m: Sem, xs: seq<Item> :: Eval(m, Reordered(s), xs) == Eval(m, s, xs)) <==> !Harmed(Reordered(s))
  {
    if Harmed(Reordered(s)) {
      var m, xs := HarmedDiffers(s);
    } else {
      forall m: Sem, xs: seq<Item> ensures Eval(m, Reordered(s), xs) == Eval(m, s, xs) {
        UnharmedMeans(m, s, xs);
      }
    }
  }

  /** No fixed step was written between the two. */
  ghost predicate SameStretch(s: seq<Token>, i: nat, j: nat) {
    forall f | i < f < j && f < |s| :: Priority(s[f].kind) != -1
  }

  /** Steps change places only within a stretch without fixed steps. */
  lemma {:induction false} SwappedInStretch(s: seq<Token>, i: nat, j: nat, k: nat, l: nat)
    requires InTextOrder(s) && i < j < |s| && k < l < |s| && Reordered(s)[k] == s[j] && Reordered(s)[l] == s[i]
    ensures SameStretch(s, i, j)
  {
    forall f | i < f < j ensures Priority(s[f].kind) != -1 {
      if Priority(s[f].kind) == -1 {
        FixedStays(s, f);
        if f < k {
          OnlyPassingInverts(s, f, l);
        } else {
          OnlyPassingInverts(s, k, f);
        }
      }
    }
  }

  /** From the written query alone: when in no stretch without fixed steps a
      step was written behind one that it must not pass, the meaning is kept. */
  lemma {:induction false} WrittenWell(m: Sem, s: seq<Token>, xs: seq<Item>)
    requires InTextOrder(s)
    requires forall i, j | 0 <= i < j < |s| && SameStretch(s, i, j) :: !Breaks(s[j], s[i]) && !BreaksRepeats(s[j], s[i])
    ensures Eval(m, Reordered(s), xs) == Eval(m, s, xs)
  {
    var r := Reordered(s);
    if Harmed(r) {
      var k, l :| 0 <= k < l < |r| && Harm(r, k, l);
      var i, j := Swaps(s, k, l);
      SwappedInStretch(s, i, j, k, l);
      assert false;
    }
    UnharmedMeans(m, s, xs);
  }

  lemma {:induction false} TwoSteps(x: Token, t: Token)
    requires Passes(t, x)
    ensures Reordered([x, t]) == [t, x]
  {
    var s, none := [x, t], [x][..0];
    assert s[..1] == [x] && none == [];
    assert Reordered([x]) == Put(none, Cut(none, x), x) == [x];
    assert Cut([x], t) == Cut(none, t) == 0;
    assert Put([x], 0, t) == [t, x];
  }

  /** dedup().where(eq('a')) */
  lemma {:induction false} DedupWhereDiffers() returns (m: Sem, xs: seq<Item>)
    ensures var s := [Token(Dedup, "", false, false, 0), Token(Where, "eq('a')", false, false, 1)];
            Eval(m, Reordered(s), xs) != Eval(m, s, xs)
  {
    var x, t := Token(Dedup, "", false, false, 0), Token(Where, "eq('a')", false, false, 1);
    TwoSteps(x, t);
    assert !Deduped([t, x][..0]) && Harm([t, x], 0, 1);
    m, xs := HarmedDiffers([x, t]);
  }

  /** as('a').and(where('a', eq('b'))), where the where is hidden in a sub-query. */
  lemma {:induction false} AsAndDiffers() returns (m: Sem, xs: seq<Item>)
    ensures var s := [Token(As, "'a'", false, false, 0), Token(And, "where('a',eq('b'))", true, true, 1)];
            Eval(m, Reordered(s), xs) != Eval(m, s, xs)
  {
    var x, t := Token(As, "'a'", false, false, 0), Token(And, "where('a',eq('b'))", true, true, 1);
    TwoSteps(x, t);
    assert Harm([t, x], 0, 1);
    m, xs := HarmedDiffers([x, t]);
  }
}
