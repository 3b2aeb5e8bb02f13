/** What and/or/not means from end to end: number the input, run the
    sub-queries on the numbered traversers, collect whatever they return in any
    batches and order, and filter. */
module FilterMeaning {
  import opened FanIn
  import opened Options
  import opened BranchFilter

  /** What sub-query `b` returns for one traverser. */
  type Sub = (bv32, History, Value) -> Data

  /** Something comes back with history `h`. */
  ghost predicate Yields(d: Data, h: History) {
    exists j :: 0 <= j < |d| && d[j].0 == h && d[j].1 != []
  }

  ghost predicate Hits(d: Data) {
    exists h :: Yields(d, h)
  }

  /** A sub-query carries the history it was given on. */
  ghost predicate CarriesOn(sub: Sub) {
    forall b, h, v, g :: Yields(sub(b, h, v), g) ==> h <= g
  }

  /** Whether it returns something does not depend on the number it was given. */
  ghost predicate Blind(sub: Sub, key: int, hit: (bv32, History, Value) -> bool) {
    forall b, h: History, v, num :: Hits(sub(b, h + [(key, num)], v)) <==> hit(b, h, v)
  }

  /** Sub-query `b`, run on the labelled traversers, returns something with history `h`. */
  ghost predicate Gives(labelled: Data, sub: Sub, b: bv32, h: History) {
    exists x | x in labelled && x.1 != [] :: Yields(sub(b, x.0, x.1[0]), h)
  }

  /** A message of branch `b` brings something with history `h`. */
  ghost predicate Gets(arrivals: seq<Result>, b: bv32, h: History) {
    exists k :: 0 <= k < |arrivals| && arrivals[k].branch == b && Yields(arrivals[k].data, h)
  }

  /** The messages bring what the sub-queries return, in any batches. */
  ghost predicate Delivered(arrivals: seq<Result>, labelled: Data, sub: Sub, n: bv32) {
    forall b, h | 1 <= b <= n :: Gets(arrivals, b, h) <==> Gives(labelled, sub, b, h)
  }

  lemma {:induction false} OnlyCarriesOn(sub: Sub, b: bv32, h: History, v: Value, g: History)
    requires CarriesOn(sub) && Yields(sub(b, h, v), g)
    ensures h <= g
  {
  }

  lemma {:induction false} BlindAt(sub: Sub, key: int, hit: (bv32, History, Value) -> bool, b: bv32, h: History, v: Value, num: int)
    requires Blind(sub, key, hit)
    ensures Hits(sub(b, h + [(key, num)], v)) <==> hit(b, h, v)
  {
  }

  // ---------- the numbers ----------

  ghost predicate Spot(data: Data, p: nat, k: nat) {
    p < |data| && k < |data[p].1|
  }

  ghost function Number(data: Data, p: nat, k: nat): nat
    requires Spot(data, p, k)
    decreases p
  {
    if p == 0 then k else |data[0].1| + Number(data[1..], p - 1, k)
  }

  lemma {:induction false} NumberUnique(data: Data, p: nat, k: nat, q: nat, l: nat)
    requires Spot(data, p, k) && Spot(data, q, l) && Number(data, p, k) == Number(data, q, l)
    ensures p == q && k == l
    decreases p
  {
    if p > 0 && q > 0 {
      NumberUnique(data[1..], p - 1, k, q - 1, l);
    }
  }

  /** A traverser with its number. */
  ghost function Numbered(h: History, v: Value, key: int, num: int): (History, seq<Value>) {
    (h + [(key, num)], [v])
  }

  /** The labelled traverser of a spot. */
  ghost function Traverser(data: Data, key: int, next: nat, p: nat, k: nat): (History, seq<Value>)
    requires Spot(data, p, k)
  {
    Numbered(data[p].0, data[p].1[k], key, next + Number(data, p, k))
  }

  lemma {:induction false} LabelValuesAt(h: History, vs: seq<Value>, key: int, next: nat)
    ensures |LabelValues(h, vs, key, next)| == |vs|
    ensures forall k | 0 <= k < |vs| :: LabelValues(h, vs, key, next)[k] == Numbered(h, vs[k], key, next + k)
    decreases |vs|
  {
    if vs != [] {
      LabelValuesAt(h, vs[1..], key, next + 1);
      forall k | 0 < k < |vs| ensures LabelValues(h, vs, key, next)[k] == Numbered(h, vs[k], key, next + k) {
        assert LabelValues(h, vs, key, next)[k] == LabelValues(h, vs[1..], key, next + 1)[k - 1];
      }
    }
  }

  lemma {:induction false} InEither<T>(x: T, a: seq<T>, b: seq<T>)
    ensures x in a + b <==> x in a || x in b
  {
  }

  /** `x` is among the labelled pairs. */
  ghost predicate Among(data: Data, key: int, next: nat, x: (History, seq<Value>))
    decreases |data|
  {
    data != [] && (x in LabelPair(data[0], key, next) || Among(data[1..], key, next + |data[0].1|, x))
  }

  lemma {:induction false} AmongLabelled(data: Data, key: int, next: nat, x: (History, seq<Value>))
    ensures Among(data, key, next, x) <==> x in LabelFrom(data, key, next)
    decreases |data|
  {
    if data != [] {
      AmongLabelled(data[1..], key, next + |data[0].1|, x);
      InEither(x, LabelPair(data[0], key, next), LabelFrom(data[1..], key, next + |data[0].1|));
    }
  }

  lemma {:induction false} InFirst(pair: (History, seq<Value>), key: int, next: nat, k: nat)
    requires k < |pair.1|
    ensures Numbered(pair.0, pair.1[k], key, next + k) in LabelPair(pair, key, next)
  {
    LabelValuesAt(pair.0, pair.1, key, next);
    assert LabelPair(pair, key, next)[k] == Numbered(pair.0, pair.1[k], key, next + k);
  }

  lemma {:induction false} FromFirst(pair: (History, seq<Value>), key: int, next: nat, x: (History, seq<Value>)) returns (k: nat)
    requires x in LabelPair(pair, key, next) && x.1 != []
    ensures k < |pair.1| && x == Numbered(pair.0, pair.1[k], key, next + k)
  {
    LabelValuesAt(pair.0, pair.1, key, next);
    k :| 0 <= k < |LabelPair(pair, key, next)| && LabelPair(pair, key, next)[k] == x;
  }

  lemma {:induction false} Shift(data: Data, key: int, next: nat, p: nat, k: nat)
    requires Spot(data, p, k)
    ensures p == 0 ==> Traverser(data, key, next, p, k) == Numbered(data[0].0, data[0].1[k], key, next + k)
    ensures p > 0 ==> Spot(data[1..], p - 1, k)
    ensures p > 0 ==> Traverser(data, key, next, p, k) == Traverser(data[1..], key, next + |data[0].1|, p - 1, k)
  {
  }

  /** How many labelled pairs come from one input pair; one without values is passed on. */
  ghost function Share(pair: (History, seq<Value>)): nat {
    if pair.1 == [] then 1 else |pair.1|
  }

  /** How many labelled pairs come from the first `p` input pairs. */
  ghost function Offset(data: Data, p: nat): nat
    requires p <= |data|
    decreases p
  {
    if p == 0 then 0 else Share(data[0]) + Offset(data[1..], p - 1)
  }

  lemma {:induction false} LabelledShare(pair: (History, seq<Value>), key: int, next: nat, k: nat)
    requires k < Share(pair)
    ensures |LabelPair(pair, key, next)| == Share(pair)
    ensures LabelPair(pair, key, next)[k] == if pair.1 == [] then pair else Numbered(pair.0, pair.1[k], key, next + k)
  {
    LabelValuesAt(pair.0, pair.1, key, next);
  }

  lemma {:induction false} LabelledSize(data: Data, key: int, next: nat)
    ensures |LabelFrom(data, key, next)| == Offset(data, |data|)
    decreases |data|
  {
    if data != [] {
      LabelledShare(data[0], key, next, 0);
      LabelledSize(data[1..], key, next + |data[0].1|);
    }
  }

  lemma {:induction false} LabelledHead(data: Data, key: int, next: nat, k: nat)
    requires data != [] && k < Share(data[0])
    ensures k < |LabelFrom(data, key, next)|
    ensures LabelFrom(data, key, next)[k] == if data[0].1 == [] then data[0] else Numbered(data[0].0, data[0].1[k], key, next + k)
  {
    LabelledShare(data[0], key, next, k);
  }

  lemma {:induction false} LabelledTail(data: Data, key: int, next: nat, i: nat)
    requires data != [] && i < |LabelFrom(data[1..], key, next + |data[0].1|)|
    ensures Share(data[0]) + i < |LabelFrom(data, key, next)|
    ensures LabelFrom(data, key, next)[Share(data[0]) + i] == LabelFrom(data[1..], key, next + |data[0].1|)[i]
  {
    LabelledShare(data[0], key, next, 0);
  }

  /** What is to stand for value `k` of pair `p`; one without values is passed on. */
  ghost function Labelling(data: Data, key: int, next: nat, p: nat, k: nat): (History, seq<Value>)
    requires p < |data| && k < Share(data[p])
  {
    if data[p].1 == [] then data[p] else Traverser(data, key, next, p, k)
  }

  lemma {:induction false} LabellingShift(data: Data, key: int, next: nat, p: nat, k: nat)
    requires 0 < p < |data| && k < Share(data[p])
    ensures Labelling(data, key, next, p, k) == Labelling(data[1..], key, next + |data[0].1|, p - 1, k)
  {
    if data[p].1 != [] {
      Shift(data, key, next, p, k);
    }
  }

  /** Place `o` of the labelled data stands for value `k` of pair `p`. */
  ghost predicate Stands(labelled: Data, o: nat, data: Data, key: int, next: nat, p: nat, k: nat)
    requires p < |data| && k < Share(data[p])
  {
    o < |labelled| && labelled[o] == Labelling(data, key, next, p, k)
  }

  lemma {:induction false} StandsFirst(data: Data, key: int, next: nat, k: nat)
    requires data != [] && k < Share(data[0])
    ensures Stands(LabelFrom(data, key, next), k, data, key, next, 0, k)
  {
    LabelledHead(data, key, next, k);
    if data[0].1 != [] {
      Shift(data, key, next, 0, k);
    }
  }

  lemma {:induction false} StandsNext(data: Data, key: int, next: nat, p: nat, k: nat, o: nat)
    requires 0 < p < |data| && k < Share(data[p])
    requires Stands(LabelFrom(data[1..], key, next + |data[0].1|), o, data[1..], key, next + |data[0].1|, p - 1, k)
    ensures Stands(LabelFrom(data, key, next), Share(data[0]) + o, data, key, next, p, k)
  {
    LabelledTail(data, key, next, o);
    LabellingShift(data, key, next, p, k);
  }

  lemma {:induction false} LabelledThere(data: Data, key: int, next: nat, p: nat, k: nat, o: nat)
    requires p < |data| && k < Share(data[p]) && o == Offset(data, p) + k
    ensures Stands(LabelFrom(data, key, next), o, data, key, next, p, k)
    decreases p
  {
    if p == 0 {
      StandsFirst(data, key, next, k);
    } else {
      LabelledThere(data[1..], key, next + |data[0].1|, p - 1, k, o - Share(data[0]));
      StandsNext(data, key, next, p, k, o - Share(data[0]));
    }
  }

  /** The labelled data, place by place: the pairs in order, each split into its
      values with consecutive numbers, those without values as they were. */
  lemma {:induction false} LabelledAt(data: Data, key: int, next: nat, p: nat, k: nat)
    requires p < |data| && k < Share(data[p])
    ensures Offset(data, p) + k < |LabelFrom(data, key, next)| == Offset(data, |data|)
    ensures LabelFrom(data, key, next)[Offset(data, p) + k] == Labelling(data, key, next, p, k)
  {
    LabelledSize(data, key, next);
    LabelledThere(data, key, next, p, k, Offset(data, p) + k);
  }

  lemma {:induction false} InLabelled(data: Data, key: int, next: nat, p: nat, k: nat)
    requires Spot(data, p, k)
    ensures Among(data, key, next, Traverser(data, key, next, p, k))
    decreases |data|
  {
    Shift(data, key, next, p, k);
    if p == 0 {
      InFirst(data[0], key, next, k);
    } else {
      InLabelled(data[1..], key, next + |data[0].1|, p - 1, k);
    }
  }

  lemma {:induction false} FromLabelled(data: Data, key: int, next: nat, x: (History, seq<Value>)) returns (p: nat, k: nat)
    requires Among(data, key, next, x) && x.1 != []
    ensures Spot(data, p, k) && x == Traverser(data, key, next, p, k)
    decreases |data|
  {
    if x in LabelPair(data[0], key, next) {
      p := 0;
      k := FromFirst(data[0], key, next, x);
    } else {
      p, k := FromLabelled(data[1..], key, next + |data[0].1|, x);
      p := p + 1;
    }
    Shift(data, key, next, p, k);
  }

  lemma {:induction false} FindPrefix(h: History, g: History, key: int)
    requires h <= g && Find(h, key).Some?
    ensures Find(g, key) == Find(h, key)
    decreases |h|
  {
    if h[0].0 != key {
      FindPrefix(h[1..], g[1..], key);
    }
  }

  // ---------- what comes back ----------

  /** Branch `b` returned something for a number exactly when the sub-query has
      a result for the traverser with that number. */
  lemma {:induction false} ReturnedHit(input: Data, key: int, sub: Sub, hit: (bv32, History, Value) -> bool, n: bv32,
                                       arrivals: seq<Result>, b: bv32, p: nat, k: nat)
    requires Unlabelled(input, key) && CarriesOn(sub) && Blind(sub, key, hit) && 1 <= b <= n && Spot(input, p, k)
    requires Delivered(arrivals, LabelFrom(input, key, 0), sub, n)
    ensures Returned(arrivals, key, b, Number(input, p, k)) <==> hit(b, input[p].0, input[p].1[k])
  {
    if hit(b, input[p].0, input[p].1[k]) {
      HitReturned(input, key, sub, hit, n, arrivals, b, p, k);
    }
    if Returned(arrivals, key, b, Number(input, p, k)) {
      ReturnedOnly(input, key, sub, hit, n, arrivals, b, p, k);
    }
  }

  lemma {:induction false} Label(input: Data, key: int, p: nat, k: nat)
    requires Unlabelled(input, key) && Spot(input, p, k)
    ensures Find(Traverser(input, key, 0, p, k).0, key) == Some(Number(input, p, k))
  {
    FindAppended(input[p].0, key, Number(input, p, k));
  }

  lemma {:induction false} HitReturned(input: Data, key: int, sub: Sub, hit: (bv32, History, Value) -> bool, n: bv32,
                                       arrivals: seq<Result>, b: bv32, p: nat, k: nat)
    requires Unlabelled(input, key) && CarriesOn(sub) && Blind(sub, key, hit) && 1 <= b <= n && Spot(input, p, k)
    requires Delivered(arrivals, LabelFrom(input, key, 0), sub, n) && hit(b, input[p].0, input[p].1[k])
    ensures Returned(arrivals, key, b, Number(input, p, k))
  {
    var x := Traverser(input, key, 0, p, k);
    InLabelled(input, key, 0, p, k);
    AmongLabelled(input, key, 0, x);
    BlindAt(sub, key, hit, b, input[p].0, input[p].1[k], Number(input, p, k));
    var h :| Yields(sub(b, x.0, x.1[0]), h);
    assert Gives(LabelFrom(input, key, 0), sub, b, h);
    assert Gets(arrivals, b, h);
    Label(input, key, p, k);
    OnlyCarriesOn(sub, b, x.0, x.1[0], h);
    FindPrefix(x.0, h, key);
    var m :| 0 <= m < |arrivals| && arrivals[m].branch == b && Yields(arrivals[m].data, h);
    assert Carries(arrivals[m].data, key, Number(input, p, k));
  }

  /** Something with number `num` came back with a history the sub-query gave. */
  lemma {:induction false} Source(labelled: Data, key: int, sub: Sub, n: bv32, arrivals: seq<Result>, b: bv32, num: int)
    returns (x: (History, seq<Value>), h: History)
    requires 1 <= b <= n && Delivered(arrivals, labelled, sub, n) && Returned(arrivals, key, b, num)
    ensures x in labelled && x.1 != [] && Yields(sub(b, x.0, x.1[0]), h) && Find(h, key) == Some(num)
  {
    var m :| 0 <= m < |arrivals| && arrivals[m].branch == b && Carries(arrivals[m].data, key, num);
    var d := arrivals[m].data;
    var j :| 0 <= j < |d| && d[j].1 != [] && Find(d[j].0, key) == Some(num);
    h := d[j].0;
    assert Yields(d, h);
    assert Gets(arrivals, b, h);
    assert Gives(labelled, sub, b, h);
    x :| x in labelled && x.1 != [] && Yields(sub(b, x.0, x.1[0]), h);
  }

  lemma {:induction false} ReturnedOnly(input: Data, key: int, sub: Sub, hit: (bv32, History, Value) -> bool, n: bv32,
                                        arrivals: seq<Result>, b: bv32, p: nat, k: nat)
    requires Unlabelled(input, key) && CarriesOn(sub) && Blind(sub, key, hit) && 1 <= b <= n && Spot(input, p, k)
    requires Delivered(arrivals, LabelFrom(input, key, 0), sub, n) && Returned(arrivals, key, b, Number(input, p, k))
    ensures hit(b, input[p].0, input[p].1[k])
  {
    var x, h := Source(LabelFrom(input, key, 0), key, sub, n, arrivals, b, Number(input, p, k));
    OnlyCarriesOn(sub, b, x.0, x.1[0], h);
    AmongLabelled(input, key, 0, x);
    var q, l := FromLabelled(input, key, 0, x);
    Label(input, key, q, l);
    FindPrefix(x.0, h, key);
    NumberUnique(input, p, k, q, l);
    BlindAt(sub, key, hit, b, input[p].0, input[p].1[k], Number(input, p, k));
  }

  // ---------- the filter ----------

  ghost function Chosen(h: History, vs: seq<Value>, want: (History, Value) -> bool): seq<Value>
    decreases |vs|
  {
    if vs == [] then [] else (if want(h, vs[0]) then [vs[0]] else []) + Chosen(h, vs[1..], want)
  }

  /** The traversers that are wanted, in order. */
  ghost function Wanted(data: Data, want: (History, Value) -> bool): Data
    decreases |data|
  {
    if data == [] then [] else [(data[0].0, Chosen(data[0].0, data[0].1, want))] + Wanted(data[1..], want)
  }

  lemma {:induction false} KeepsChosen(h: History, vs: seq<Value>, next: nat, keep: int -> bool, want: (History, Value) -> bool)
    requires forall k | 0 <= k < |vs| :: keep(next + k) == want(h, vs[k])
    ensures KeepValues(vs, next, keep) == Chosen(h, vs, want)
    decreases |vs|
  {
    if vs != [] {
      assert keep(next + 0) == want(h, vs[0]);
      forall k | 0 <= k < |vs[1..]| ensures keep(next + 1 + k) == want(h, vs[1..][k]) {
        assert keep(next + (k + 1)) == want(h, vs[k + 1]);
      }
      KeepsChosen(h, vs[1..], next + 1, keep, want);
    }
  }

  /** A number is kept exactly when its traverser is wanted. */
  ghost predicate Choosing(data: Data, next: nat, keep: int -> bool, want: (History, Value) -> bool) {
    forall p: nat, k: nat | Spot(data, p, k) :: keep(next + Number(data, p, k)) == want(data[p].0, data[p].1[k])
  }

  lemma {:induction false} ChoosingFirst(data: Data, next: nat, keep: int -> bool, want: (History, Value) -> bool)
    requires data != [] && Choosing(data, next, keep, want)
    ensures forall k | 0 <= k < |data[0].1| :: keep(next + k) == want(data[0].0, data[0].1[k])
  {
    forall k | 0 <= k < |data[0].1| ensures keep(next + k) == want(data[0].0, data[0].1[k]) {
      assert Spot(data, 0, k) && Number(data, 0, k) == k;
    }
  }

  lemma {:induction false} ChoosingRest(data: Data, next: nat, keep: int -> bool, want: (History, Value) -> bool)
    requires data != [] && Choosing(data, next, keep, want)
    ensures Choosing(data[1..], next + |data[0].1|, keep, want)
  {
    var rest, n := data[1..], |data[0].1|;
    forall p: nat, k: nat | Spot(rest, p, k) ensures keep(next + n + Number(rest, p, k)) == want(rest[p].0, rest[p].1[k]) {
      assert Spot(data, p + 1, k) && Number(data, p + 1, k) == n + Number(rest, p, k);
    }
  }

  lemma {:induction false} KeepsWanted(data: Data, next: nat, keep: int -> bool, want: (History, Value) -> bool)
    requires Choosing(data, next, keep, want)
    ensures KeepFrom(data, next, keep) == Wanted(data, want)
    decreases |data|
  {
    if data != [] {
      ChoosingFirst(data, next, keep, want);
      KeepsChosen(data[0].0, data[0].1, next, keep, want);
      ChoosingRest(data, next, keep, want);
      KeepsWanted(data[1..], next + |data[0].1|, keep, want);
    }
  }

  /** A traverser is wanted when all, some or no sub-query has a result for it. */
  ghost function Wants(kind: Kind, n: bv32, hit: (bv32, History, Value) -> bool): (History, Value) -> bool {
    (h, v) => Meant(kind, n, HitBy(hit, h, v))
  }

  ghost function HitBy(hit: (bv32, History, Value) -> bool, h: History, v: Value): bv32 -> bool {
    b => hit(b, h, v)
  }

  lemma {:induction false} MeantAgree(kind: Kind, n: bv32, f: bv32 -> bool, g: bv32 -> bool)
    requires forall b: bv32 | 1 <= b <= n :: f(b) == g(b)
    ensures Meant(kind, n, f) == Meant(kind, n, g)
  {
  }

  lemma {:induction false} SameChoice(arrivals: seq<Result>, key: int, kind: Kind, n: bv32, hit: (bv32, History, Value) -> bool,
                                      num: int, h: History, v: Value)
    requires forall b: bv32 | 1 <= b <= n :: Returned(arrivals, key, b, num) <==> hit(b, h, v)
    ensures Logical(kind, arrivals, key, n)(num) == Wants(kind, n, hit)(h, v)
  {
    MeantAgree(kind, n, ReturnedBy(arrivals, key, num), HitBy(hit, h, v));
  }

  /** The sub-queries worked on the numbered input, and their results were delivered. */
  ghost predicate Served(input: Data, key: int, n: bv32, sub: Sub, hit: (bv32, History, Value) -> bool, arrivals: seq<Result>) {
    && Unlabelled(input, key) && CarriesOn(sub) && Blind(sub, key, hit)
    && Delivered(arrivals, LabelFrom(input, key, 0), sub, n)
  }

  lemma {:induction false} ServedHit(input: Data, key: int, n: bv32, sub: Sub, hit: (bv32, History, Value) -> bool,
                                     arrivals: seq<Result>, b: bv32, p: nat, k: nat)
    requires Served(input, key, n, sub, hit, arrivals) && 1 <= b <= n && Spot(input, p, k)
    ensures Returned(arrivals, key, b, Number(input, p, k)) <==> hit(b, input[p].0, input[p].1[k])
  {
    ReturnedHit(input, key, sub, hit, n, arrivals, b, p, k);
  }

  lemma {:induction false} AllServed(input: Data, key: int, n: bv32, sub: Sub, hit: (bv32, History, Value) -> bool,
                                     arrivals: seq<Result>, p: nat, k: nat, num: int, h: History, v: Value)
    requires Served(input, key, n, sub, hit, arrivals) && Spot(input, p, k)
    requires num == Number(input, p, k) && h == input[p].0 && v == input[p].1[k]
    ensures forall b: bv32 | 1 <= b <= n :: Returned(arrivals, key, b, num) <==> hit(b, h, v)
  {
    forall b: bv32 | 1 <= b <= n ensures Returned(arrivals, key, b, num) <==> hit(b, h, v) {
      ServedHit(input, key, n, sub, hit, arrivals, b, p, k);
    }
  }

  lemma {:induction false} SpotMeans(input: Data, key: int, kind: Kind, n: bv32, sub: Sub, hit: (bv32, History, Value) -> bool,
                                     arrivals: seq<Result>, p: nat, k: nat)
    requires Served(input, key, n, sub, hit, arrivals) && Spot(input, p, k)
    ensures Logical(kind, arrivals, key, n)(Number(input, p, k)) == Wants(kind, n, hit)(input[p].0, input[p].1[k])
  {
    var num, h, v := Number(input, p, k), input[p].0, input[p].1[k];
    AllServed(input, key, n, sub, hit, arrivals, p, k, num, h, v);
    SameChoice(arrivals, key, kind, n, hit, num, h, v);
  }

  lemma {:induction false} KeepsServed(input: Data, key: int, kind: Kind, n: bv32, sub: Sub, hit: (bv32, History, Value) -> bool,
                                       arrivals: seq<Result>)
    requires Served(input, key, n, sub, hit, arrivals)
    ensures KeepFrom(input, 0, Logical(kind, arrivals, key, n)) == Wanted(input, Wants(kind, n, hit))
  {
    forall p: nat, k: nat | Spot(input, p, k)
      ensures Logical(kind, arrivals, key, n)(0 + Number(input, p, k)) == Wants(kind, n, hit)(input[p].0, input[p].1[k])
    {
      SpotMeans(input, key, kind, n, sub, hit, arrivals, p, k);
    }
    KeepsWanted(input, 0, Logical(kind, arrivals, key, n), Wants(kind, n, hit));
  }

  /** From the input to the output: and, or and not forward exactly the
      traversers for which all, some or none of the sub-queries have a result,
      with their histories and in order, on the last message and not before. */
  method Filter(input: Data, key: int, kind: Kind, n: bv32, branches: nat, ghost trees: seq<Tree>, end: Path,
                ghost sub: Sub, ghost hit: (bv32, History, Value) -> bool, arrivals: seq<Result>)
    returns (labelled: Data, outs: seq<Option<Data>>)
    requires 1 <= n <= 30 && branches == n as nat && |trees| == branches && trees != []
    requires forall k | 0 <= k < |arrivals| :: 1 <= arrivals[k].branch <= n
    requires multiset(Paths(arrivals)) == multiset(ForestPaths(trees, end))
    requires Served(input, key, n, sub, hit, arrivals)
    ensures labelled == LabelFrom(input, key, 0)
    ensures |outs| == |arrivals| > 0 && forall k | 0 <= k < |outs| - 1 :: outs[k] == None
    ensures outs[|outs| - 1] == Some(Wanted(input, Wants(kind, n, hit)))
  {
    labelled := LabelData(input, key);
    outs := FilterRun(input, key, kind, n, branches, trees, end, arrivals);
    KeepsServed(input, key, kind, n, sub, hit, arrivals);
  }
}
