/** The streaming barriers range and dedup: they take data message by message
    and keep values grouped by history. */
module StreamBarriers {
  import opened DataPairs

  /** One value as it arrived. */
  datatype Item = Item(hist: Hist, value: Value)

  // ---------- grouped data ----------

  /** No history twice, and an entry without values only as the sole one. */
  ghost predicate Grouped(vec: seq<Pair>) {
    && (forall i, j | 0 <= i < j < |vec| :: vec[i].hist != vec[j].hist)
    && (vec != [] && vec[0].values == [] ==> |vec| == 1)
  }

  /** The values stored for a history. */
  ghost function ValuesOf(vec: seq<Pair>, h: Hist): seq<Value> {
    if vec == [] then []
    else if vec[|vec| - 1].hist == h then vec[|vec| - 1].values
    else ValuesOf(vec[..|vec| - 1], h)
  }

  lemma {:induction false} ValuesAt(vec: seq<Pair>, i: nat)
    requires i < |vec| && forall i, j | 0 <= i < j < |vec| :: vec[i].hist != vec[j].hist
    ensures ValuesOf(vec, vec[i].hist) == vec[i].values
  {
    if i < |vec| - 1 {
      ValuesAt(vec[..|vec| - 1], i);
    }
  }

  lemma {:induction false} ValuesAbsent(vec: seq<Pair>, h: Hist)
    requires forall i | 0 <= i < |vec| :: vec[i].hist != h
    ensures ValuesOf(vec, h) == []
  {
    if vec != [] {
      ValuesAbsent(vec[..|vec| - 1], h);
    }
  }

  lemma {:induction false} ValuesUpdate(vec: seq<Pair>, i: nat, vs: seq<Value>, h: Hist)
    requires i < |vec| && forall i, j | 0 <= i < j < |vec| :: vec[i].hist != vec[j].hist
    ensures ValuesOf(vec[i := Pair(vec[i].hist, vs)], h) == if h == vec[i].hist then vs else ValuesOf(vec, h)
  {
    var n := |vec| - 1;
    var vec' := vec[i := Pair(vec[i].hist, vs)];
    if i < n {
      assert vec'[..n] == vec[..n][i := Pair(vec[i].hist, vs)];
      ValuesUpdate(vec[..n], i, vs, h);
    } else {
      assert vec'[..n] == vec[..n];
    }
  }

  lemma {:induction false} ValuesAppendEmpty(vec: seq<Pair>, h: Hist, g: Hist)
    requires forall i | 0 <= i < |vec| :: vec[i].hist != h
    ensures ValuesOf(vec + [Pair(h, [])], g) == ValuesOf(vec, g)
  {
    assert (vec + [Pair(h, [])])[..|vec|] == vec;
    if g == h {
      ValuesAbsent(vec, h);
    }
  }

  /** The same values for every history. */
  ghost predicate SameValues(a: seq<Pair>, b: seq<Pair>) {
    forall h :: ValuesOf(a, h) == ValuesOf(b, h)
  }

  /** The histories that have an entry. */
  ghost function Hists(vec: seq<Pair>): set<Hist> {
    set i | 0 <= i < |vec| :: vec[i].hist
  }

  lemma {:induction false} HistsSnoc(vec: seq<Pair>, p: Pair)
    ensures Hists(vec + [p]) == Hists(vec) + {p.hist}
  {
    var more := vec + [p];
    forall h | h in Hists(vec) + {p.hist} ensures h in Hists(more) {
      if h in Hists(vec) {
        var i :| 0 <= i < |vec| && vec[i].hist == h;
        assert more[i].hist == h;
      } else {
        assert more[|vec|].hist == h;
      }
    }
  }

  /** Find the entry of a history or make one; a sole entry without values is
      thrown away first, which loses nothing. */
  method Slot(vec: seq<Pair>, h: Hist) returns (vec': seq<Pair>, i: nat)
    requires Grouped(vec)
    ensures Grouped(vec') && i < |vec'| && vec'[i].hist == h && SameValues(vec, vec')
    ensures Hists(vec') <= Hists(vec) + {h}
  {
    vec' := vec;
    if vec != [] && vec[0].values == [] {
      vec' := [];
      assert vec[..0] == [];
    }
    i := 0;
    while i < |vec'| && vec'[i].hist != h
      invariant i <= |vec'| && forall j | 0 <= j < i :: vec'[j].hist != h
    {
      i := i + 1;
    }
    if i == |vec'| {
      forall g ensures ValuesOf(vec' + [Pair(h, [])], g) == ValuesOf(vec', g) {
        ValuesAppendEmpty(vec', h, g);
      }
      HistsSnoc(vec', Pair(h, []));
      vec' := vec' + [Pair(h, [])];
    }
  }

  /** Append a value to an entry. */
  method PushAt(vec: seq<Pair>, i: nat, v: Value) returns (vec': seq<Pair>)
    requires Grouped(vec) && i < |vec|
    ensures Grouped(vec') && |vec'| == |vec| && vec'[i].hist == vec[i].hist && Hists(vec') == Hists(vec)
    ensures forall h :: ValuesOf(vec', h) == if h == vec[i].hist then ValuesOf(vec, h) + [v] else ValuesOf(vec, h)
  {
    ValuesAt(vec, i);
    vec' := vec[i := Pair(vec[i].hist, vec[i].values + [v])];
    assert forall j | 0 <= j < |vec| :: vec'[j].hist == vec[j].hist;
    forall h ensures ValuesOf(vec', h) == if h == vec[i].hist then ValuesOf(vec, h) + [v] else ValuesOf(vec, h) {
      ValuesUpdate(vec, i, vec[i].values + [v], h);
    }
  }

  // ---------- what arrived ----------

  ghost function ItemsOf(p: Pair, k: nat): seq<Item>
    requires k <= |p.values|
  {
    if k == 0 then [] else ItemsOf(p, k - 1) + [Item(p.hist, p.values[k - 1])]
  }

  /** The values that arrived for one branch, in order. */
  ghost function Arrivals(branchOf: Hist -> int, log: seq<Pair>, b: int): seq<Item> {
    if log == [] then []
    else
      var p, before := log[|log| - 1], Arrivals(branchOf, log[..|log| - 1], b);
      if branchOf(p.hist) == b then before + ItemsOf(p, |p.values|) else before
  }

  lemma {:induction false} ArrivalsSnoc(branchOf: Hist -> int, log: seq<Pair>, p: Pair, b: int)
    ensures Arrivals(branchOf, log + [p], b) ==
            if branchOf(p.hist) == b then Arrivals(branchOf, log, b) + ItemsOf(p, |p.values|) else Arrivals(branchOf, log, b)
  {
  }

  // ---------- range ----------

  /** Past the upper end; -1 stands for no end. */
  predicate Beyond(end: int, i: int) {
    end != -1 && i > end
  }

  /** The values of one history whose place in the stream lies in the range. */
  ghost function InRange(items: seq<Item>, start: int, end: int, h: Hist): seq<Value> {
    if items == [] then []
    else
      var n := |items| - 1;
      var before := InRange(items[..n], start, end, h);
      if items[n].hist == h && start <= n && !Beyond(end, n) then before + [items[n].value] else before
  }

  /** The values of one history, in order. */
  ghost function OfHist(items: seq<Item>, h: Hist): seq<Value> {
    if items == [] then []
    else if items[|items| - 1].hist == h then OfHist(items[..|items| - 1], h) + [items[|items| - 1].value]
    else OfHist(items[..|items| - 1], h)
  }

  ghost function Clamp(k: int, n: nat): (c: nat)
    ensures c <= n
  {
    if k < 0 then 0 else if k > n then n else k
  }

  /** Where the range ends in a stream of `n`; -1 stands for no end. */
  ghost function RangeEnd(start: int, end: int, n: nat): (c: nat)
    ensures Clamp(start, n) <= c <= n
  {
    var last := if end == -1 then n else Clamp(end + 1, n);
    if last < Clamp(start, n) then Clamp(start, n) else last
  }

  /** The part of a stream that is in range. */
  ghost function Slice(items: seq<Item>, start: int, end: int): seq<Item> {
    items[Clamp(start, |items|)..RangeEnd(start, end, |items|)]
  }

  lemma {:induction false} RangeGrows(start: int, end: int, n: nat)
    ensures start <= n && !Beyond(end, n) ==>
      Clamp(start, n + 1) == Clamp(start, n) && RangeEnd(start, end, n) == n && RangeEnd(start, end, n + 1) == n + 1
    ensures start <= n && Beyond(end, n) ==>
      Clamp(start, n + 1) == Clamp(start, n) && RangeEnd(start, end, n + 1) == RangeEnd(start, end, n)
    ensures start > n ==> Clamp(start, n + 1) == RangeEnd(start, end, n + 1) && Clamp(start, n) == RangeEnd(start, end, n)
  {
  }

  lemma {:induction false} SliceNext(items: seq<Item>, x: Item, start: int, end: int)
    ensures Slice(items + [x], start, end) ==
            if start <= |items| && !Beyond(end, |items|) then Slice(items, start, end) + [x] else Slice(items, start, end)
  {
    RangeGrows(start, end, |items|);
  }

  lemma {:induction false} OfHistNext(items: seq<Item>, x: Item, h: Hist)
    ensures OfHist(items + [x], h) == if x.hist == h then OfHist(items, h) + [x.value] else OfHist(items, h)
  {
    assert (items + [x])[..|items|] == items;
  }

  /** What is in range is a slice of the stream, from `start` to `end` included. */
  lemma {:induction false} RangeIsSlice(items: seq<Item>, start: int, end: int, h: Hist)
    ensures InRange(items, start, end, h) == OfHist(Slice(items, start, end), h)
  {
    if items != [] {
      var init, x := items[..|items| - 1], items[|items| - 1];
      assert items == init + [x];
      RangeIsSlice(init, start, end, h);
      SliceNext(init, x, start, end);
      OfHistNext(Slice(init, start, end), x, h);
    }
  }

  lemma {:induction false} InRangeSnoc(items: seq<Item>, x: Item, start: int, end: int, h: Hist)
    ensures InRange(items + [x], start, end, h) ==
            if x.hist == h && start <= |items| && !Beyond(end, |items|) then InRange(items, start, end, h) + [x.value]
            else InRange(items, start, end, h)
  {
  }

  datatype Cell = Cell(counter: nat, vec: seq<Pair>)

  /** The cell of a branch after its items: the counter is exact until it
      passes the end, and every history holds exactly its values in range. */
  ghost predicate Counted(c: Cell, items: seq<Item>, start: int, end: int) {
    && Grouped(c.vec) && c.counter <= |items| && (c.counter == |items| || Beyond(end, c.counter))
    && forall h :: ValuesOf(c.vec, h) == InRange(items, start, end, h)
  }

  /** Nothing more is kept past the end. */
  lemma {:induction false} PastEnd(c: Cell, items: seq<Item>, more: seq<Item>, start: int, end: int)
    requires Counted(c, items, start, end) && Beyond(end, c.counter)
    ensures Counted(c, items + more, start, end)
    decreases |more|
  {
    if more == [] {
      assert items + more == items;
    } else {
      var init, x := more[..|more| - 1], more[|more| - 1];
      PastEnd(c, items, init, start, end);
      assert items + more == items + init + [x];
      forall h ensures ValuesOf(c.vec, h) == InRange(items + more, start, end, h) {
        InRangeSnoc(items + init, x, start, end, h);
      }
    }
  }

  /** One value of a pair. */
  method RangeValue(start: int, end: int, c: Cell, i: nat, v: Value, ghost items: seq<Item>) returns (c': Cell)
    requires Counted(c, items, start, end) && i < |c.vec| && !Beyond(end, c.counter)
    ensures Counted(c', items + [Item(c.vec[i].hist, v)], start, end)
    ensures |c'.vec| == |c.vec| && c'.vec[i].hist == c.vec[i].hist && Hists(c'.vec) == Hists(c.vec)
  {
    var vec := c.vec;
    if c.counter >= start {
      vec := PushAt(vec, i, v);
    }
    forall h ensures ValuesOf(vec, h) == InRange(items + [Item(c.vec[i].hist, v)], start, end, h) {
      InRangeSnoc(items, Item(c.vec[i].hist, v), start, end, h);
    }
    c' := Cell(c.counter + 1, vec);
  }

  lemma {:induction false} ItemsRest(p: Pair, k: nat) returns (more: seq<Item>)
    requires k <= |p.values|
    ensures ItemsOf(p, |p.values|) == ItemsOf(p, k) + more
    decreases |p.values| - k
  {
    if k == |p.values| {
      more := [];
      assert ItemsOf(p, k) + more == ItemsOf(p, k);
    } else {
      var m := ItemsRest(p, k + 1);
      more := [Item(p.hist, p.values[k])] + m;
      assert ItemsOf(p, k) + more == ItemsOf(p, k + 1) + m;
    }
  }

  /** RangeExpert::do_work for one pair of its branch. */
  method RangePair(start: int, end: int, c: Cell, p: Pair, ghost items: seq<Item>) returns (c': Cell)
    requires Counted(c, items, start, end)
    ensures Counted(c', items + ItemsOf(p, |p.values|), start, end) && Hists(c'.vec) <= Hists(c.vec) + {p.hist} && c'.vec != []
  {
    if c.vec != [] && Beyond(end, c.counter) {
      PastEnd(c, items, ItemsOf(p, |p.values|), start, end);
      return c;
    }
    var vec, i := Slot(c.vec, p.hist);
    c' := Cell(c.counter, vec);
    ghost var seen := items;
    var k := 0;
    assert items + ItemsOf(p, 0) == items;
    while k < |p.values| && !Beyond(end, c'.counter)
      invariant k <= |p.values| && i < |c'.vec| && c'.vec[i].hist == p.hist && Hists(c'.vec) <= Hists(c.vec) + {p.hist}
      invariant seen == items + ItemsOf(p, k) && Counted(c', seen, start, end)
    {
      c' := RangeValue(start, end, c', i, p.values[k], seen);
      seen := seen + [Item(p.hist, p.values[k])];
      assert seen == items + ItemsOf(p, k + 1);
      k := k + 1;
    }
    if k < |p.values| {
      ghost var more := ItemsRest(p, k);
      PastEnd(c', seen, more, start, end);
      assert seen + more == items + ItemsOf(p, |p.values|);
    }
  }

  // ---------- what is forwarded ----------

  /** A history came in, a branch did. */
  ghost predicate Came(log: seq<Pair>, h: Hist) {
    exists i | 0 <= i < |log| :: log[i].hist == h
  }

  ghost predicate BranchCame(branchOf: Hist -> int, log: seq<Pair>, b: int) {
    exists i | 0 <= i < |log| :: branchOf(log[i].hist) == b
  }

  /** The entries of a branch: their histories belong to it and came in. */
  ghost predicate Placed(branchOf: Hist -> int, log: seq<Pair>, b: int, vec: seq<Pair>) {
    Grouped(vec) && forall h | h in Hists(vec) :: branchOf(h) == b && Came(log, h)
  }

  lemma {:induction false} CameSnoc(branchOf: Hist -> int, log: seq<Pair>, p: Pair)
    ensures forall h :: Came(log, h) || h == p.hist ==> Came(log + [p], h)
    ensures forall b :: BranchCame(branchOf, log + [p], b) <==> BranchCame(branchOf, log, b) || b == branchOf(p.hist)
  {
    var more := log + [p];
    assert more[|log|] == p;
    forall i | 0 <= i < |log| ensures more[i] == log[i] {
    }
  }

  /** Every branch that came in, once, in any order. */
  ghost predicate Lists(order: seq<int>, branchOf: Hist -> int, log: seq<Pair>) {
    && (forall i, j | 0 <= i < j < |order| :: order[i] != order[j])
    && (forall b :: b in order <==> BranchCame(branchOf, log, b))
  }

  /** The branches read off so far: no history twice, and each with its values. */
  ghost predicate Collected(branchOf: Hist -> int, vecs: map<int, seq<Pair>>, done: seq<int>, out: seq<Pair>) {
    && (forall b | b in done :: b in vecs)
    && (forall i, j | 0 <= i < j < |out| :: out[i].hist != out[j].hist)
    && (forall h :: h in Hists(out) <==> branchOf(h) in done && h in Hists(vecs[branchOf(h)]))
    && (forall h :: ValuesOf(out, h) == if branchOf(h) in done then ValuesOf(vecs[branchOf(h)], h) else [])
  }

  lemma {:induction false} HistsAppend(a: seq<Pair>, b: seq<Pair>)
    ensures Hists(a + b) == Hists(a) + Hists(b)
    decreases |b|
  {
    if b == [] {
      assert a + b == a;
    } else {
      var n := |b| - 1;
      HistsAppend(a, b[..n]);
      HistsSnoc(a + b[..n], b[n]);
      HistsSnoc(b[..n], b[n]);
      assert a + b == a + b[..n] + [b[n]] && b == b[..n] + [b[n]];
    }
  }

  lemma {:induction false} NotNamed(vec: seq<Pair>, h: Hist)
    requires h !in Hists(vec)
    ensures ValuesOf(vec, h) == []
  {
    ValuesAbsent(vec, h);
  }

  lemma {:induction false} ValuesAppend(a: seq<Pair>, b: seq<Pair>, h: Hist)
    requires h !in Hists(a) || h !in Hists(b)
    ensures ValuesOf(a + b, h) == if h in Hists(b) then ValuesOf(b, h) else ValuesOf(a, h)
    decreases |b|
  {
    if b == [] {
      assert a + b == a;
    } else {
      var n := |b| - 1;
      HistsSnoc(b[..n], b[n]);
      assert (a + b)[..|a + b| - 1] == a + b[..n] && b == b[..n] + [b[n]];
      if b[n].hist != h {
        ValuesAppend(a, b[..n], h);
      }
    }
  }

  lemma {:induction false} SeparateAppend(a: seq<Pair>, b: seq<Pair>)
    requires forall i, j | 0 <= i < j < |a| :: a[i].hist != a[j].hist
    requires forall i, j | 0 <= i < j < |b| :: b[i].hist != b[j].hist
    requires Hists(a) !! Hists(b)
    ensures forall i, j | 0 <= i < j < |a + b| :: (a + b)[i].hist != (a + b)[j].hist
  {
    forall i, j | 0 <= i < |a| && 0 <= j < |b| ensures a[i].hist != b[j].hist {
      assert a[i].hist in Hists(a) && b[j].hist in Hists(b);
    }
  }

  /** One more branch. */
  lemma {:induction false} CollectOne(branchOf: Hist -> int, vecs: map<int, seq<Pair>>, done: seq<int>, out: seq<Pair>, b: int)
    requires Collected(branchOf, vecs, done, out) && b in vecs && b !in done && Grouped(vecs[b])
    requires forall h | h in Hists(vecs[b]) :: branchOf(h) == b
    ensures Collected(branchOf, vecs, done + [b], out + vecs[b])
  {
    HistsAppend(out, vecs[b]);
    SeparateAppend(out, vecs[b]);
    assert forall d | d in done + [b] :: d in vecs;
    forall h ensures ValuesOf(out + vecs[b], h) == if branchOf(h) in done + [b] then ValuesOf(vecs[branchOf(h)], h) else [] {
      ValuesAppend(out, vecs[b], h);
      if h !in Hists(vecs[b]) {
        NotNamed(vecs[b], h);
      }
    }
  }

  /** Something of the branch is forwarded, if only a history. */
  ghost predicate HasEntry(branchOf: Hist -> int, out: seq<Pair>, b: int) {
    exists i | 0 <= i < |out| :: branchOf(out[i].hist) == b
  }

  lemma {:induction false} EntryOf(branchOf: Hist -> int, out: seq<Pair>, b: int, h: Hist)
    requires h in Hists(out) && branchOf(h) == b
    ensures HasEntry(branchOf, out, b)
  {
  }

  /** The loop over the branches once all messages are in. */
  method Collect(branchOf: Hist -> int, vecs: map<int, seq<Pair>>, order: seq<int>) returns (out: seq<Pair>)
    requires forall i, j | 0 <= i < j < |order| :: order[i] != order[j]
    requires forall b | b in order :: b in vecs && Grouped(vecs[b]) && forall h | h in Hists(vecs[b]) :: branchOf(h) == b
    ensures Collected(branchOf, vecs, order, out)
  {
    out := [];
    for i := 0 to |order|
      invariant Collected(branchOf, vecs, order[..i], out)
    {
      assert order[i] in order && order[i] !in order[..i] && order[..i + 1] == order[..i] + [order[i]];
      CollectOne(branchOf, vecs, order[..i], out, order[i]);
      out := out + vecs[order[i]];
    }
    assert order[..|order|] == order;
  }

  lemma {:induction false} OneMore(log: seq<Pair>, data: seq<Pair>, i: nat)
    requires i < |data|
    ensures log + data[..i] + [data[i]] == log + data[..i + 1]
  {
  }

  function Flat(batches: seq<seq<Pair>>): seq<Pair> {
    if batches == [] then [] else Flat(batches[..|batches| - 1]) + batches[|batches| - 1]
  }

  class RangeBarrier {
    const start: int
    const end: int
    const branchOf: Hist -> int
    var table: map<int, Cell>
    ghost var log: seq<Pair>

    function At(b: int): Cell
      reads this
    {
      if b in table then table[b] else Cell(0, [])
    }

    ghost predicate Valid()
      reads this
    {
      && (forall b :: Counted(At(b), Arrivals(branchOf, log, b), start, end))
      && (forall b :: Placed(branchOf, log, b, At(b).vec))
      && (forall b :: b in table <==> BranchCame(branchOf, log, b))
      && (forall b | b in table :: table[b].vec != [])
    }

    constructor (start: int, end: int, branchOf: Hist -> int)
      ensures Valid() && log == [] && this.start == start && this.end == end && this.branchOf == branchOf
    {
      this.start, this.end, this.branchOf, table, log := start, end, branchOf, map[], [];
    }

    method TakePair(p: Pair)
      requires Valid()
      modifies this
      ensures Valid() && log == old(log) + [p]
    {
      var b := branchOf(p.hist);
      ghost var before := log;
      var c := RangePair(start, end, At(b), p, Arrivals(branchOf, log, b));
      table, log := table[b := c], log + [p];
      CameSnoc(branchOf, before, p);
      forall d ensures Counted(At(d), Arrivals(branchOf, log, d), start, end) && Placed(branchOf, log, d, At(d).vec) {
        ArrivalsSnoc(branchOf, before, p, d);
        assert d != b ==> At(d) == old(At(d));
        assert Placed(branchOf, before, d, old(At(d)).vec);
      }
    }

    /** RangeExpert::do_work for the data of one message. */
    method Work(data: seq<Pair>)
      requires Valid()
      modifies this
      ensures Valid() && log == old(log) + data
    {
      var i := 0;
      while i < |data|
        invariant i <= |data| && Valid() && log == old(log) + data[..i]
      {
        TakePair(data[i]);
        OneMore(old(log), data, i);
        i := i + 1;
      }
      assert data[..i] == data;
    }
  }

  /** However the stream is cut into messages and whatever order the branches
      are read in, what is forwarded in the end has every history at most once,
      each came in, every branch that came in is there, and a history holds
      exactly those of its values whose place in the stream of their branch lies
      between start and end, in order. */
  method RangeRun(start: int, end: int, branchOf: Hist -> int, batches: seq<seq<Pair>>, order: seq<int>) returns (out: seq<Pair>)
    requires Lists(order, branchOf, Flat(batches))
    ensures forall i, j | 0 <= i < j < |out| :: out[i].hist != out[j].hist
    ensures forall h | h in Hists(out) :: Came(Flat(batches), h)
    ensures forall b | b in order :: HasEntry(branchOf, out, b)
    ensures forall h :: ValuesOf(out, h) == InRange(Arrivals(branchOf, Flat(batches), branchOf(h)), start, end, h)
  {
    var r := new RangeBarrier(start, end, branchOf);
    for i := 0 to |batches|
      invariant r.Valid() && r.log == Flat(batches[..i]) && r.start == start && r.end == end && r.branchOf == branchOf
    {
      assert batches[..i + 1][..i] == batches[..i];
      r.Work(batches[i]);
    }
    assert batches[..|batches|] == batches;
    var vecs := map b | b in r.table :: r.table[b].vec;
    forall b | b in order ensures b in vecs && Placed(branchOf, r.log, b, vecs[b]) {
      assert Placed(branchOf, r.log, b, r.At(b).vec);
    }
    out := Collect(branchOf, vecs, order);
    forall b | b in order ensures HasEntry(branchOf, out, b) {
      assert vecs[b] != [] && vecs[b][0].hist in Hists(vecs[b]);
      EntryOf(branchOf, out, b, vecs[b][0].hist);
    }
    forall h ensures ValuesOf(out, h) == InRange(Arrivals(branchOf, Flat(batches), branchOf(h)), start, end, h) {
      assert Counted(r.At(branchOf(h)), Arrivals(branchOf, r.log, branchOf(h)), start, end);
    }
  }

  // ---------- dedup ----------

  /** What dedup compares: the value itself, or with keys something that the
      history alone determines. */
  type Mark = (Hist, Value) -> int

  ghost predicate ByHistory(mark: Mark) {
    forall h, v, w :: mark(h, v) == mark(h, w)
  }

  ghost predicate Occurs(items: seq<Item>, mark: Mark, m: int) {
    items != [] && (Occurs(items[..|items| - 1], mark, m) || mark(items[|items| - 1].hist, items[|items| - 1].value) == m)
  }

  /** The values of one history whose mark had not arrived before. */
  ghost function Firsts(items: seq<Item>, mark: Mark, h: Hist): seq<Value> {
    if items == [] then []
    else
      var n := |items| - 1;
      var before := Firsts(items[..n], mark, h);
      if items[n].hist == h && !Occurs(items[..n], mark, mark(h, items[n].value)) then before + [items[n].value] else before
  }

  lemma {:induction false} OccursAt(items: seq<Item>, mark: Mark, m: int)
    ensures Occurs(items, mark, m) <==> exists i | 0 <= i < |items| :: mark(items[i].hist, items[i].value) == m
  {
    if items != [] {
      OccursAt(items[..|items| - 1], mark, m);
      assert items == items[..|items| - 1] + [items[|items| - 1]];
    }
  }

  /** Item `i` is the first one with its mark. */
  ghost predicate First(items: seq<Item>, mark: Mark, i: nat)
    requires i < |items|
  {
    forall j | 0 <= j < i :: mark(items[j].hist, items[j].value) != mark(items[i].hist, items[i].value)
  }

  /** How many items of history `h` are the first ones with their mark. */
  ghost function CountFirsts(items: seq<Item>, mark: Mark, h: Hist, k: nat): (n: nat)
    requires k <= |items|
  {
    if k == 0 then 0 else CountFirsts(items, mark, h, k - 1) + if items[k - 1].hist == h && First(items, mark, k - 1) then 1 else 0
  }

  lemma {:induction false} FirstPrefix(items: seq<Item>, mark: Mark, n: nat, i: nat)
    requires i < n <= |items|
    ensures First(items[..n], mark, i) <==> First(items, mark, i)
  {
  }

  lemma {:induction false} CountFirstsPrefix(items: seq<Item>, mark: Mark, h: Hist, k: nat, n: nat)
    requires k <= n <= |items|
    ensures CountFirsts(items[..n], mark, h, k) == CountFirsts(items, mark, h, k)
    decreases k
  {
    if k != 0 {
      CountFirstsPrefix(items, mark, h, k - 1, n);
      FirstPrefix(items, mark, n, k - 1);
    }
  }

  lemma {:induction false} FirstsLast(items: seq<Item>, mark: Mark, h: Hist)
    requires items != []
    ensures var n := |items| - 1;
            Firsts(items, mark, h) == Firsts(items[..n], mark, h) + if items[n].hist == h && First(items, mark, n) then [items[n].value] else []
  {
    OccursAt(items[..|items| - 1], mark, mark(items[|items| - 1].hist, items[|items| - 1].value));
  }

  lemma {:induction false} FirstsCount(items: seq<Item>, mark: Mark, h: Hist)
    ensures |Firsts(items, mark, h)| == CountFirsts(items, mark, h, |items|)
    decreases |items|
  {
    if items != [] {
      FirstsLast(items, mark, h);
      FirstsCount(items[..|items| - 1], mark, h);
      CountFirstsPrefix(items, mark, h, |items| - 1, |items| - 1);
    }
  }

  /** Exactly the first items of their marks are kept, each in its place. */
  lemma {:induction false} FirstsAt(items: seq<Item>, mark: Mark, h: Hist, i: nat)
    requires i < |items|
    ensures |Firsts(items, mark, h)| == CountFirsts(items, mark, h, |items|)
    ensures items[i].hist == h && First(items, mark, i) ==>
      && CountFirsts(items, mark, h, i) < |Firsts(items, mark, h)|
      && Firsts(items, mark, h)[CountFirsts(items, mark, h, i)] == items[i].value
    decreases |items|
  {
    var n := |items| - 1;
    FirstsCount(items, mark, h);
    FirstsLast(items, mark, h);
    CountFirstsPrefix(items, mark, h, i, n);
    if i < n {
      FirstsAt(items[..n], mark, h, i);
      FirstPrefix(items, mark, n, i);
    } else {
      FirstsCount(items[..n], mark, h);
    }
  }

  lemma {:induction false} FirstsSnoc(items: seq<Item>, mark: Mark, x: Item, h: Hist)
    ensures Firsts(items + [x], mark, h) ==
            if x.hist == h && !Occurs(items, mark, mark(h, x.value)) then Firsts(items, mark, h) + [x.value] else Firsts(items, mark, h)
    ensures forall m :: Occurs(items + [x], mark, m) <==> Occurs(items, mark, m) || m == mark(x.hist, x.value)
  {
  }

  datatype Pool = Pool(seen: set<int>, vec: seq<Pair>)

  /** The pool of a branch after its items: what was seen, and first occurrences only. */
  ghost predicate Deduped(c: Pool, items: seq<Item>, mark: Mark) {
    && Grouped(c.vec) && (forall m :: m in c.seen <==> Occurs(items, mark, m))
    && forall h :: ValuesOf(c.vec, h) == Firsts(items, mark, h)
  }

  method DedupValue(c: Pool, i: nat, v: Value, mark: Mark, ghost items: seq<Item>) returns (c': Pool)
    requires i < |c.vec| && Deduped(c, items, mark)
    ensures Deduped(c', items + [Item(c.vec[i].hist, v)], mark)
    ensures |c'.vec| == |c.vec| && c'.vec[i].hist == c.vec[i].hist && Hists(c'.vec) == Hists(c.vec)
  {
    var vec := c.vec;
    var m := mark(c.vec[i].hist, v);
    if m !in c.seen {
      vec := PushAt(vec, i, v);
    }
    forall h ensures ValuesOf(vec, h) == Firsts(items + [Item(c.vec[i].hist, v)], mark, h) {
      FirstsSnoc(items, mark, Item(c.vec[i].hist, v), h);
    }
    FirstsSnoc(items, mark, Item(c.vec[i].hist, v), 0);
    c' := Pool(c.seen + {m}, vec);
  }

  /** With keys, further values of a history that was seen change nothing. */
  lemma {:induction false} SeenAlready(c: Pool, mark: Mark, items: seq<Item>, more: seq<Item>, h: Hist)
    requires Deduped(c, items, mark) && ByHistory(mark) && mark(h, 0) in c.seen
    requires forall i | 0 <= i < |more| :: more[i].hist == h
    ensures Deduped(c, items + more, mark)
    decreases |more|
  {
    if more == [] {
      assert items + more == items;
    } else {
      var init, x := more[..|more| - 1], more[|more| - 1];
      SeenAlready(c, mark, items, init, h);
      assert items + more == items + init + [x];
      assert mark(h, x.value) == mark(h, 0);
      forall g ensures ValuesOf(c.vec, g) == Firsts(items + more, mark, g) {
        FirstsSnoc(items + init, mark, x, g);
      }
      FirstsSnoc(items + init, mark, x, h);
    }
  }

  lemma {:induction false} ItemsOfOne(p: Pair, k: nat) returns (more: seq<Item>)
    requires 1 <= k <= |p.values|
    ensures ItemsOf(p, k) == [Item(p.hist, p.values[0])] + more && forall i | 0 <= i < |more| :: more[i].hist == p.hist
    decreases k
  {
    if k == 1 {
      more := [];
      assert ItemsOf(p, 1) == ItemsOf(p, 0) + [Item(p.hist, p.values[0])];
    } else {
      more := ItemsOfOne(p, k - 1);
      more := more + [Item(p.hist, p.values[k - 1])];
    }
  }

  /** With keys only the first value of a pair is looked at. */
  method DedupKeyed(c: Pool, i: nat, p: Pair, mark: Mark, ghost items: seq<Item>) returns (c': Pool)
    requires i < |c.vec| && c.vec[i].hist == p.hist && p.values != [] && Deduped(c, items, mark) && ByHistory(mark)
    ensures Deduped(c', items + ItemsOf(p, |p.values|), mark) && Hists(c'.vec) == Hists(c.vec) && c'.vec != []
  {
    c' := DedupValue(c, i, p.values[0], mark, items);
    ghost var one := [Item(p.hist, p.values[0])];
    FirstsSnoc(items, mark, one[0], 0);
    ghost var more := ItemsOfOne(p, |p.values|);
    assert mark(p.hist, 0) == mark(p.hist, p.values[0]);
    SeenAlready(c', mark, items + one, more, p.hist);
    assert items + one + more == items + ItemsOf(p, |p.values|);
  }

  /** Otherwise all of them are. */
  method DedupAll(c: Pool, i: nat, p: Pair, mark: Mark, ghost items: seq<Item>) returns (c': Pool)
    requires i < |c.vec| && c.vec[i].hist == p.hist && Deduped(c, items, mark)
    ensures Deduped(c', items + ItemsOf(p, |p.values|), mark) && Hists(c'.vec) == Hists(c.vec) && c'.vec != []
  {
    c' := c;
    ghost var seen := items;
    var k := 0;
    assert items + ItemsOf(p, 0) == items;
    while k < |p.values|
      invariant k <= |p.values| && i < |c'.vec| && c'.vec[i].hist == p.hist && Hists(c'.vec) == Hists(c.vec)
      invariant seen == items + ItemsOf(p, k) && Deduped(c', seen, mark)
    {
      c' := DedupValue(c', i, p.values[k], mark, seen);
      seen := seen + [Item(p.hist, p.values[k])];
      assert seen == items + ItemsOf(p, k + 1);
      k := k + 1;
    }
  }

  /** DedupExpert::do_work for one pair of its branch. */
  method DedupPair(c: Pool, p: Pair, keyed: bool, mark: Mark, ghost items: seq<Item>) returns (c': Pool)
    requires Deduped(c, items, mark) && (keyed ==> ByHistory(mark))
    ensures Deduped(c', items + ItemsOf(p, |p.values|), mark) && Hists(c'.vec) <= Hists(c.vec) + {p.hist} && c'.vec != []
  {
    var vec, i := Slot(c.vec, p.hist);
    if keyed && p.values != [] {
      c' := DedupKeyed(Pool(c.seen, vec), i, p, mark, items);
    } else {
      c' := DedupAll(Pool(c.seen, vec), i, p, mark, items);
    }
  }

  class DedupBarrier {
    const branchOf: Hist -> int
    const keyed: bool
    const mark: Mark
    var table: map<int, Pool>
    ghost var log: seq<Pair>

    function At(b: int): Pool
      reads this
    {
      if b in table then table[b] else Pool({}, [])
    }

    ghost predicate Valid()
      reads this
    {
      && (keyed ==> ByHistory(mark))
      && (forall b :: Deduped(At(b), Arrivals(branchOf, log, b), mark))
      && (forall b :: Placed(branchOf, log, b, At(b).vec))
      && (forall b :: b in table <==> BranchCame(branchOf, log, b))
      && (forall b | b in table :: table[b].vec != [])
    }

    constructor (branchOf: Hist -> int, keyed: bool, mark: Mark)
      requires keyed ==> ByHistory(mark)
      ensures Valid() && log == [] && this.branchOf == branchOf && this.mark == mark
    {
      this.branchOf, this.keyed, this.mark, table, log := branchOf, keyed, mark, map[], [];
    }

    method TakePair(p: Pair)
      requires Valid()
      modifies this
      ensures Valid() && log == old(log) + [p]
    {
      var b := branchOf(p.hist);
      ghost var before := log;
      var c := DedupPair(At(b), p, keyed, mark, Arrivals(branchOf, log, b));
      table, log := table[b := c], log + [p];
      CameSnoc(branchOf, before, p);
      forall d ensures Deduped(At(d), Arrivals(branchOf, log, d), mark) && Placed(branchOf, log, d, At(d).vec) {
        ArrivalsSnoc(branchOf, before, p, d);
        assert d != b ==> At(d) == old(At(d));
        assert Placed(branchOf, before, d, old(At(d)).vec);
      }
    }

    /** DedupExpert::do_work for the data of one message. */
    method Work(data: seq<Pair>)
      requires Valid()
      modifies this
      ensures Valid() && log == old(log) + data
    {
      var i := 0;
      while i < |data|
        invariant i <= |data| && Valid() && log == old(log) + data[..i]
      {
        TakePair(data[i]);
        OneMore(old(log), data, i);
        i := i + 1;
      }
      assert data[..i] == data;
    }
  }

  /** However the stream is cut into messages and whatever order the branches
      are read in, what is forwarded in the end has every history at most once,
      each came in, every branch that came in is there, and a history holds
      exactly those of its values whose mark had not come before in their branch. */
  method DedupRun(branchOf: Hist -> int, keyed: bool, mark: Mark, batches: seq<seq<Pair>>, order: seq<int>) returns (out: seq<Pair>)
    requires Lists(order, branchOf, Flat(batches)) && (keyed ==> ByHistory(mark))
    ensures forall i, j | 0 <= i < j < |out| :: out[i].hist != out[j].hist
    ensures forall h | h in Hists(out) :: Came(Flat(batches), h)
    ensures forall b | b in order :: HasEntry(branchOf, out, b)
    ensures forall h :: ValuesOf(out, h) == Firsts(Arrivals(branchOf, Flat(batches), branchOf(h)), mark, h)
  {
    var r := new DedupBarrier(branchOf, keyed, mark);
    for i := 0 to |batches|
      invariant r.Valid() && r.log == Flat(batches[..i]) && r.branchOf == branchOf && r.mark == mark
    {
      assert batches[..i + 1][..i] == batches[..i];
      r.Work(batches[i]);
    }
    assert batches[..|batches|] == batches;
    var vecs := map b | b in r.table :: r.table[b].vec;
    forall b | b in order ensures b in vecs && Placed(branchOf, r.log, b, vecs[b]) {
      assert Placed(branchOf, r.log, b, r.At(b).vec);
    }
    out := Collect(branchOf, vecs, order);
    forall b | b in order ensures HasEntry(branchOf, out, b) {
      assert vecs[b] != [] && vecs[b][0].hist in Hists(vecs[b]);
      EntryOf(branchOf, out, b, vecs[b][0].hist);
    }
    forall h ensures ValuesOf(out, h) == Firsts(Arrivals(branchOf, Flat(batches), branchOf(h)), mark, h) {
      assert Deduped(r.At(branchOf(h)), Arrivals(branchOf, r.log, branchOf(h)), mark);
    }
  }
}
