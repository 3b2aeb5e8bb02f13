/** What a query means, and which steps may change places without changing it. */
module ReorderMeaning {
  import opened Reorder

  type Value = int
  type History = seq<(int, Value)>

  /** A traverser: the labels it collected and the value it is at. */
  datatype Item = Item(hist: History, v: Value)

  /** What the steps of a query mean. */
  datatype Sem = Sem(
    keep: (Token, Value) -> bool,                 // which values a filter keeps
    keepItem: (Token, Item) -> bool,              // which items a filter that reads labels keeps
    pick: (Token, History) -> History,            // the labels a keyed dedup looks at
    tag: (Token, History, Value) -> History,      // what an as step records
    key: (Token, Value) -> int,                   // what an order step sorts by
    other: (Token, seq<Item>) -> seq<Item>)       // any step that is not reordered

  predicate Filtering(k: Kind) {
    0 <= Priority(k) <= 3
  }

  /** A filter whose verdict depends on the labels: a where on labels, or a
      sub-query that contains one. */
  predicate LabelFilter(t: Token) {
    Filtering(t.kind) && if t.kind == Where && !t.sub then true else t.labels
  }

  predicate Keyed(t: Token) {
    t.kind == Dedup && t.param != []
  }

  predicate Unkeyed(t: Token) {
    t.kind == Dedup && t.param == []
  }

  ghost predicate Keeps(m: Sem, t: Token, x: Item) {
    if LabelFilter(t) then m.keepItem(t, x) else m.keep(t, x.v)
  }

  /** What a dedup compares. */
  datatype Mark = OfValue(v: Value) | OfLabels(h: History)

  ghost function MarkOf(m: Sem, t: Token, x: Item): Mark {
    if Keyed(t) then OfLabels(m.pick(t, x.hist)) else OfValue(x.v)
  }

  // ---------- the steps ----------

  ghost function Filter(m: Sem, t: Token, xs: seq<Item>): seq<Item> {
    if xs == [] then []
    else
      var rest := Filter(m, t, xs[..|xs| - 1]);
      if Keeps(m, t, xs[|xs| - 1]) then rest + [xs[|xs| - 1]] else rest
  }

  ghost predicate Seen(m: Sem, t: Token, xs: seq<Item>, k: Mark) {
    xs != [] && (Seen(m, t, xs[..|xs| - 1], k) || MarkOf(m, t, xs[|xs| - 1]) == k)
  }

  /** The first item of every mark. */
  ghost function Distinct(m: Sem, t: Token, xs: seq<Item>): seq<Item> {
    if xs == [] then []
    else if Seen(m, t, xs[..|xs| - 1], MarkOf(m, t, xs[|xs| - 1])) then Distinct(m, t, xs[..|xs| - 1])
    else Distinct(m, t, xs[..|xs| - 1]) + [xs[|xs| - 1]]
  }

  ghost function Tag(m: Sem, t: Token, x: Item): Item {
    Item(m.tag(t, x.hist, x.v), x.v)
  }

  ghost function TagAll(m: Sem, t: Token, xs: seq<Item>): seq<Item> {
    if xs == [] then [] else TagAll(m, t, xs[..|xs| - 1]) + [Tag(m, t, xs[|xs| - 1])]
  }

  /** Insert behind everything with a key that is not larger. */
  ghost function Ins(m: Sem, t: Token, ys: seq<Item>, x: Item): seq<Item> {
    if ys == [] || m.key(t, ys[|ys| - 1].v) <= m.key(t, x.v) then ys + [x]
    else Ins(m, t, ys[..|ys| - 1], x) + [ys[|ys| - 1]]
  }

  ghost function Sort(m: Sem, t: Token, xs: seq<Item>): seq<Item> {
    if xs == [] then [] else Ins(m, t, Sort(m, t, xs[..|xs| - 1]), xs[|xs| - 1])
  }

  ghost function Step(m: Sem, t: Token, xs: seq<Item>): seq<Item> {
    if Filtering(t.kind) then Filter(m, t, xs)
    else if t.kind == Dedup then Distinct(m, t, xs)
    else if t.kind == As then TagAll(m, t, xs)
    else if t.kind == Order then Sort(m, t, xs)
    else m.other(t, xs)
  }

  ghost function Eval(m: Sem, s: seq<Token>, xs: seq<Item>): seq<Item> {
    if s == [] then xs else Step(m, s[|s| - 1], Eval(m, s[..|s| - 1], xs))
  }

  // ---------- appending one item ----------

  lemma {:induction false} FilterSnoc(m: Sem, t: Token, xs: seq<Item>, x: Item)
    ensures Filter(m, t, xs + [x]) == if Keeps(m, t, x) then Filter(m, t, xs) + [x] else Filter(m, t, xs)
  {
  }

  lemma {:induction false} DistinctSnoc(m: Sem, t: Token, xs: seq<Item>, x: Item)
    ensures forall k :: Seen(m, t, xs + [x], k) <==> Seen(m, t, xs, k) || MarkOf(m, t, x) == k
    ensures Distinct(m, t, xs + [x]) == if Seen(m, t, xs, MarkOf(m, t, x)) then Distinct(m, t, xs) else Distinct(m, t, xs) + [x]
  {
  }

  lemma {:induction false} TagSnoc(m: Sem, u: Token, xs: seq<Item>, x: Item)
    ensures TagAll(m, u, xs + [x]) == TagAll(m, u, xs) + [Tag(m, u, x)]
  {
  }

  lemma {:induction false} SortSnoc(m: Sem, t: Token, xs: seq<Item>, x: Item)
    ensures Sort(m, t, xs + [x]) == Ins(m, t, Sort(m, t, xs), x)
  {
  }

  lemma {:induction false} InsSnoc(m: Sem, t: Token, ys: seq<Item>, y: Item, x: Item)
    requires m.key(t, y.v) > m.key(t, x.v)
    ensures Ins(m, t, ys + [y], x) == Ins(m, t, ys, x) + [y]
  {
  }

  lemma {:induction false} Split(xs: seq<Item>) returns (init: seq<Item>, x: Item)
    requires xs != []
    ensures xs == init + [x] && |init| < |xs| && init == xs[..|xs| - 1] && x == xs[|xs| - 1]
  {
    init, x := xs[..|xs| - 1], xs[|xs| - 1];
  }

  // ---------- filters, dedup and as ----------

  lemma {:induction false} FilterFilter(m: Sem, t: Token, u: Token, xs: seq<Item>)
    ensures Filter(m, t, Filter(m, u, xs)) == Filter(m, u, Filter(m, t, xs))
    decreases |xs|
  {
    if xs != [] {
      var init, x := Split(xs);
      FilterFilter(m, t, u, init);
      FilterSnoc(m, t, init, x);
      FilterSnoc(m, u, init, x);
      FilterSnoc(m, t, Filter(m, u, init), x);
      FilterSnoc(m, u, Filter(m, t, init), x);
    }
  }

  lemma {:induction false} SeenFiltered(m: Sem, t: Token, d: Token, xs: seq<Item>, v: Value)
    requires !LabelFilter(t) && !Keyed(d) && m.keep(t, v)
    ensures Seen(m, d, Filter(m, t, xs), OfValue(v)) <==> Seen(m, d, xs, OfValue(v))
    decreases |xs|
  {
    if xs != [] {
      var init, x := Split(xs);
      SeenFiltered(m, t, d, init, v);
      DistinctSnoc(m, d, Filter(m, t, init), x);
    }
  }

  lemma {:induction false} FilterDistinct(m: Sem, t: Token, d: Token, xs: seq<Item>)
    requires !LabelFilter(t) && !Keyed(d)
    ensures Filter(m, t, Distinct(m, d, xs)) == Distinct(m, d, Filter(m, t, xs))
    decreases |xs|
  {
    if xs != [] {
      var init, x := Split(xs);
      FilterDistinct(m, t, d, init);
      FilterSnoc(m, t, Distinct(m, d, init), x);
      DistinctSnoc(m, d, Filter(m, t, init), x);
      if m.keep(t, x.v) {
        SeenFiltered(m, t, d, init, x.v);
      }
    }
  }

  lemma {:induction false} FilterTag(m: Sem, t: Token, u: Token, xs: seq<Item>)
    requires !LabelFilter(t)
    ensures Filter(m, t, TagAll(m, u, xs)) == TagAll(m, u, Filter(m, t, xs))
    decreases |xs|
  {
    if xs != [] {
      var init, x := Split(xs);
      FilterTag(m, t, u, init);
      FilterSnoc(m, t, TagAll(m, u, init), Tag(m, u, x));
      TagSnoc(m, u, Filter(m, t, init), x);
    }
  }

  lemma {:induction false} SeenTag(m: Sem, d: Token, u: Token, xs: seq<Item>, k: Mark)
    requires !Keyed(d)
    ensures Seen(m, d, TagAll(m, u, xs), k) <==> Seen(m, d, xs, k)
    decreases |xs|
  {
    if xs != [] {
      var init, x := Split(xs);
      SeenTag(m, d, u, init, k);
      DistinctSnoc(m, d, TagAll(m, u, init), Tag(m, u, x));
    }
  }

  lemma {:induction false} DistinctTag(m: Sem, d: Token, u: Token, xs: seq<Item>)
    requires !Keyed(d)
    ensures Distinct(m, d, TagAll(m, u, xs)) == TagAll(m, u, Distinct(m, d, xs))
    decreases |xs|
  {
    if xs != [] {
      var init, x := Split(xs);
      DistinctTag(m, d, u, init);
      SeenTag(m, d, u, init, OfValue(x.v));
      DistinctSnoc(m, d, TagAll(m, u, init), Tag(m, u, x));
      TagSnoc(m, u, Distinct(m, d, init), x);
    }
  }

  // ---------- stable sorting ----------

  /** No key exceeds `k`. */
  ghost predicate AtMost(m: Sem, t: Token, ys: seq<Item>, k: int) {
    ys == [] || (AtMost(m, t, ys[..|ys| - 1], k) && m.key(t, ys[|ys| - 1].v) <= k)
  }

  /** Keys ascend. */
  ghost predicate Sorted(m: Sem, t: Token, ys: seq<Item>) {
    ys == [] || (Sorted(m, t, ys[..|ys| - 1]) && AtMost(m, t, ys, m.key(t, ys[|ys| - 1].v)))
  }

  lemma {:induction false} AtMostSnoc(m: Sem, t: Token, ys: seq<Item>, y: Item, k: int)
    ensures AtMost(m, t, ys + [y], k) <==> AtMost(m, t, ys, k) && m.key(t, y.v) <= k
  {
  }

  lemma {:induction false} SortedSnoc(m: Sem, t: Token, ys: seq<Item>, y: Item)
    ensures Sorted(m, t, ys + [y]) <==> Sorted(m, t, ys) && AtMost(m, t, ys, m.key(t, y.v))
  {
  }

  lemma {:induction false} AtMostMore(m: Sem, t: Token, ys: seq<Item>, k: int, l: int)
    requires AtMost(m, t, ys, k) && k <= l
    ensures AtMost(m, t, ys, l)
    decreases |ys|
  {
    if ys != [] {
      AtMostMore(m, t, ys[..|ys| - 1], k, l);
    }
  }

  lemma {:induction false} AtMostIns(m: Sem, t: Token, ys: seq<Item>, x: Item, k: int)
    requires AtMost(m, t, ys, k) && m.key(t, x.v) <= k
    ensures AtMost(m, t, Ins(m, t, ys, x), k)
    decreases |ys|
  {
    AtMostSnoc(m, t, ys, x, k);
    if ys != [] {
      var init, y := Split(ys);
      AtMostIns(m, t, init, x, k);
      AtMostSnoc(m, t, Ins(m, t, init, x), y, k);
    }
  }

  lemma {:induction false} SortedIns(m: Sem, t: Token, ys: seq<Item>, x: Item)
    requires Sorted(m, t, ys)
    ensures Sorted(m, t, Ins(m, t, ys, x))
    decreases |ys|
  {
    SortedSnoc(m, t, ys, x);
    if ys != [] {
      var init, y := Split(ys);
      SortedSnoc(m, t, init, y);
      if m.key(t, y.v) <= m.key(t, x.v) {
        AtMostMore(m, t, init, m.key(t, y.v), m.key(t, x.v));
        AtMostSnoc(m, t, init, y, m.key(t, x.v));
      } else {
        SortedIns(m, t, init, x);
        AtMostIns(m, t, init, x, m.key(t, y.v));
        SortedSnoc(m, t, Ins(m, t, init, x), y);
      }
    }
  }

  lemma {:induction false} SortSorts(m: Sem, t: Token, xs: seq<Item>)
    ensures Sorted(m, t, Sort(m, t, xs))
    decreases |xs|
  {
    if xs != [] {
      SortSorts(m, t, xs[..|xs| - 1]);
      SortedIns(m, t, Sort(m, t, xs[..|xs| - 1]), xs[|xs| - 1]);
    }
  }

  /** Behind items that are not larger the insertion goes to the end. */
  lemma {:induction false} InsLast(m: Sem, t: Token, ys: seq<Item>, x: Item)
    requires AtMost(m, t, ys, m.key(t, x.v))
    ensures Ins(m, t, ys, x) == ys + [x]
  {
  }

  lemma {:induction false} AtMostFilter(m: Sem, t: Token, u: Token, ys: seq<Item>, k: int)
    requires AtMost(m, t, ys, k)
    ensures AtMost(m, t, Filter(m, u, ys), k)
    decreases |ys|
  {
    if ys != [] {
      var init, y := Split(ys);
      AtMostFilter(m, t, u, init, k);
      AtMostSnoc(m, t, Filter(m, u, init), y, k);
    }
  }

  lemma {:induction false} AtMostDistinct(m: Sem, t: Token, d: Token, ys: seq<Item>, k: int)
    requires AtMost(m, t, ys, k)
    ensures AtMost(m, t, Distinct(m, d, ys), k)
    decreases |ys|
  {
    if ys != [] {
      var init, y := Split(ys);
      AtMostDistinct(m, t, d, init, k);
      AtMostSnoc(m, t, Distinct(m, d, init), y, k);
    }
  }

  /** Of a sorted list nothing exceeds the key of an item that goes to its end. */
  lemma {:induction false} GoesLast(m: Sem, t: Token, init: seq<Item>, y: Item, x: Item)
    requires Sorted(m, t, init + [y]) && m.key(t, y.v) <= m.key(t, x.v)
    ensures AtMost(m, t, init + [y], m.key(t, x.v))
  {
    SortedSnoc(m, t, init, y);
    AtMostMore(m, t, init, m.key(t, y.v), m.key(t, x.v));
    AtMostSnoc(m, t, init, y, m.key(t, x.v));
  }

  lemma {:induction false} FilterIns(m: Sem, u: Token, t: Token, ys: seq<Item>, x: Item)
    requires Sorted(m, t, ys)
    ensures Filter(m, u, Ins(m, t, ys, x)) == if Keeps(m, u, x) then Ins(m, t, Filter(m, u, ys), x) else Filter(m, u, ys)
    decreases |ys|
  {
    FilterSnoc(m, u, ys, x);
    if ys != [] {
      var init, y := Split(ys);
      if m.key(t, y.v) <= m.key(t, x.v) {
        GoesLast(m, t, init, y, x);
        AtMostFilter(m, t, u, ys, m.key(t, x.v));
        InsLast(m, t, Filter(m, u, ys), x);
      } else {
        SortedSnoc(m, t, init, y);
        FilterIns(m, u, t, init, x);
        FilterSnoc(m, u, Ins(m, t, init, x), y);
        FilterSnoc(m, u, init, y);
        InsSnoc(m, t, Filter(m, u, init), y, x);
      }
    }
  }

  /** Any filter may change places with a stable sort. */
  lemma {:induction false} FilterSort(m: Sem, u: Token, t: Token, xs: seq<Item>)
    ensures Filter(m, u, Sort(m, t, xs)) == Sort(m, t, Filter(m, u, xs))
    decreases |xs|
  {
    if xs != [] {
      var init, x := Split(xs);
      FilterSort(m, u, t, init);
      SortSorts(m, t, init);
      FilterIns(m, u, t, Sort(m, t, init), x);
      SortSnoc(m, t, Filter(m, u, init), x);
    }
  }

  lemma {:induction false} SeenIns(m: Sem, d: Token, t: Token, ys: seq<Item>, x: Item, k: Mark)
    ensures Seen(m, d, Ins(m, t, ys, x), k) <==> Seen(m, d, ys, k) || MarkOf(m, d, x) == k
    decreases |ys|
  {
    DistinctSnoc(m, d, ys, x);
    if ys != [] {
      var init, y := Split(ys);
      SeenIns(m, d, t, init, x, k);
      DistinctSnoc(m, d, Ins(m, t, init, x), y);
    }
  }

  lemma {:induction false} SeenSort(m: Sem, d: Token, t: Token, xs: seq<Item>, k: Mark)
    ensures Seen(m, d, Sort(m, t, xs), k) <==> Seen(m, d, xs, k)
    decreases |xs|
  {
    if xs != [] {
      var init, x := Split(xs);
      SeenSort(m, d, t, init, k);
      SeenIns(m, d, t, Sort(m, t, init), x, k);
    }
  }

  lemma {:induction false} DistinctIns(m: Sem, d: Token, t: Token, ys: seq<Item>, x: Item)
    requires Sorted(m, t, ys) && !Keyed(d)
    ensures Distinct(m, d, Ins(m, t, ys, x)) ==
            if Seen(m, d, ys, MarkOf(m, d, x)) then Distinct(m, d, ys) else Ins(m, t, Distinct(m, d, ys), x)
    decreases |ys|
  {
    DistinctSnoc(m, d, ys, x);
    if ys != [] {
      var init, y := Split(ys);
      if m.key(t, y.v) <= m.key(t, x.v) {
        GoesLast(m, t, init, y, x);
        AtMostDistinct(m, t, d, ys, m.key(t, x.v));
        InsLast(m, t, Distinct(m, d, ys), x);
      } else {
        SortedSnoc(m, t, init, y);
        DistinctIns(m, d, t, init, x);
        SeenIns(m, d, t, init, x, MarkOf(m, d, y));
        DistinctSnoc(m, d, Ins(m, t, init, x), y);
        DistinctSnoc(m, d, init, y);
        InsSnoc(m, t, Distinct(m, d, init), y, x);
      }
    }
  }

  /** An unkeyed dedup may change places with a stable sort by value. */
  lemma {:induction false} DistinctSort(m: Sem, d: Token, t: Token, xs: seq<Item>)
    requires !Keyed(d)
    ensures Distinct(m, d, Sort(m, t, xs)) == Sort(m, t, Distinct(m, d, xs))
    decreases |xs|
  {
    if xs != [] {
      var init, x := Split(xs);
      DistinctSort(m, d, t, init);
      SortSorts(m, t, init);
      SeenSort(m, d, t, init, MarkOf(m, d, x));
      DistinctIns(m, d, t, Sort(m, t, init), x);
      SortSnoc(m, t, Distinct(m, d, init), x);
    }
  }

  lemma {:induction false} TagIns(m: Sem, u: Token, t: Token, ys: seq<Item>, x: Item)
    ensures TagAll(m, u, Ins(m, t, ys, x)) == Ins(m, t, TagAll(m, u, ys), Tag(m, u, x))
    decreases |ys|
  {
    if ys == [] || m.key(t, ys[|ys| - 1].v) <= m.key(t, x.v) {
      TagSnoc(m, u, ys, x);
    } else {
      var init, y := Split(ys);
      TagIns(m, u, t, init, x);
      TagSnoc(m, u, Ins(m, t, init, x), y);
      InsSnoc(m, t, TagAll(m, u, init), Tag(m, u, y), Tag(m, u, x));
    }
  }

  lemma {:induction false} TagSort(m: Sem, u: Token, t: Token, xs: seq<Item>)
    ensures TagAll(m, u, Sort(m, t, xs)) == Sort(m, t, TagAll(m, u, xs))
    decreases |xs|
  {
    if xs != [] {
      var init, x := Split(xs);
      TagSort(m, u, t, init);
      TagIns(m, u, t, Sort(m, t, init), x);
      SortSnoc(m, t, TagAll(m, u, init), Tag(m, u, x));
    }
  }

  // ---------- lists without repeated values ----------

  ghost predicate Contains(xs: seq<Item>, v: Value) {
    xs != [] && (Contains(xs[..|xs| - 1], v) || xs[|xs| - 1].v == v)
  }

  ghost predicate Unique(xs: seq<Item>) {
    xs == [] || (Unique(xs[..|xs| - 1]) && !Contains(xs[..|xs| - 1], xs[|xs| - 1].v))
  }

  lemma {:induction false} UniqueSnoc(xs: seq<Item>, x: Item)
    ensures forall v :: Contains(xs + [x], v) <==> Contains(xs, v) || x.v == v
    ensures Unique(xs + [x]) <==> Unique(xs) && !Contains(xs, x.v)
  {
  }

  /** An unkeyed dedup leaves such a list, and leaves such a list alone. */
  lemma {:induction false} DistinctUnique(m: Sem, d: Token, xs: seq<Item>)
    ensures forall v :: Contains(Distinct(m, d, xs), v) ==> Contains(xs, v)
    ensures Unique(xs) ==> Unique(Distinct(m, d, xs))
    ensures !Keyed(d) ==> Unique(Distinct(m, d, xs)) && (Unique(xs) ==> Distinct(m, d, xs) == xs)
    ensures !Keyed(d) ==> forall v :: Seen(m, d, xs, OfValue(v)) <==> Contains(xs, v)
    decreases |xs|
  {
    if xs != [] {
      var init, x := Split(xs);
      DistinctUnique(m, d, init);
      UniqueSnoc(Distinct(m, d, init), x);
      DistinctSnoc(m, d, init, x);
    }
  }

  lemma {:induction false} FilterUnique(m: Sem, t: Token, xs: seq<Item>)
    ensures forall v :: Contains(Filter(m, t, xs), v) ==> Contains(xs, v)
    ensures Unique(xs) ==> Unique(Filter(m, t, xs))
    decreases |xs|
  {
    if xs != [] {
      var init, x := Split(xs);
      FilterUnique(m, t, init);
      UniqueSnoc(Filter(m, t, init), x);
    }
  }

  lemma {:induction false} TagUnique(m: Sem, t: Token, xs: seq<Item>)
    ensures forall v :: Contains(TagAll(m, t, xs), v) <==> Contains(xs, v)
    ensures Unique(xs) ==> Unique(TagAll(m, t, xs))
    decreases |xs|
  {
    if xs != [] {
      var init, x := Split(xs);
      TagUnique(m, t, init);
      UniqueSnoc(TagAll(m, t, init), Tag(m, t, x));
    }
  }

  lemma {:induction false} InsUnique(m: Sem, t: Token, ys: seq<Item>, x: Item)
    ensures forall v :: Contains(Ins(m, t, ys, x), v) <==> Contains(ys, v) || x.v == v
    ensures Unique(ys) && !Contains(ys, x.v) ==> Unique(Ins(m, t, ys, x))
    decreases |ys|
  {
    UniqueSnoc(ys, x);
    if ys != [] {
      var init, y := Split(ys);
      InsUnique(m, t, init, x);
      UniqueSnoc(Ins(m, t, init, x), y);
    }
  }

  lemma {:induction false} SortUnique(m: Sem, t: Token, xs: seq<Item>)
    ensures forall v :: Contains(Sort(m, t, xs), v) <==> Contains(xs, v)
    ensures Unique(xs) ==> Unique(Sort(m, t, xs))
    decreases |xs|
  {
    if xs != [] {
      var init, x := Split(xs);
      SortUnique(m, t, init);
      InsUnique(m, t, Sort(m, t, init), x);
    }
  }

  /** Since its last fixed step the query has an unkeyed dedup. */
  predicate Deduped(s: seq<Token>) {
    s != [] && Priority(s[|s| - 1].kind) != -1 && (Unkeyed(s[|s| - 1]) || Deduped(s[..|s| - 1]))
  }

  lemma {:induction false} StepUnique(m: Sem, t: Token, xs: seq<Item>)
    requires Priority(t.kind) != -1 && (Unkeyed(t) || Unique(xs))
    ensures Unique(Step(m, t, xs))
  {
    FilterUnique(m, t, xs);
    DistinctUnique(m, t, xs);
    TagUnique(m, t, xs);
    SortUnique(m, t, xs);
  }

  /** Behind an unkeyed dedup no value repeats until a fixed step comes. */
  lemma {:induction false} DedupedUnique(m: Sem, s: seq<Token>, xs: seq<Item>)
    requires Deduped(s)
    ensures Unique(Eval(m, s, xs))
  {
    var init := s[..|s| - 1];
    if !Unkeyed(s[|s| - 1]) {
      DedupedUnique(m, init, xs);
    }
    StepUnique(m, s[|s| - 1], Eval(m, init, xs));
  }

  // ---------- moving one step in front of another ----------

  /** Moving `t` in front of `x` changes what some query means. */
  predicate Breaks(t: Token, x: Token) {
    || (Filtering(t.kind) && Keyed(x))
    || (Keyed(t) && x.kind == Order)
    || (LabelFilter(t) && x.kind == As)
  }

  /** So it does here, unless no value repeats anyway. */
  predicate BreaksRepeats(t: Token, x: Token) {
    LabelFilter(t) && Unkeyed(x)
  }

  lemma {:induction false} FilterCommutes(m: Sem, t: Token, x: Token, xs: seq<Item>)
    requires Filtering(t.kind) && Priority(x.kind) != -1 && !Breaks(t, x) && (BreaksRepeats(t, x) ==> Unique(xs))
    ensures Filter(m, t, Step(m, x, xs)) == Step(m, x, Filter(m, t, xs))
  {
    if Filtering(x.kind) {
      FilterFilter(m, t, x, xs);
    } else if BreaksRepeats(t, x) {
      DistinctUnique(m, x, xs);
      FilterUnique(m, t, xs);
      DistinctUnique(m, x, Filter(m, t, xs));
    } else if x.kind == Dedup {
      FilterDistinct(m, t, x, xs);
    } else if x.kind == As {
      FilterTag(m, t, x, xs);
    } else {
      FilterSort(m, t, x, xs);
    }
  }

  /** What is left to consider when a step other than a filter moves. */
  lemma {:induction false} PassingKinds(t: Token, x: Token)
    requires Passes(t, x) && !Breaks(t, x)
    ensures Priority(x.kind) != -1
    ensures Filtering(t.kind) || (t.kind == As && x.kind == Order) || (Unkeyed(t) && (x.kind == As || x.kind == Order))
  {
  }

  lemma {:induction false} StepIs(m: Sem, t: Token, xs: seq<Item>)
    ensures Filtering(t.kind) ==> Step(m, t, xs) == Filter(m, t, xs)
    ensures t.kind == Dedup ==> Step(m, t, xs) == Distinct(m, t, xs)
    ensures t.kind == As ==> Step(m, t, xs) == TagAll(m, t, xs)
    ensures t.kind == Order ==> Step(m, t, xs) == Sort(m, t, xs)
  {
  }

  /** A step that may pass another one means the same on either side of it,
      except in the two cases above. */
  lemma {:induction false} PassingCommutes(m: Sem, t: Token, x: Token, xs: seq<Item>)
    requires Passes(t, x) && !Breaks(t, x) && (BreaksRepeats(t, x) ==> Unique(xs))
    ensures Step(m, t, Step(m, x, xs)) == Step(m, x, Step(m, t, xs))
  {
    PassingKinds(t, x);
    StepIs(m, t, Step(m, x, xs));
    StepIs(m, t, xs);
    if Filtering(t.kind) {
      FilterCommutes(m, t, x, xs);
    } else {
      StepIs(m, x, xs);
      StepIs(m, x, Step(m, t, xs));
      if t.kind == As {
        TagSort(m, t, x, xs);
      } else if x.kind == As {
        DistinctTag(m, t, x, xs);
      } else {
        DistinctSort(m, t, x, xs);
      }
    }
  }

  // ---------- whole queries ----------

  lemma {:induction false} EvalSnoc(m: Sem, s: seq<Token>, t: Token, xs: seq<Item>)
    ensures Eval(m, s + [t], xs) == Step(m, t, Eval(m, s, xs))
  {
  }

  lemma {:induction false} PutSnoc(s: seq<Token>, c: nat, t: Token)
    requires c <= |s|
    ensures c == |s| ==> Put(s, c, t) == s + [t]
    ensures c < |s| ==> Put(s, c, t) == Put(s[..|s| - 1], c, t) + [s[|s| - 1]]
  {
  }

  /** Steps that are passed do not end a stretch without repeated values. */
  lemma {:induction false} StillDeduped(s: seq<Token>, c: nat)
    requires c <= |s| && Deduped(s[..c]) && forall j | c <= j < |s| :: Priority(s[j].kind) != -1
    ensures Deduped(s)
    decreases |s|
  {
    if c == |s| {
      assert s[..c] == s;
    } else {
      assert s[..|s| - 1][..c] == s[..c];
      StillDeduped(s[..|s| - 1], c);
    }
  }

  /** The move of `t` to place `c` passes nothing it must not pass. */
  predicate Harmless(s: seq<Token>, c: nat, t: Token)
    requires c <= |s|
  {
    forall j | c <= j < |s| :: Passes(t, s[j]) && !Breaks(t, s[j]) && (BreaksRepeats(t, s[j]) ==> Deduped(s[..c]))
  }

  lemma {:induction false} SwapMeans(m: Sem, s: seq<Token>, c: nat, t: Token, x: Token, xs: seq<Item>)
    requires c <= |s| && Harmless(s + [x], c, t)
    ensures Step(m, t, Step(m, x, Eval(m, s, xs))) == Step(m, x, Step(m, t, Eval(m, s, xs)))
  {
    var more := s + [x];
    assert more[|s|] == x && more[..c] == s[..c];
    if BreaksRepeats(t, x) {
      forall j | c <= j < |s| ensures Priority(s[j].kind) != -1 {
        assert more[j] == s[j];
      }
      StillDeduped(s, c);
      DedupedUnique(m, s, xs);
    }
    PassingCommutes(m, t, x, Eval(m, s, xs));
  }

  lemma {:induction false} HarmlessInit(s: seq<Token>, c: nat, t: Token, x: Token)
    requires c <= |s| && Harmless(s + [x], c, t)
    ensures Harmless(s, c, t)
  {
    var more := s + [x];
    assert more[..c] == s[..c];
    forall j | c <= j < |s| ensures more[j] == s[j] {
    }
  }

  /** A harmless move does not change what a query means. */
  lemma {:induction false} PutMeans(m: Sem, s: seq<Token>, c: nat, t: Token, xs: seq<Item>)
    requires c <= |s| && Harmless(s, c, t)
    ensures Eval(m, Put(s, c, t), xs) == Eval(m, s + [t], xs)
    decreases |s|
  {
    PutSnoc(s, c, t);
    EvalSnoc(m, s, t, xs);
    if c < |s| {
      var init, x := s[..|s| - 1], s[|s| - 1];
      assert s == init + [x];
      HarmlessInit(init, c, t, x);
      PutMeans(m, init, c, t, xs);
      EvalSnoc(m, Put(init, c, t), x, xs);
      EvalSnoc(m, init, t, xs);
      SwapMeans(m, init, c, t, x, xs);
    }
  }
}
