/** and/or/not filtering built on fan-in.

    The input values are numbered, sent through every branch with their number
    recorded in the history, and the branch results are folded into one bit
    counter per number.  When the collector is ready the stored input is
    scanned positionally and filtered by its counters.
 */
module BranchFilter {
  import opened FanIn
  import opened Options

  type Value = int
  type History = seq<(int, Value)>
  type Data = seq<(History, seq<Value>)>

  datatype Kind = And | Or | Not

  /** A branch result: its path, the 1-based index of its branch, and its data. */
  datatype Result = Result(path: Path, branch: bv32, data: Data)

  // ---------- numbering the input ----------

  function LabelValues(h: History, vs: seq<Value>, key: int, next: nat): Data
    decreases |vs|
  {
    if vs == [] then [] else [(h + [(key, next)], [vs[0]])] + LabelValues(h, vs[1..], key, next + 1)
  }

  function LabelFrom(data: Data, key: int, next: nat): Data
    decreases |data|
  {
    if data == [] then []
    else
      var (h, vs) := data[0];
      (if vs == [] then [(h, vs)] else LabelValues(h, vs, key, next)) + LabelFrom(data[1..], key, next + |vs|)
  }

  /** The first value recorded in `h` under `key`. */
  function Find(h: History, key: int): Option<Value>
    decreases |h|
  {
    if h == [] then None else if h[0].0 == key then Some(h[0].1) else Find(h[1..], key)
  }

  ghost predicate Unlabelled(data: Data, key: int) {
    forall i | 0 <= i < |data| :: Find(data[i].0, key) == None
  }

  lemma {:induction false} FindAppended(h: History, key: int, v: Value)
    requires Find(h, key) == None
    ensures Find(h + [(key, v)], key) == Some(v)
    decreases |h|
  {
    if h != [] {
      assert (h + [(key, v)])[1..] == h[1..] + [(key, v)];
      FindAppended(h[1..], key, v);
    }
  }

  ghost function LabelPair(pair: (History, seq<Value>), key: int, next: nat): Data {
    if pair.1 == [] then [pair] else LabelValues(pair.0, pair.1, key, next)
  }

  lemma {:induction false} Snoc<T>(a: seq<T>, x: T, rest: seq<T>)
    ensures a + ([x] + rest) == (a + [x]) + rest
  {
  }

  method LabelOnePair(pair: (History, seq<Value>), key: int, next: nat) returns (labelled: Data)
    ensures labelled == LabelPair(pair, key, next)
  {
    if pair.1 == [] {
      return [pair];
    }
    labelled := [];
    var vs := pair.1;
    for j := 0 to |vs|
      invariant LabelValues(pair.0, vs, key, next) == labelled + LabelValues(pair.0, vs[j..], key, next + j)
    {
      var one := (pair.0 + [(key, next + j)], [vs[j]]);
      assert vs[j..][1..] == vs[j + 1..];
      Snoc(labelled, one, LabelValues(pair.0, vs[j + 1..], key, next + j + 1));
      labelled := labelled + [one];
    }
  }

  /** The loop of CreateBranchedMsgWithHisLabel that numbers the values. */
  method LabelData(data: Data, key: int) returns (labelled: Data)
    ensures labelled == LabelFrom(data, key, 0)
  {
    labelled := [];
    var count: nat := 0;
    for i := 0 to |data|
      invariant LabelFrom(data, key, 0) == labelled + LabelFrom(data[i..], key, count)
    {
      var pairs := LabelOnePair(data[i], key, count);
      LabelUnroll(data, i, key, count);
      Assoc(labelled, pairs, LabelFrom(data[i + 1..], key, count + |data[i].1|));
      labelled := labelled + pairs;
      count := count + |data[i].1|;
    }
  }

  lemma {:induction false} Assoc<T>(a: seq<T>, b: seq<T>, c: seq<T>)
    ensures a + (b + c) == (a + b) + c
  {
  }

  lemma {:induction false} LabelUnroll(data: Data, i: nat, key: int, next: nat)
    requires i < |data|
    ensures LabelFrom(data[i..], key, next) == LabelPair(data[i], key, next) + LabelFrom(data[i + 1..], key, next + |data[i].1|)
  {
  }

  // ---------- one bit per branch ----------

  ghost predicate Has(c: bv32, b: bv32)
    requires 1 <= b <= 30
  {
    (c >> (b - 1)) & 1 == 1
  }

  ghost predicate Within(c: bv32, n: bv32)
    requires 1 <= n <= 30
  {
    c >> n == 0
  }

  function UpdateCounter(c: bv32, branch: bv32): bv32
    requires 1 <= branch <= 30
  {
    c | ((1 as bv32) << (branch - 1))
  }

  predicate Pass(kind: Kind, c: bv32, n: bv32)
    requires 1 <= n <= 30
  {
    match kind
    case And => c == ((1 as bv32) << n) - 1
    case Or => c >= 1
    case Not => c == 0
  }

  lemma {:induction false} UpdateBit(c: bv32, a: bv32, b: bv32)
    requires 1 <= a <= 30 && 1 <= b <= 30
    ensures Has(UpdateCounter(c, a), b) <==> a == b || Has(c, b)
  {
  }

  lemma {:induction false} UpdateHas(c: bv32, a: bv32, n: bv32)
    requires 1 <= a <= n <= 30 && Within(c, n)
    ensures Within(UpdateCounter(c, a), n)
    ensures forall b: bv32 | 1 <= b <= 30 :: Has(UpdateCounter(c, a), b) <==> a == b || Has(c, b)
  {
    forall b: bv32 | 1 <= b <= 30
      ensures Has(UpdateCounter(c, a), b) <==> a == b || Has(c, b)
    {
      UpdateBit(c, a, b);
    }
  }

  lemma {:induction false} ShiftBit(c: bv32, n: bv32, b: bv32)
    requires 1 <= b < n <= 30 && Within(c, n)
    ensures Has(c, b + 1) <==> Has(c >> 1, b)
    ensures Within(c >> 1, n - 1)
  {
  }

  lemma {:induction false} LowestBit(c: bv32, n: bv32)
    requires 1 < n <= 30 && Within(c, n)
    ensures Has(c, 1) && c >> 1 == ((1 as bv32) << (n - 1)) - 1 ==> c == ((1 as bv32) << n) - 1
    ensures !Has(c, 1) && c >> 1 == 0 ==> c == 0
  {
  }

  lemma {:induction false} OneBit(c: bv32)
    requires Within(c, 1)
    ensures Has(c, 1) <==> c == 1
    ensures !Has(c, 1) <==> c == 0
  {
  }

  lemma {:induction false} MissingBit(c: bv32, n: bv32) returns (b: bv32)
    requires 1 <= n <= 30 && Within(c, n) && c != ((1 as bv32) << n) - 1
    ensures 1 <= b <= n && !Has(c, b)
    decreases n
  {
    b := 1;
    if n == 1 {
      OneBit(c);
    } else if Has(c, 1) {
      LowestBit(c, n);
      ShiftBit(c, n, 1);
      b := MissingBit(c >> 1, n - 1);
      ShiftBit(c, n, b);
      b := b + 1;
    }
  }

  lemma {:induction false} PresentBit(c: bv32, n: bv32) returns (b: bv32)
    requires 1 <= n <= 30 && Within(c, n) && c != 0
    ensures 1 <= b <= n && Has(c, b)
    decreases n
  {
    b := 1;
    if n == 1 {
      OneBit(c);
    } else if !Has(c, 1) {
      LowestBit(c, n);
      ShiftBit(c, n, 1);
      b := PresentBit(c >> 1, n - 1);
      ShiftBit(c, n, b);
      b := b + 1;
    }
  }

  lemma {:induction false} FullBit(n: bv32, b: bv32)
    requires 1 <= b <= n <= 30
    ensures Has(((1 as bv32) << n) - 1, b) && !Has(0, b)
  {
  }

  /** What the three tests mean: every, some, or no branch set its bit. */
  ghost predicate Meant(kind: Kind, n: bv32, hit: bv32 -> bool) {
    match kind
    case And => forall b: bv32 | 1 <= b <= n :: hit(b)
    case Or => exists b: bv32 | 1 <= b <= n :: hit(b)
    case Not => forall b: bv32 | 1 <= b <= n :: !hit(b)
  }

  lemma {:induction false} PassMeaning(kind: Kind, c: bv32, n: bv32, hit: bv32 -> bool)
    requires 1 <= n <= 30 && Within(c, n)
    requires forall b: bv32 | 1 <= b <= n :: Has(c, b) <==> hit(b)
    ensures Pass(kind, c, n) <==> Meant(kind, n, hit)
  {
    if c != ((1 as bv32) << n) - 1 {
      var b := MissingBit(c, n);
      assert !hit(b);
    } else {
      forall b: bv32 | 1 <= b <= n ensures hit(b) { FullBit(n, b); }
    }
    if c != 0 {
      var b := PresentBit(c, n);
      assert hit(b);
    } else {
      forall b: bv32 | 1 <= b <= n ensures !hit(b) { FullBit(n, b); }
    }
  }

  // ---------- the filter object ----------

  function Bits(counter: map<int, bv32>, num: int): bv32 {
    if num in counter then counter[num] else 0
  }

  /** Some non-empty pair of `data` carries number `num`. */
  ghost predicate Carries(data: Data, key: int, num: int) {
    exists j :: 0 <= j < |data| && data[j].1 != [] && Find(data[j].0, key) == Some(num)
  }

  /** Branch `b` returned something carrying number `num`. */
  ghost predicate Returned(results: seq<Result>, key: int, b: bv32, num: int) {
    exists k :: 0 <= k < |results| && results[k].branch == b && Carries(results[k].data, key, num)
  }

  ghost function KeepValues(vs: seq<Value>, next: nat, keep: int -> bool): seq<Value>
    decreases |vs|
  {
    if vs == [] then [] else (if keep(next) then [vs[0]] else []) + KeepValues(vs[1..], next + 1, keep)
  }

  /** The input filtered positionally: the k-th value stays when `keep(k)`. */
  ghost function KeepFrom(data: Data, next: nat, keep: int -> bool): Data
    decreases |data|
  {
    if data == [] then []
    else [(data[0].0, KeepValues(data[0].1, next, keep))] + KeepFrom(data[1..], next + |data[0].1|, keep)
  }

  lemma {:induction false} KeepValuesAgree(vs: seq<Value>, next: nat, f: int -> bool, g: int -> bool)
    requires forall l :: f(l) == g(l)
    ensures KeepValues(vs, next, f) == KeepValues(vs, next, g)
    decreases |vs|
  {
    if vs != [] { KeepValuesAgree(vs[1..], next + 1, f, g); }
  }

  lemma {:induction false} KeepAgree(data: Data, next: nat, f: int -> bool, g: int -> bool)
    requires forall l :: f(l) == g(l)
    ensures KeepFrom(data, next, f) == KeepFrom(data, next, g)
    decreases |data|
  {
    if data != [] {
      KeepValuesAgree(data[0].1, next, f, g);
      KeepAgree(data[1..], next + |data[0].1|, f, g);
    }
  }

  /** The test the scan applies to number `l`. */
  function Test(kind: Kind, counter: map<int, bv32>, n: bv32): int -> bool
    requires 1 <= n <= 30
  {
    l => Pass(kind, Bits(counter, l), n)
  }

  /** The logical test: all, some or no branch returned something carrying number `l`. */
  ghost function Logical(kind: Kind, results: seq<Result>, key: int, n: bv32): int -> bool {
    l => Meant(kind, n, ReturnedBy(results, key, l))
  }

  ghost function ReturnedBy(results: seq<Result>, key: int, l: int): bv32 -> bool {
    b => Returned(results, key, b, l)
  }

  ghost predicate AllWithin(counter: map<int, bv32>, n: bv32)
    requires 1 <= n <= 30
  {
    forall l: int :: Within(Bits(counter, l), n)
  }

  /** `after` is `before` with the branch's bit set for exactly the numbers `data` carries. */
  ghost predicate Counted(before: map<int, bv32>, after: map<int, bv32>, data: Data, key: int, branch: bv32, n: bv32)
    requires 1 <= n <= 30
  {
    forall l: int, b: bv32 | 1 <= b <= n ::
      Has(Bits(after, l), b) <==> (Has(Bits(before, l), b) || (b == branch && Carries(data, key, l)))
  }

  /** The counters after one pair of a branch result. */
  ghost function CountPair(counter: map<int, bv32>, pair: (History, seq<Value>), key: int, branch: bv32): map<int, bv32>
    requires 1 <= branch <= 30
  {
    if pair.1 == [] || Find(pair.0, key).None? then counter
    else
      var num := Find(pair.0, key).value;
      counter[num := UpdateCounter(Bits(counter, num), branch)]
  }

  lemma {:induction false} CountPairAt(mid: map<int, bv32>, pair: (History, seq<Value>), key: int, branch: bv32, n: bv32, l: int, b: bv32)
    requires 1 <= branch <= n <= 30 && 1 <= b <= n && Within(Bits(mid, l), n)
    ensures var after := CountPair(mid, pair, key, branch);
            && Within(Bits(after, l), n)
            && (Has(Bits(after, l), b)
                <==> Has(Bits(mid, l), b) || (b == branch && pair.1 != [] && Find(pair.0, key) == Some(l)))
  {
    if pair.1 != [] && Find(pair.0, key) == Some(l) {
      UpdateHas(Bits(mid, l), branch, n);
    }
  }

  lemma {:induction false} CountStep(before: map<int, bv32>, mid: map<int, bv32>, data: Data, j: nat, key: int, branch: bv32, n: bv32)
    requires 1 <= branch <= n <= 30 && j < |data|
    requires AllWithin(mid, n) && Counted(before, mid, data[..j], key, branch, n)
    ensures AllWithin(CountPair(mid, data[j], key, branch), n)
    ensures Counted(before, CountPair(mid, data[j], key, branch), data[..j + 1], key, branch, n)
  {
    var after := CountPair(mid, data[j], key, branch);
    forall l: int ensures Within(Bits(after, l), n) {
      CountPairAt(mid, data[j], key, branch, n, l, 1);
    }
    forall l: int, b: bv32 | 1 <= b <= n
      ensures Has(Bits(after, l), b) <==> (Has(Bits(before, l), b) || (b == branch && Carries(data[..j + 1], key, l)))
    {
      CountPairAt(mid, data[j], key, branch, n, l, b);
      CarriesStep(data, key, j, l);
      assert Has(Bits(mid, l), b) <==> (Has(Bits(before, l), b) || (b == branch && Carries(data[..j], key, l)));
    }
  }

  lemma {:induction false} KeepUnroll(data: Data, j: nat, next: nat, keep: int -> bool)
    requires j < |data|
    ensures KeepFrom(data[j..], next, keep)
         == [(data[j].0, KeepValues(data[j].1, next, keep))] + KeepFrom(data[j + 1..], next + |data[j].1|, keep)
  {
  }

  /** The scan of one pair: erases the values that do not pass. */
  method ScanValues(vs: seq<Value>, next: nat, keep: int -> bool) returns (rest: seq<Value>)
    ensures rest == KeepValues(vs, next, keep)
  {
    rest := [];
    for k := 0 to |vs|
      invariant KeepValues(vs, next, keep) == rest + KeepValues(vs[k..], next + k, keep)
    {
      assert vs[k..][1..] == vs[k + 1..];
      ghost var tail := KeepValues(vs[k + 1..], next + k + 1, keep);
      if keep(next + k) {
        Snoc(rest, vs[k], tail);
        rest := rest + [vs[k]];
      } else {
        assert [] + tail == tail;
      }
    }
    assert rest + [] == rest;
  }

  /** The positional scan over the stored input, one running number for all pairs. */
  method Scan(data: Data, keep: int -> bool) returns (kept: Data)
    ensures kept == KeepFrom(data, 0, keep)
  {
    kept := [];
    var i: nat := 0;
    for j := 0 to |data|
      invariant KeepFrom(data, 0, keep) == kept + KeepFrom(data[j..], i, keep)
    {
      var rest := ScanValues(data[j].1, i, keep);
      KeepUnroll(data, j, i, keep);
      Snoc(kept, (data[j].0, rest), KeepFrom(data[j + 1..], i + |data[j].1|, keep));
      i := i + |data[j].1|;
      kept := kept + [(data[j].0, rest)];
    }
  }

  class FilterData {
    const base: BranchData
    const key: int
    const kind: Kind
    var counter: map<int, bv32>
    var data: Data

    constructor (key: int, kind: Kind, branches: nat, input: Data)
      ensures fresh(base) && base.Abs() == Empty && base.expected == branches
      ensures this.key == key && this.kind == kind && data == input && counter == map[]
    {
      this.key, this.kind, data, counter := key, kind, input, map[];
      base := new BranchData(branches);
    }

    /** The first loop of process_branch: set the branch's bit for every number returned. */
    method Count(r: Result, n: bv32)
      requires 1 <= r.branch <= n <= 30
      requires AllWithin(counter, n)
      modifies this
      ensures data == old(data) && AllWithin(counter, n)
      ensures Counted(old(counter), counter, r.data, key, r.branch, n)
    {
      for j := 0 to |r.data|
        invariant data == old(data) && AllWithin(counter, n)
        invariant Counted(old(counter), counter, r.data[..j], key, r.branch, n)
      {
        CountStep(old(counter), counter, r.data, j, key, r.branch, n);
        ghost var after := CountPair(counter, r.data[j], key, r.branch);
        var (h, vs) := r.data[j];
        if vs != [] {
          var found := Find(h, key);
          if found.Some? {
            counter := counter[found.value := UpdateCounter(Bits(counter, found.value), r.branch)];
          }
        }
        assert counter == after;
      }
      assert r.data[..|r.data|] == r.data;
    }

    /** One branch result: count it, and forward the filtered input when it is the last one. */
    method ProcessBranch(r: Result, end: Path, n: bv32) returns (out: Option<Data>)
      requires 1 <= r.branch <= n <= 30 && end <= r.path
      requires AllWithin(counter, n)
      modifies this, base
      ensures base.expected == old(base.expected)
      ensures base.Abs() == Arrive(old(base.Abs()), r.path, end)
      ensures AllWithin(counter, n) && Counted(old(counter), counter, r.data, key, r.branch, n)
      ensures out.Some? <==> Ready(old(base.Abs()), r.path, end, base.expected)
      ensures out.None? ==> data == old(data)
      ensures out.Some? ==> out.value == data == KeepFrom(old(data), 0, Test(kind, counter, n))
    {
      var ready, _ := base.IsReady(r.path, end);
      Count(r, n);
      out := None;
      if ready {
        data := Scan(data, Test(kind, counter, n));
        out := Some(data);
      }
    }
  }

  lemma {:induction false} CarriesStep(data: Data, key: int, j: nat, l: int)
    requires j < |data|
    ensures Carries(data[..j + 1], key, l)
      <==> (Carries(data[..j], key, l) || (data[j].1 != [] && Find(data[j].0, key) == Some(l)))
  {
  }

  function Paths(results: seq<Result>): seq<Path> {
    seq(|results|, i requires 0 <= i < |results| => results[i].path)
  }

  /** The distributed filter is the logical one: for every input, every way the
      branches batch their results and every arrival order, the input filtered
      by "all / some / no branch returned something carrying this value's
      number" is forwarded, once, on the last arrival. */
  method FilterRun(input: Data, key: int, kind: Kind, n: bv32, branches: nat, ghost trees: seq<Tree>, end: Path, arrivals: seq<Result>)
    returns (outs: seq<Option<Data>>)
    requires 1 <= n <= 30 && branches == n as nat && |trees| == branches && trees != []
    requires forall k | 0 <= k < |arrivals| :: 1 <= arrivals[k].branch <= n
    requires multiset(Paths(arrivals)) == multiset(ForestPaths(trees, end))
    ensures |outs| == |arrivals| > 0
    ensures forall k | 0 <= k < |outs| - 1 :: outs[k] == None
    ensures outs[|outs| - 1] == Some(KeepFrom(input, 0, Logical(kind, arrivals, key, n)))
  {
    NotEmpty(trees, end, arrivals);
    var f := new FilterData(key, kind, branches, input);
    outs := ReceiveAll(f, input, branches, key, kind, n, trees, end, arrivals);
    assert arrivals[..|arrivals|] == arrivals;
    SameFilter(input, key, kind, n, f.counter, arrivals);
  }

  method ReceiveAll(f: FilterData, input: Data, branches: nat, key: int, kind: Kind, n: bv32,
                    ghost trees: seq<Tree>, end: Path, arrivals: seq<Result>) returns (outs: seq<Option<Data>>)
    requires 1 <= n <= 30 && |trees| == branches > 0 && arrivals != []
    requires forall k | 0 <= k < |arrivals| :: 1 <= arrivals[k].branch <= n
    requires multiset(Paths(arrivals)) == multiset(ForestPaths(trees, end))
    requires Progress(f, input, branches, key, kind, n, end, arrivals, 0)
    modifies f, f.base
    ensures Progress(f, input, branches, key, kind, n, end, arrivals, |arrivals|) && |outs| == |arrivals|
    ensures forall k | 0 <= k < |outs| - 1 :: outs[k] == None
    ensures outs[|outs| - 1] == Some(f.data)
  {
    outs := [];
    for i := 0 to |arrivals|
      invariant Progress(f, input, branches, key, kind, n, end, arrivals, i) && |outs| == i
      invariant forall k | 0 <= k < i && k < |arrivals| - 1 :: outs[k] == None
      invariant i == |arrivals| ==> outs[i - 1] == Some(f.data)
    {
      var out := Receive(f, input, branches, key, kind, n, trees, end, arrivals, i);
      outs := outs + [out];
    }
  }

  /** State of the filter after the first `i` arrivals. */
  ghost predicate Progress(f: FilterData, input: Data, branches: nat, key: int, kind: Kind, n: bv32,
                           end: Path, arrivals: seq<Result>, i: nat)
    requires 1 <= n <= 30
    reads f, f.base
  {
    && i <= |arrivals| && From(Paths(arrivals), end)
    && f.base.expected == branches && f.key == key && f.kind == kind
    && f.base.Abs() == Run(Empty, Paths(arrivals)[..i], end)
    && Tracks(f.counter, arrivals[..i], key, n)
    && f.data == if i < |arrivals| then input else KeepFrom(input, 0, Test(kind, f.counter, n))
  }

  method Receive(f: FilterData, input: Data, branches: nat, key: int, kind: Kind, n: bv32,
                 ghost trees: seq<Tree>, end: Path, arrivals: seq<Result>, i: nat) returns (out: Option<Data>)
    requires 1 <= n <= 30 && |trees| == branches > 0 && i < |arrivals| && 1 <= arrivals[i].branch <= n
    requires multiset(Paths(arrivals)) == multiset(ForestPaths(trees, end))
    requires Progress(f, input, branches, key, kind, n, end, arrivals, i)
    modifies f, f.base
    ensures Progress(f, input, branches, key, kind, n, end, arrivals, i + 1)
    ensures out == if i == |arrivals| - 1 then Some(f.data) else None
  {
    FanInExact(trees, end, Paths(arrivals));
    RunStep(Empty, Paths(arrivals), i, end);
    ghost var before := f.counter;
    out := f.ProcessBranch(arrivals[i], end, n);
    TrackStep(before, f.counter, arrivals, i, key, n);
  }

  lemma {:induction false} NotEmpty(trees: seq<Tree>, end: Path, arrivals: seq<Result>)
    requires trees != [] && multiset(Paths(arrivals)) == multiset(ForestPaths(trees, end))
    ensures arrivals != [] && From(Paths(arrivals), end)
  {
    FanInExact(trees, end, Paths(arrivals));
    ForestBelow(trees, end);
    SameElements(Paths(arrivals), ForestPaths(trees, end));
    assert ForestPaths(trees, end)[0] in Paths(arrivals);
  }

  /** The counters record exactly which branches returned which numbers. */
  ghost predicate Tracks(counter: map<int, bv32>, results: seq<Result>, key: int, n: bv32)
    requires 1 <= n <= 30
  {
    && AllWithin(counter, n)
    && forall l: int, b: bv32 | 1 <= b <= n :: Has(Bits(counter, l), b) <==> Returned(results, key, b, l)
  }

  lemma {:induction false} TrackStep(before: map<int, bv32>, after: map<int, bv32>, results: seq<Result>, i: nat, key: int, n: bv32)
    requires 1 <= n <= 30 && i < |results| && AllWithin(after, n)
    requires Tracks(before, results[..i], key, n)
    requires Counted(before, after, results[i].data, key, results[i].branch, n)
    ensures Tracks(after, results[..i + 1], key, n)
  {
  }

  lemma {:induction false} SameFilter(input: Data, key: int, kind: Kind, n: bv32, counter: map<int, bv32>, results: seq<Result>)
    requires 1 <= n <= 30 && Tracks(counter, results, key, n)
    ensures KeepFrom(input, 0, Test(kind, counter, n)) == KeepFrom(input, 0, Logical(kind, results, key, n))
  {
    forall l: int
      ensures Test(kind, counter, n)(l) == Logical(kind, results, key, n)(l)
    {
      PassMeaning(kind, Bits(counter, l), n, ReturnedBy(results, key, l));
    }
    KeepAgree(input, 0, Test(kind, counter, n), Logical(kind, results, key, n));
  }
}
