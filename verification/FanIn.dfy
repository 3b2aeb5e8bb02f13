/** Message fan-out and fan-in.

    Every message carries a path of sibling counts.  When a message is expanded
    into `n` messages, each child's path is the parent's path followed by `n`.
    A collector receives the leaves of such a message tree in any order and
    decides, by counting and carrying on paths alone, when the last one is in.
 */
module FanIn {

  type Path = seq<nat>

  /** Abstract collector: the counters that are not zero, and how many message
      trees have been counted completely. */
  datatype Collector = Collector(counters: map<Path, nat>, done: nat)

  const Empty := Collector(map[], 0)

  function Get(counters: map<Path, nat>, p: Path): nat {
    if p in counters then counters[p] else 0
  }

  /** Writes a counter; a counter at zero is not stored. */
  function Put(s: Collector, p: Path, v: nat): Collector {
    s.(counters := if v == 0 then s.counters - {p} else s.counters[p := v])
  }

  function Last(p: Path): nat
    requires p != []
  {
    p[|p| - 1]
  }

  function Parent(p: Path): Path
    requires p != []
  {
    p[..|p| - 1]
  }

  /** One message with path `p` is counted; a full group of siblings carries to its parent. */
  function Arrive(s: Collector, p: Path, end: Path): Collector
    requires end <= p
    decreases |p|
  {
    if p == end then s.(done := s.done + 1)
    else
      var v := Get(s.counters, p) + 1;
      if v == Last(p) then Arrive(Put(s, p, 0), Parent(p), end) else Put(s, p, v)
  }

  /** Every path of `arrivals` extends the path the collection ends at. */
  ghost predicate From(arrivals: seq<Path>, end: Path) {
    forall i | 0 <= i < |arrivals| :: end <= arrivals[i]
  }

  ghost function Run(s: Collector, arrivals: seq<Path>, end: Path): Collector
    requires From(arrivals, end)
    decreases |arrivals|
  {
    if arrivals == [] then s else Run(Arrive(s, arrivals[0], end), arrivals[1..], end)
  }

  /** What IsReady answers when a message with path `p` arrives in state `s`
      and `total` trees are expected. */
  predicate Ready(s: Collector, p: Path, end: Path, total: nat)
    requires end <= p
  {
    var s' := Arrive(s, p, end);
    s'.done > s.done && s'.done == total
  }

  // ---------- counting does not depend on the order ----------

  lemma {:induction false} PutSwap(s: Collector, p: Path, v: nat, q: Path, w: nat)
    requires p != q
    ensures Put(Put(s, p, v), q, w) == Put(Put(s, q, w), p, v)
  {
  }

  /** Counting at `p` touches only prefixes of `p`. */
  lemma {:induction false} ArriveFrame(s: Collector, p: Path, end: Path, q: Path, v: nat)
    requires end <= p && !(q <= p)
    ensures Arrive(Put(s, q, v), p, end) == Put(Arrive(s, p, end), q, v)
    ensures Get(Arrive(s, p, end).counters, q) == Get(s.counters, q)
    decreases |p|
  {
    if p != end {
      var n := Get(s.counters, p) + 1;
      assert Get(Put(s, q, v).counters, p) + 1 == n;
      if n == Last(p) {
        PutSwap(s, p, 0, q, v);
        ArriveFrame(Put(s, p, 0), Parent(p), end, q, v);
      } else {
        PutSwap(s, p, n, q, v);
      }
    }
  }

  lemma {:induction false} ArriveDone(s: Collector, p: Path, end: Path)
    requires end <= p
    ensures s.done <= Arrive(s, p, end).done <= s.done + 1
    decreases |p|
  {
    if p != end && Get(s.counters, p) + 1 == Last(p) {
      ArriveDone(Put(s, p, 0), Parent(p), end);
    }
  }

  /** Two arrivals leave the same counters in either order. */
  lemma {:induction false} ArriveCommutes(s: Collector, p: Path, q: Path, end: Path)
    requires end <= p && end <= q
    ensures Arrive(Arrive(s, p, end), q, end) == Arrive(Arrive(s, q, end), p, end)
    decreases |p| + |q|
  {
    if |p| < |q| {
      ArriveDeeper(s, p, q, end);
    } else if p != q {
      ArriveDeeper(s, q, p, end);
    }
  }

  lemma {:induction false} ArriveDeeper(s: Collector, p: Path, q: Path, end: Path)
    requires end <= p && end <= q && |p| <= |q| && p != q
    ensures Arrive(Arrive(s, p, end), q, end) == Arrive(Arrive(s, q, end), p, end)
    decreases |p| + |q|, 0
  {
    assert !(q <= p);
    if q == end {
      assert false;
    }
    var v := Get(s.counters, q) + 1;
    ArriveFrame(s, p, end, q, 0);
    ArriveFrame(s, p, end, q, v);
    if v == Last(q) {
      ArriveCommutes(Put(s, q, 0), p, Parent(q), end);
    }
  }

  lemma {:induction false} RunConcat(s: Collector, a: seq<Path>, b: seq<Path>, end: Path)
    requires From(a + b, end)
    ensures From(a, end) && From(b, end)
    ensures Run(s, a + b, end) == Run(Run(s, a, end), b, end)
    decreases |a|
  {
    assert forall i | 0 <= i < |a| :: a[i] == (a + b)[i];
    assert forall i | 0 <= i < |b| :: b[i] == (a + b)[|a| + i];
    if a == [] {
      assert a + b == b;
    } else {
      assert (a + b)[1..] == a[1..] + b;
      RunConcat(Arrive(s, a[0], end), a[1..], b, end);
    }
  }

  lemma {:induction false} RunToFront(s: Collector, a: seq<Path>, x: Path, end: Path)
    requires end <= x && From(a, end)
    ensures Run(Arrive(s, x, end), a, end) == Arrive(Run(s, a, end), x, end)
    decreases |a|
  {
    if a != [] {
      ArriveCommutes(s, x, a[0], end);
      RunToFront(Arrive(s, a[0], end), a[1..], x, end);
    }
  }

  lemma {:induction false} RunExtract(s: Collector, b: seq<Path>, i: nat, end: Path)
    requires From(b, end) && i < |b|
    ensures From(b[..i] + b[i + 1..], end)
    ensures Run(s, b, end) == Run(Arrive(s, b[i], end), b[..i] + b[i + 1..], end)
  {
    var u, v, x := b[..i], b[i + 1..], b[i];
    assert b == u + ([x] + v);
    RunConcat(s, u, [x] + v, end);
    assert ([x] + v)[1..] == v;
    RunToFront(s, u, x, end);
    RunConcat(Arrive(s, x, end), u, v, end);
  }

  lemma {:induction false} SameElements<T>(a: seq<T>, b: seq<T>)
    requires multiset(a) == multiset(b)
    ensures forall i | 0 <= i < |b| :: b[i] in a
  {
    forall i | 0 <= i < |b| ensures b[i] in a {
      assert b[i] in multiset(b);
    }
  }

  lemma {:induction false} Remove<T>(b: seq<T>, i: nat)
    requires i < |b|
    ensures multiset(b[..i] + b[i + 1..]) == multiset(b) - multiset{b[i]}
  {
    assert b == b[..i] + [b[i]] + b[i + 1..];
  }

  lemma {:induction false} FindFirst<T>(a: seq<T>, b: seq<T>) returns (i: nat)
    requires multiset(a) == multiset(b) && a != []
    ensures i < |b| && b[i] == a[0] && multiset(a[1..]) == multiset(b[..i] + b[i + 1..])
  {
    assert a[0] in multiset(a);
    i :| i < |b| && b[i] == a[0];
    Remove(b, i);
    Remove(a, 0);
    assert a[..0] + a[1..] == a[1..];
  }

  /** Any two arrival orders of the same messages leave the same state. */
  lemma {:induction false} RunPermuted(s: Collector, a: seq<Path>, b: seq<Path>, end: Path)
    requires multiset(a) == multiset(b) && From(a, end)
    ensures From(b, end)
    ensures Run(s, a, end) == Run(s, b, end)
    decreases |a|
  {
    SameElements(a, b);
    if a == [] {
      assert b == [];
    } else {
      var i := FindFirst(a, b);
      RunPermuted(Arrive(s, a[0], end), a[1..], b[..i] + b[i + 1..], end);
      RunExtract(s, b, i, end);
    }
  }

  // ---------- message trees ----------

  /** A message and the messages it was expanded into; a leaf reached the collector. */
  datatype Tree = Node(kids: seq<Tree>)

  function LeafPaths(t: Tree, p: Path): seq<Path>
    decreases t, 1
  {
    if t.kids == [] then [p] else ForestPaths(t.kids, p + [|t.kids|])
  }

  function ForestPaths(ts: seq<Tree>, p: Path): seq<Path>
    decreases ts, 0
  {
    if ts == [] then [] else LeafPaths(ts[0], p) + ForestPaths(ts[1..], p)
  }

  lemma {:induction false} LeafBelow(t: Tree, p: Path)
    ensures LeafPaths(t, p) != [] && From(LeafPaths(t, p), p)
    decreases t, 1
  {
    if t.kids != [] { ForestBelow(t.kids, p + [|t.kids|]); }
  }

  lemma {:induction false} ForestBelow(ts: seq<Tree>, p: Path)
    ensures |ForestPaths(ts, p)| >= |ts| && From(ForestPaths(ts, p), p)
    decreases ts, 0
  {
    if ts != [] {
      LeafBelow(ts[0], p);
      ForestBelow(ts[1..], p);
    }
  }

  /** Every counter is stored, positive, and short of its sibling count. */
  ghost predicate Bounded(s: Collector) {
    forall p | p in s.counters :: p != [] && 0 < s.counters[p] < Last(p)
  }

  ghost predicate PositiveAfter(p: Path, end: Path) {
    end <= p && forall i | |end| <= i < |p| :: p[i] > 0
  }

  lemma {:induction false} ArriveBounded(s: Collector, p: Path, end: Path)
    requires Bounded(s) && PositiveAfter(p, end)
    ensures Bounded(Arrive(s, p, end))
    decreases |p|
  {
    if p != end && Get(s.counters, p) + 1 == Last(p) {
      ArriveBounded(Put(s, p, 0), Parent(p), end);
    }
  }

  /** `n` arrivals on one path. */
  ghost function Repeat(s: Collector, q: Path, n: nat, end: Path): Collector
    requires end <= q
    decreases n
  {
    if n == 0 then s else Repeat(Arrive(s, q, end), q, n - 1, end)
  }

  lemma {:induction false} RepeatBelow(s: Collector, q: Path, n: nat, end: Path)
    requires Bounded(s) && end <= q && q != end && Get(s.counters, q) + n < Last(q)
    ensures Repeat(s, q, n, end) == Put(s, q, Get(s.counters, q) + n)
    decreases n
  {
    if n == 0 {
      assert Put(s, q, Get(s.counters, q)).counters == s.counters;
    } else {
      var s' := Arrive(s, q, end);
      RepeatBelow(s', q, n - 1, end);
      assert Put(s', q, Get(s.counters, q) + n).counters == Put(s, q, Get(s.counters, q) + n).counters;
    }
  }

  lemma {:induction false} RepeatSplit(s: Collector, q: Path, m: nat, n: nat, end: Path)
    requires end <= q
    ensures Repeat(s, q, m + n, end) == Repeat(Repeat(s, q, m, end), q, n, end)
    decreases m
  {
    if m > 0 { RepeatSplit(Arrive(s, q, end), q, m - 1, n, end); }
  }

  /** The arrival that fills the group resets its counter and counts the parent. */
  lemma {:induction false} RepeatToCarry(s: Collector, q: Path, end: Path)
    requires Bounded(s) && PositiveAfter(q, end) && q != end
    ensures Repeat(s, q, Last(q) - Get(s.counters, q), end) == Arrive(Put(s, q, 0), Parent(q), end)
  {
    var n := Last(q) - 1 - Get(s.counters, q);
    var full := Put(s, q, Last(q) - 1);
    RepeatSplit(s, q, n, 1, end);
    RepeatBelow(s, q, n, end);
    assert Put(full, q, 0).counters == Put(s, q, 0).counters;
    assert Repeat(full, q, 1, end) == Repeat(Arrive(full, q, end), q, 0, end);
  }

  /** A whole group of siblings counts exactly as their parent does, whatever was counted before. */
  lemma {:induction false} RepeatGroup(s: Collector, q: Path, end: Path)
    requires Bounded(s) && PositiveAfter(q, end) && q != end
    ensures Repeat(s, q, Last(q), end) == Arrive(s, Parent(q), end)
  {
    var c, base := Get(s.counters, q), Put(s, q, 0);
    var up := Arrive(base, Parent(q), end);
    assert Repeat(s, q, Last(q), end) == Repeat(up, q, c, end) by {
      RepeatToCarry(s, q, end);
      RepeatSplit(s, q, Last(q) - c, c, end);
    }
    assert Put(base, q, c) == s by { assert Put(base, q, c).counters == s.counters; }
    assert Arrive(s, Parent(q), end) == Put(up, q, c) && Get(up.counters, q) == 0 by {
      ArriveFrame(base, Parent(q), end, q, c);
    }
    assert Repeat(up, q, c, end) == Put(up, q, c) by {
      ArriveBounded(base, Parent(q), end);
      RepeatBelow(up, q, c, end);
    }
  }

  lemma {:induction false} TreeRun(s: Collector, t: Tree, p: Path, end: Path)
    requires Bounded(s) && PositiveAfter(p, end)
    ensures From(LeafPaths(t, p), end)
    ensures Run(s, LeafPaths(t, p), end) == Arrive(s, p, end)
    decreases t, 1
  {
    LeafBelow(t, p);
    if t.kids == [] {
      assert Run(s, [p], end) == Run(Arrive(s, p, end), [], end);
    } else {
      var q := p + [|t.kids|];
      assert Parent(q) == p;
      ForestRun(s, t.kids, q, end);
      RepeatGroup(s, q, end);
    }
  }

  lemma {:induction false} ForestRun(s: Collector, ts: seq<Tree>, p: Path, end: Path)
    requires Bounded(s) && PositiveAfter(p, end)
    ensures From(ForestPaths(ts, p), end)
    ensures Run(s, ForestPaths(ts, p), end) == Repeat(s, p, |ts|, end)
    decreases ts, 0
  {
    ForestBelow(ts, p);
    if ts != [] {
      TreeRun(s, ts[0], p, end);
      ArriveBounded(s, p, end);
      ForestRun(Arrive(s, p, end), ts[1..], p, end);
      RunConcat(s, LeafPaths(ts[0], p), ForestPaths(ts[1..], p), end);
    }
  }

  lemma {:induction false} RepeatAtEnd(s: Collector, n: nat, end: Path)
    ensures Repeat(s, end, n, end) == s.(done := s.done + n)
    decreases n
  {
    if n > 0 { RepeatAtEnd(Arrive(s, end, end), n - 1, end); }
  }

  lemma {:induction false} RunDone(s: Collector, a: seq<Path>, end: Path)
    requires From(a, end)
    ensures s.done <= Run(s, a, end).done
    decreases |a|
  {
    if a != [] {
      ArriveDone(s, a[0], end);
      RunDone(Arrive(s, a[0], end), a[1..], end);
    }
  }

  /** An arrival that leaves no counter standing went all the way to the end path. */
  lemma {:induction false} ZeroMeansCarried(s: Collector, p: Path, end: Path)
    requires end <= p && Arrive(s, p, end).counters == map[]
    ensures Arrive(s, p, end).done == s.done + 1
    decreases |p|
  {
    if p != end {
      var v := Get(s.counters, p) + 1;
      assert v != Last(p) ==> p in Put(s, p, v).counters;
      ZeroMeansCarried(Put(s, p, 0), Parent(p), end);
    }
  }

  /** Fan-in exactness: whatever trees the messages form and in whatever order
      their leaves arrive, the collector is ready on the last leaf and on no
      earlier one, and every path counter is back at zero. */
  lemma {:induction false} FanInExact(trees: seq<Tree>, end: Path, arrivals: seq<Path>)
    requires trees != []
    requires multiset(arrivals) == multiset(ForestPaths(trees, end))
    ensures From(arrivals, end)
    ensures Run(Empty, arrivals, end) == Collector(map[], |trees|)
    ensures forall k | 0 <= k < |arrivals| ::
              Ready(Run(Empty, arrivals[..k], end), arrivals[k], end, |trees|) <==> k == |arrivals| - 1
  {
    ForestBelow(trees, end);
    ForestRun(Empty, trees, end, end);
    RepeatAtEnd(Empty, |trees|, end);
    RunPermuted(Empty, ForestPaths(trees, end), arrivals, end);
    forall k | 0 <= k < |arrivals|
      ensures Ready(Run(Empty, arrivals[..k], end), arrivals[k], end, |trees|) <==> k == |arrivals| - 1
    {
      LastArrival(trees, end, arrivals, k);
    }
  }

  lemma {:induction false} LastArrival(trees: seq<Tree>, end: Path, arrivals: seq<Path>, k: nat)
    requires k < |arrivals| && From(arrivals, end)
    requires Run(Empty, arrivals, end) == Collector(map[], |trees|)
    ensures Ready(Run(Empty, arrivals[..k], end), arrivals[k], end, |trees|) <==> k == |arrivals| - 1
  {
    var n := |arrivals| - 1;
    var before := Run(Empty, arrivals[..n], end);
    assert arrivals == arrivals[..n] + [arrivals[n]];
    RunConcat(Empty, arrivals[..n], [arrivals[n]], end);
    assert Run(before, [arrivals[n]], end) == Run(Arrive(before, arrivals[n], end), [], end);
    ZeroMeansCarried(before, arrivals[n], end);
    if k < n {
      assert arrivals[..n] == arrivals[..k] + ([arrivals[k]] + arrivals[k + 1..n]);
      RunConcat(Empty, arrivals[..k], [arrivals[k]] + arrivals[k + 1..n], end);
      assert ([arrivals[k]] + arrivals[k + 1..n])[1..] == arrivals[k + 1..n];
      RunDone(Arrive(Run(Empty, arrivals[..k], end), arrivals[k], end), arrivals[k + 1..n], end);
    }
  }

  // ---------- the collector object ----------

  ghost function Nonzero(counters: map<Path, nat>): map<Path, nat> {
    map p | p in counters && counters[p] != 0 :: counters[p]
  }

  /** The per-key data of a labelled branch: one counter per path ever counted,
      and the pair (branches expected, branches collected). */
  class BranchData {
    var pathCounter: map<Path, nat>
    var expected: nat
    var collected: nat

    constructor (branches: nat)
      ensures Abs() == Empty && expected == branches
    {
      pathCounter := map[];
      expected, collected := branches, 0;
    }

    ghost function Abs(): Collector
      reads this
    {
      Collector(Nonzero(pathCounter), collected)
    }

    method IsReady(msgPath: Path, endPath: Path) returns (ready: bool, newPath: Path)
      requires endPath <= msgPath
      modifies this
      ensures expected == old(expected)
      ensures Abs() == Arrive(old(Abs()), msgPath, endPath)
      ensures ready == Ready(old(Abs()), msgPath, endPath, expected)
      ensures newPath == if ready then endPath else msgPath
    {
      var p := msgPath;
      newPath := msgPath;
      while p != endPath
        invariant endPath <= p
        invariant expected == old(expected) && collected == old(collected)
        invariant Arrive(Abs(), p, endPath) == Arrive(old(Abs()), msgPath, endPath)
        decreases |p|
      {
        ghost var before := Abs();
        if p !in pathCounter {
          pathCounter := pathCounter[p := 0];
        }
        var count := pathCounter[p] + 1;
        assert count == Get(before.counters, p) + 1;
        if count == Last(p) {
          pathCounter := pathCounter[p := 0];
          assert Abs().counters == Put(before, p, 0).counters;
          p := Parent(p);
        } else {
          pathCounter := pathCounter[p := count];
          assert Abs().counters == Put(before, p, count).counters;
          return false, msgPath;
        }
      }
      collected := collected + 1;
      if expected == collected {
        return true, endPath;
      }
      ready := false;
    }
  }

  /** The collector driven by a whole run: one answer per arrival. */
  method CollectAll(ghost trees: seq<Tree>, branches: nat, end: Path, arrivals: seq<Path>) returns (answers: seq<bool>)
    requires trees != [] && branches == |trees|
    requires multiset(arrivals) == multiset(ForestPaths(trees, end))
    ensures |answers| == |arrivals|
    ensures forall k | 0 <= k < |answers| :: answers[k] <==> k == |arrivals| - 1
  {
    FanInExact(trees, end, arrivals);
    var data := new BranchData(branches);
    answers := [];
    for i := 0 to |arrivals|
      invariant data.expected == branches && fresh(data)
      invariant data.Abs() == Run(Empty, arrivals[..i], end)
      invariant |answers| == i
      invariant forall k | 0 <= k < i :: answers[k] <==> k == |arrivals| - 1
    {
      var ready, _ := data.IsReady(arrivals[i], end);
      answers := answers + [ready];
      RunStep(Empty, arrivals, i, end);
    }
  }

  lemma {:induction false} RunStep(s: Collector, arrivals: seq<Path>, i: nat, end: Path)
    requires i < |arrivals| && From(arrivals, end)
    ensures Run(s, arrivals[..i + 1], end) == Arrive(Run(s, arrivals[..i], end), arrivals[i], end)
  {
    assert arrivals[..i + 1] == arrivals[..i] + [arrivals[i]];
    RunConcat(s, arrivals[..i], [arrivals[i]], end);
    assert Run(Run(s, arrivals[..i], end), [arrivals[i]], end)
        == Run(Arrive(Run(s, arrivals[..i], end), arrivals[i], end), [], end);
  }
}
