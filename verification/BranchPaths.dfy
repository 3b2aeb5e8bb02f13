/** Paths of messages sent into the sub-queries of a branch.

    A message tree that grew below the path `p` reaches a branch of `s` steps.
    Each of its leaves is sent into every step, with `s` written into its path
    right behind `p`, in front of the counts the tree had already added.
 */
module BranchPaths {
  import opened FanIn

  /** The path of a branched message: the step count goes behind the end path. */
  function Rebased(path: Path, p: Path, s: nat): Path
    requires p <= path
  {
    p + [s] + path[|p|..]
  }

  ghost predicate RebasedAll(paths: seq<Path>, rebased: seq<Path>, p: Path, s: nat) {
    |rebased| == |paths| && forall i | 0 <= i < |paths| :: p <= paths[i] && rebased[i] == Rebased(paths[i], p, s)
  }

  lemma {:induction false} RebasedStep(p: Path, s: nat, x: Path, n: nat)
    ensures p + [s] + x + [n] == p + [s] + (x + [n]) && p + x + [n] == p + (x + [n])
  {
  }

  /** Writing the step count into the leaf paths of a tree is moving its root. */
  lemma {:induction false} RebasedTree(t: Tree, p: Path, s: nat, x: Path)
    ensures RebasedAll(LeafPaths(t, p + x), LeafPaths(t, p + [s] + x), p, s)
    decreases t, 1
  {
    if t.kids != [] {
      RebasedStep(p, s, x, |t.kids|);
      RebasedForest(t.kids, p, s, x + [|t.kids|]);
    }
  }

  lemma {:induction false} RebasedForest(ts: seq<Tree>, p: Path, s: nat, x: Path)
    ensures RebasedAll(ForestPaths(ts, p + x), ForestPaths(ts, p + [s] + x), p, s)
    decreases ts, 0
  {
    if ts != [] {
      RebasedTree(ts[0], p, s, x);
      RebasedForest(ts[1..], p, s, x);
    }
  }

  /** The tree `u` is `t` grown further at its leaves. */
  ghost predicate Extends(t: Tree, u: Tree)
    decreases t, 1
  {
    t.kids == [] || ExtendsAll(t.kids, u.kids)
  }

  ghost predicate ExtendsAll(ts: seq<Tree>, us: seq<Tree>)
    decreases ts, 0
  {
    if ts == [] then us == [] else us != [] && Extends(ts[0], us[0]) && ExtendsAll(ts[1..], us[1..])
  }

  ghost predicate Continues(paths: seq<Path>, path: Path) {
    exists k | 0 <= k < |paths| :: paths[k] <= path
  }

  ghost predicate AllContinue(paths: seq<Path>, more: seq<Path>) {
    forall i | 0 <= i < |more| :: Continues(paths, more[i])
  }

  lemma {:induction false} ContinueBoth(a: seq<Path>, b: seq<Path>, x: seq<Path>, y: seq<Path>)
    requires AllContinue(a, x) && AllContinue(b, y)
    ensures AllContinue(a + b, x + y)
  {
    forall i | 0 <= i < |x + y| ensures Continues(a + b, (x + y)[i]) {
      if i < |x| {
        var k :| 0 <= k < |a| && a[k] <= x[i];
        assert (a + b)[k] == a[k];
      } else {
        var k :| 0 <= k < |b| && b[k] <= y[i - |x|];
        assert (a + b)[|a| + k] == b[k];
      }
    }
  }

  lemma {:induction false} SameLength(ts: seq<Tree>, us: seq<Tree>)
    requires ExtendsAll(ts, us)
    ensures |ts| == |us|
  {
    if ts != [] {
      SameLength(ts[1..], us[1..]);
    }
  }

  /** Messages below a grown leaf carry the leaf's path on. */
  lemma {:induction false} GrownTree(t: Tree, u: Tree, p: Path)
    requires Extends(t, u)
    ensures AllContinue(LeafPaths(t, p), LeafPaths(u, p))
    decreases t, 1
  {
    if t.kids == [] {
      LeafBelow(u, p);
      forall i | 0 <= i < |LeafPaths(u, p)| ensures Continues([p], LeafPaths(u, p)[i]) {
        assert [p][0] <= LeafPaths(u, p)[i];
      }
    } else {
      SameLength(t.kids, u.kids);
      GrownForest(t.kids, u.kids, p + [|t.kids|]);
    }
  }

  lemma {:induction false} GrownForest(ts: seq<Tree>, us: seq<Tree>, p: Path)
    requires ExtendsAll(ts, us)
    ensures AllContinue(ForestPaths(ts, p), ForestPaths(us, p))
    decreases ts, 0
  {
    if ts != [] {
      GrownTree(ts[0], us[0], p);
      GrownForest(ts[1..], us[1..], p);
      ContinueBoth(LeafPaths(ts[0], p), ForestPaths(ts[1..], p), LeafPaths(us[0], p), ForestPaths(us[1..], p));
    }
  }

  lemma {:induction false} StepsContinue(t: Tree, us: seq<Tree>, p: Path)
    requires forall i | 0 <= i < |us| :: Extends(t, us[i])
    ensures AllContinue(LeafPaths(t, p), ForestPaths(us, p))
    decreases |us|
  {
    if us != [] {
      GrownTree(t, us[0], p);
      StepsContinue(t, us[1..], p);
    }
  }

  /** The path goes on from the path of some leaf, with the step count written in. */
  ghost predicate FromLeaf(t: Tree, p: Path, s: nat, path: Path) {
    exists k | 0 <= k < |LeafPaths(t, p)| :: p <= LeafPaths(t, p)[k] && Rebased(LeafPaths(t, p)[k], p, s) <= path
  }

  lemma {:induction false} RebasedLeaf(t: Tree, p: Path, s: nat, path: Path)
    requires Continues(LeafPaths(t, p + [s]), path)
    ensures FromLeaf(t, p, s, path)
  {
    RebasedTree(t, p, s, []);
    assert p + [] == p && p + [s] + [] == p + [s];
    var k :| 0 <= k < |LeafPaths(t, p + [s])| && LeafPaths(t, p + [s])[k] <= path;
    assert Rebased(LeafPaths(t, p)[k], p, s) <= path;
  }

  /** However a tree below `p` had grown before it reached the branch, however
      it grows on in each step, and in whatever order its messages arrive
      behind the branch: they continue the rebased paths of its leaves, and
      together they count like one message with path `p`. */
  lemma {:induction false} BranchedRun(s: Collector, t: Tree, us: seq<Tree>, p: Path, end: Path, arrivals: seq<Path>)
    requires Bounded(s) && PositiveAfter(p, end) && us != [] && forall i | 0 <= i < |us| :: Extends(t, us[i])
    requires multiset(arrivals) == multiset(ForestPaths(us, p + [|us|]))
    ensures forall i | 0 <= i < |arrivals| :: FromLeaf(t, p, |us|, arrivals[i])
    ensures From(arrivals, end) && Run(s, arrivals, end) == Arrive(s, p, end)
  {
    var all := ForestPaths(us, p + [|us|]);
    assert LeafPaths(Node(us), p) == all;
    TreeRun(s, Node(us), p, end);
    forall i | 0 <= i < |arrivals| ensures arrivals[i] in all {
      assert arrivals[i] in multiset(arrivals);
    }
    RunPermuted(s, all, arrivals, end);
    StepsContinue(t, us, p + [|us|]);
    forall i | 0 <= i < |arrivals| ensures FromLeaf(t, p, |us|, arrivals[i]) {
      var k :| 0 <= k < |all| && all[k] == arrivals[i];
      RebasedLeaf(t, p, |us|, arrivals[i]);
    }
  }
}
