/** Optimistic validation against transactions whose status keeps changing.

    The expert reads the status of other transactions while they run.  The
    environment is a trace: the status of every transaction at every time,
    changing only by legal steps.  Each read happens at some later time than
    the one before.
 */
module Validation {
  import opened TrxStatus

  type Id = nat

  /** Status of transaction `x` at time `t`. */
  type Trace = (nat, Id) -> Stat

  ghost predicate LegalTrace(tr: Trace) {
    forall t: nat, x: Id :: Legal(tr(t, x), tr(t + 1, x))
  }

  /** A final status is final for the rest of the run. */
  lemma {:induction false} FinalStays(tr: Trace, x: Id, t: nat, u: nat)
    requires LegalTrace(tr) && Final(tr(t, x)) && t <= u
    ensures tr(u, x) == tr(t, x)
    decreases u - t
  {
    if t < u {
      assert Legal(tr(t, x), tr(t + 1, x));
      FinalStays(tr, x, t + 1, u);
    }
  }

  /** One status read: whose status, and when. */
  datatype Read = Read(x: Id, at: nat)

  ghost function Answer(tr: Trace, q: Read): Stat {
    tr(q.at, q.x)
  }

  /** The status table as the expert sees it: every read advances the clock by
      an arbitrary amount and is logged.  `abortRequests` counts the calls that
      ask the table to abort the transaction being validated. */
  class StatusReader {
    const tr: Trace
    const delay: nat -> nat
    var now: nat
    var served: nat
    var abortRequests: nat
    ghost var log: seq<Read>

    method ReadStatus(x: Id) returns (s: Stat)
      modifies `now, `served, `log
      ensures now == old(now) + delay(old(served)) && served == old(served) + 1
      ensures s == tr(now, x) && log == old(log) + [Read(x, now)]
    {
      now := now + delay(served);
      served := served + 1;
      s := tr(now, x);
      log := log + [Read(x, now)];
    }
  }

  // ---------- what the log says ----------

  /** Between the two times exactly the reads behind `was` were added. */
  ghost predicate Grows(was: seq<Read>, from: nat, log: seq<Read>, to: nat) {
    && from <= to && |was| <= |log| && log[..|was|] == was
    && forall i | |was| <= i < |log| :: from <= log[i].at <= to
  }

  lemma {:induction false} GrowsMore(a: seq<Read>, from: nat, b: seq<Read>, mid: nat, c: seq<Read>, to: nat)
    requires Grows(a, from, b, mid) && Grows(b, mid, c, to)
    ensures Grows(a, from, c, to)
  {
    assert c[..|a|] == b[..|a|];
    forall i | |a| <= i < |c| ensures from <= c[i].at <= to {
      if i < |b| {
        assert c[i] == b[i];
      }
    }
  }

  lemma {:induction false} GrowsOne(a: seq<Read>, from: nat, b: seq<Read>, mid: nat, q: Read)
    requires Grows(a, from, b, mid) && mid <= q.at
    ensures Grows(a, from, b + [q], q.at)
  {
  }

  /** From read `k` on, `x` was answered to be `s`. */
  ghost predicate Told(tr: Trace, log: seq<Read>, k: nat, x: Id, s: Stat) {
    exists i | k <= i < |log| :: log[i].x == x && Answer(tr, log[i]) == s
  }

  /** Something other than `s`. */
  ghost predicate ToldOther(tr: Trace, log: seq<Read>, k: nat, x: Id, s: Stat) {
    exists i | k <= i < |log| :: log[i].x == x && Answer(tr, log[i]) != s
  }

  /** Something that ends a wait for `good` at once. */
  ghost predicate ToldWrong(tr: Trace, log: seq<Read>, k: nat, x: Id, good: Stat) {
    exists i | k <= i < |log| :: log[i].x == x && Answer(tr, log[i]) != good && Answer(tr, log[i]) != Validating
  }

  /** No answer ended a wait for `good`. */
  ghost predicate AllFine(tr: Trace, log: seq<Read>, k: nat, good: Stat) {
    forall i | k <= i < |log| :: Answer(tr, log[i]) == good || Answer(tr, log[i]) == Validating
  }

  /** How often from read `k` on `x` was answered to be something other than `good`. */
  ghost function Refusals(tr: Trace, log: seq<Read>, k: nat, x: Id, good: Stat): nat
    decreases |log|
  {
    if |log| <= k then 0
    else Refusals(tr, log[..|log| - 1], k, x, good) +
         if log[|log| - 1].x == x && Answer(tr, log[|log| - 1]) != good then 1 else 0
  }

  lemma {:induction false} RefusalsMore(tr: Trace, a: seq<Read>, b: seq<Read>, k: nat, x: Id, good: Stat)
    requires k <= |a| <= |b| && b[..|a|] == a
    ensures Refusals(tr, b, k, x, good) == Refusals(tr, a, k, x, good) + Refusals(tr, b, |a|, x, good)
    decreases |b|
  {
    if |a| < |b| {
      assert b[..|b| - 1][..|a|] == a;
      RefusalsMore(tr, a, b[..|b| - 1], k, x, good);
    } else {
      assert a == b;
    }
  }

  lemma {:induction false} RefusalsOne(tr: Trace, log: seq<Read>, k: nat, q: Read, x: Id, good: Stat)
    requires k <= |log|
    ensures Refusals(tr, log + [q], k, x, good) ==
            Refusals(tr, log, k, x, good) + if q.x == x && Answer(tr, q) != good then 1 else 0
  {
    assert (log + [q])[..|log|] == log;
  }

  lemma {:induction false} ToldLater(tr: Trace, a: seq<Read>, b: seq<Read>, k: nat, l: nat, x: Id, s: Stat)
    requires |a| <= |b| && b[..|a|] == a && l <= k
    ensures Told(tr, a, k, x, s) ==> Told(tr, b, l, x, s)
    ensures ToldOther(tr, a, k, x, s) ==> ToldOther(tr, b, l, x, s)
    ensures ToldWrong(tr, a, k, x, s) ==> ToldWrong(tr, b, l, x, s)
  {
    assert forall i | k <= i < |a| :: a[i] == b[i];
  }

  lemma {:induction false} FineMore(tr: Trace, a: seq<Read>, b: seq<Read>, k: nat, good: Stat)
    requires k <= |a| <= |b| && b[..|a|] == a && AllFine(tr, a, k, good) && AllFine(tr, b, |a|, good)
    ensures AllFine(tr, b, k, good)
  {
    forall i | k <= i < |b| ensures Answer(tr, b[i]) == good || Answer(tr, b[i]) == Validating {
      if i < |a| {
        assert b[i] == a[i];
      }
    }
  }

  /** Everything in `xs` is in `left` or has status `s` at time `t`. */
  ghost predicate Done(tr: Trace, xs: seq<Id>, left: seq<Id>, t: nat, s: Stat) {
    forall x | x in xs :: x in left || tr(t, x) == s
  }

  lemma {:induction false} DoneStays(tr: Trace, xs: seq<Id>, left: seq<Id>, t: nat, u: nat, s: Stat)
    requires LegalTrace(tr) && Final(s) && Done(tr, xs, left, t, s) && t <= u
    ensures Done(tr, xs, left, u, s)
  {
    forall x | x in xs ensures x in left || tr(u, x) == s {
      if x !in left { FinalStays(tr, x, t, u); }
    }
  }

  lemma {:induction false} DoneErase(tr: Trace, xs: seq<Id>, left: seq<Id>, i: nat, t: nat, s: Stat)
    requires i < |left| && Done(tr, xs, left, t, s) && tr(t, left[i]) == s
    ensures Done(tr, xs, left[..i] + left[i + 1..], t, s)
  {
  }

  ghost predicate Subset(a: seq<Id>, b: seq<Id>) {
    forall x | x in a :: x in b
  }

  // ---------- dependency reads ----------

  /** Each of `xs` was answered to be neither of two states. */
  ghost predicate AllNeither(tr: Trace, log: seq<Read>, k: nat, xs: seq<Id>, a: Stat, b: Stat) {
    forall x | x in xs :: exists i | k <= i < |log| :: log[i].x == x && Answer(tr, log[i]) != a && Answer(tr, log[i]) != b
  }

  lemma {:induction false} NeitherMore(tr: Trace, log: seq<Read>, log': seq<Read>, k: nat, xs: seq<Id>, a: Stat, b: Stat)
    requires |log| <= |log'| && log'[..|log|] == log && AllNeither(tr, log, k, xs, a, b)
    ensures AllNeither(tr, log', k, xs, a, b)
  {
    assert forall i | k <= i < |log| :: log[i] == log'[i];
  }

  /** One of the two loops of valid_dependency_read: transactions that reached
      `good` are erased, one that reached `bad` fails the check. */
  method CheckDependencies(r: StatusReader, deps: seq<Id>, good: Stat, bad: Stat) returns (ok: bool, left: seq<Id>)
    requires LegalTrace(r.tr) && Final(good)
    modifies r`now, r`served, r`log
    ensures Grows(old(r.log), old(r.now), r.log, r.now) && Subset(left, deps)
    ensures ok ==> Done(r.tr, deps, left, r.now, good) && AllNeither(r.tr, r.log, |old(r.log)|, left, good, bad)
    ensures !ok ==> exists x | x in deps :: Told(r.tr, r.log, |old(r.log)|, x, bad)
  {
    left := deps;
    ghost var k := |r.log|;
    var i := 0;
    while i < |left|
      invariant i <= |left| && Grows(old(r.log), old(r.now), r.log, r.now) && Subset(left, deps)
      invariant Done(r.tr, deps, left, r.now, good) && AllNeither(r.tr, r.log, k, left[..i], good, bad)
      decreases |left| - i
    {
      ghost var before, log := r.now, r.log;
      var s := r.ReadStatus(left[i]);
      GrowsOne(old(r.log), old(r.now), log, before, Read(left[i], r.now));
      DoneStays(r.tr, deps, left, before, r.now, good);
      NeitherMore(r.tr, log, r.log, k, left[..i], good, bad);
      assert r.log[|log|] == Read(left[i], r.now);
      if s == bad {
        assert Told(r.tr, r.log, k, left[i], bad);
        return false, left;
      } else if s == good {
        DoneErase(r.tr, deps, left, i, r.now, good);
        assert (left[..i] + left[i + 1..])[..i] == left[..i];
        left := left[..i] + left[i + 1..];
      } else {
        assert left[..i + 1] == left[..i] + [left[i]];
        i := i + 1;
      }
    }
    assert left[..i] == left;
    ok := true;
  }

  // ---------- waiting for the last ones ----------

  /** Each of `xs` was answered `n` times to be something other than `good`. */
  ghost predicate AllRefused(tr: Trace, log: seq<Read>, k: nat, xs: seq<Id>, good: Stat, n: nat) {
    forall x | x in xs :: Refusals(tr, log, k, x, good) >= n
  }

  lemma {:induction false} RefusedNext(tr: Trace, log: seq<Read>, k: nat, q: Read, xs: seq<Id>, good: Stat)
    requires k <= |log| && AllRefused(tr, log, k, xs, good, 1)
    ensures AllRefused(tr, log + [q], k, xs, good, 1)
    ensures Answer(tr, q) != good ==> AllRefused(tr, log + [q], k, xs + [q.x], good, 1)
  {
    forall x ensures Refusals(tr, log + [q], k, x, good) >= Refusals(tr, log, k, x, good) {
      RefusalsOne(tr, log, k, q, x, good);
    }
    RefusalsOne(tr, log, k, q, q.x, good);
  }

  lemma {:induction false} RefusedMore(tr: Trace, a: seq<Read>, b: seq<Read>, k: nat, xs: seq<Id>, ys: seq<Id>, good: Stat, n: nat, m: nat)
    requires k <= |a| <= |b| && b[..|a|] == a && Subset(ys, xs)
    requires AllRefused(tr, a, k, xs, good, n) && AllRefused(tr, b, |a|, ys, good, m)
    ensures AllRefused(tr, b, k, ys, good, n + m)
  {
    forall x | x in ys ensures Refusals(tr, b, k, x, good) >= n + m {
      RefusalsMore(tr, a, b, k, x, good);
    }
  }

  /** One sweep of a wait loop: erase those that reached `good`; stop on any
      status other than `good` and validating. */
  method Sweep(r: StatusReader, waiting: seq<Id>, good: Stat) returns (ok: bool, left: seq<Id>)
    requires LegalTrace(r.tr) && Final(good)
    modifies r`now, r`served, r`log
    ensures Grows(old(r.log), old(r.now), r.log, r.now) && Subset(left, waiting) && |left| <= |waiting|
    ensures |r.log| <= |old(r.log)| + |waiting|
    ensures ok ==> Done(r.tr, waiting, left, r.now, good) && AllFine(r.tr, r.log, |old(r.log)|, good)
    ensures ok ==> AllRefused(r.tr, r.log, |old(r.log)|, left, good, 1)
    ensures !ok ==> exists x | x in waiting :: ToldWrong(r.tr, r.log, |old(r.log)|, x, good)
  {
    left := waiting;
    ghost var k := |r.log|;
    var i := 0;
    while i < |left|
      invariant i <= |left| <= |waiting| && Grows(old(r.log), old(r.now), r.log, r.now) && Subset(left, waiting)
      invariant |r.log| + |left| - i <= k + |waiting|
      invariant Done(r.tr, waiting, left, r.now, good) && AllFine(r.tr, r.log, k, good)
      invariant AllRefused(r.tr, r.log, k, left[..i], good, 1)
      decreases |left| - i
    {
      ghost var before, log := r.now, r.log;
      var s := r.ReadStatus(left[i]);
      GrowsOne(old(r.log), old(r.now), log, before, Read(left[i], r.now));
      DoneStays(r.tr, waiting, left, before, r.now, good);
      RefusedNext(r.tr, log, k, Read(left[i], r.now), left[..i], good);
      assert r.log[|log|] == Read(left[i], r.now);
      if s == good {
        DoneErase(r.tr, waiting, left, i, r.now, good);
        assert (left[..i] + left[i + 1..])[..i] == left[..i];
        left := left[..i] + left[i + 1..];
      } else {
        if s != Validating {
          assert left[i] in waiting && ToldWrong(r.tr, r.log, k, left[i], good);
          return false, left;
        }
        assert left[..i + 1] == left[..i] + [left[i]];
        i := i + 1;
      }
    }
    assert left[..i] == left;
    ok := true;
  }

  /** At least one sweep is made. */
  function Sweeps(timeout: nat): nat {
    if timeout == 0 then 1 else timeout
  }

  /** A wait for `xs` to be `good` failed: somebody was answered to be something
      else than that and validating, or was not good in any of the sweeps. */
  ghost predicate Unresolved(tr: Trace, log: seq<Read>, k: nat, xs: seq<Id>, good: Stat, sweeps: nat) {
    exists x | x in xs :: ToldWrong(tr, log, k, x, good) || Refusals(tr, log, k, x, good) >= sweeps
  }

  lemma {:induction false} UnresolvedWider(tr: Trace, log: seq<Read>, k: nat, l: nat, xs: seq<Id>, ys: seq<Id>, good: Stat, n: nat, m: nat)
    requires l <= k <= |log| && Subset(xs, ys) && Unresolved(tr, log, k, xs, good, n)
    requires AllRefused(tr, log[..k], l, xs, good, m)
    ensures Unresolved(tr, log, l, ys, good, n + m)
  {
    var x :| x in xs && (ToldWrong(tr, log, k, x, good) || Refusals(tr, log, k, x, good) >= n);
    assert log[..|log|] == log;
    ToldLater(tr, log, log, k, l, x, good);
    RefusalsMore(tr, log[..k], log, l, x, good);
    assert x in ys && (ToldWrong(tr, log, l, x, good) || Refusals(tr, log, l, x, good) >= n + m);
  }

  /** valid_optimistic_validation and valid_optimistic_read: sweep until nobody
      is left, giving up after `timeout` sweeps. */
  method WaitFor(r: StatusReader, waiting: seq<Id>, good: Stat, timeout: nat) returns (isAbort: bool)
    requires LegalTrace(r.tr) && Final(good)
    modifies r`now, r`served, r`log
    ensures Grows(old(r.log), old(r.now), r.log, r.now)
    ensures |r.log| <= |old(r.log)| + Sweeps(timeout) * |waiting|
    ensures !isAbort ==> Done(r.tr, waiting, [], r.now, good) && AllFine(r.tr, r.log, |old(r.log)|, good)
    ensures isAbort ==> Unresolved(r.tr, r.log, |old(r.log)|, waiting, good, Sweeps(timeout))
    ensures timeout > 0 ==> |r.log| <= |old(r.log)| + timeout * |waiting|
    ensures timeout > 0 && isAbort ==> Unresolved(r.tr, r.log, |old(r.log)|, waiting, good, timeout)
  {
    var left := waiting;
    ghost var k := |r.log|;
    var counter := 0;
    while true
      invariant Grows(old(r.log), old(r.now), r.log, r.now) && Subset(left, waiting) && |left| <= |waiting|
      invariant counter < Sweeps(timeout) && |r.log| <= k + counter * |waiting|
      invariant Done(r.tr, waiting, left, r.now, good) && AllFine(r.tr, r.log, k, good)
      invariant AllRefused(r.tr, r.log, k, left, good, counter)
      decreases timeout - counter
    {
      ghost var before, log, start := r.now, r.log, left;
      var ok, rest := Sweep(r, left, good);
      SweepCount(counter, |waiting|, Sweeps(timeout));
      GrowsMore(old(r.log), old(r.now), log, before, r.log, r.now);
      DoneStays(r.tr, waiting, start, before, r.now, good);
      left := rest;
      if !ok {
        ghost var x :| x in start && ToldWrong(r.tr, r.log, |log|, x, good);
        ToldLater(r.tr, r.log, r.log, |log|, k, x, good);
        return true;
      }
      FineMore(r.tr, log, r.log, k, good);
      RefusedMore(r.tr, log, r.log, k, start, left, good, counter, 1);
      if left == [] {
        return false;
      }
      counter := counter + 1;
      if counter >= timeout {
        assert left[0] in waiting && Refusals(r.tr, r.log, k, left[0], good) >= Sweeps(timeout);
        return true;
      }
    }
  }

  lemma {:induction false} SweepCount(counter: nat, width: nat, sweeps: nat)
    requires counter < sweeps
    ensures counter * width + width == (counter + 1) * width <= sweeps * width
  {
    Product(counter + 1, sweeps, width);
  }

  lemma {:induction false} Product(a: nat, b: nat, c: nat)
    requires a <= b
    ensures a * c <= b * c
  {
  }

  // ---------- step validation ----------

  /** One recent transaction checked by one step: its id and what valid() answered. */
  datatype Check = Check(trx: Id, valid: bool)

  /** The transactions some valid() rejected, in checking order. */
  function Conflicts(checks: seq<Check>): (xs: seq<Id>) {
    if checks == [] then []
    else Conflicts(checks[..|checks| - 1]) + if checks[|checks| - 1].valid then [] else [checks[|checks| - 1].trx]
  }

  function AllConflicts(steps: seq<seq<Check>>): (xs: seq<Id>) {
    if steps == [] then [] else AllConflicts(steps[..|steps| - 1]) + Conflicts(steps[|steps| - 1])
  }

  /** Exactly the rejected transactions are conflicts. */
  lemma {:induction false} ConflictAmong(checks: seq<Check>, x: Id)
    ensures x in Conflicts(checks) <==> exists i | 0 <= i < |checks| :: checks[i].trx == x && !checks[i].valid
  {
    if checks != [] {
      ConflictAmong(checks[..|checks| - 1], x);
      assert checks == checks[..|checks| - 1] + [checks[|checks| - 1]];
    }
  }

  lemma {:induction false} ConflictAmongAll(steps: seq<seq<Check>>, x: Id)
    ensures x in AllConflicts(steps) <==> exists i | 0 <= i < |steps| :: x in Conflicts(steps[i])
  {
    if steps != [] {
      ConflictAmongAll(steps[..|steps| - 1], x);
      assert steps == steps[..|steps| - 1] + [steps[|steps| - 1]];
    }
  }

  /** Whom step validation asks: before each step the own transaction, then every rejected one. */
  ghost function Rounds(cur: Id, steps: seq<seq<Check>>): seq<Id> {
    if steps == [] then [] else Rounds(cur, steps[..|steps| - 1]) + [cur] + Conflicts(steps[|steps| - 1])
  }

  /** Whom the reads from `k` on are about. */
  ghost function Asked(log: seq<Read>, k: nat): seq<Id>
    requires k <= |log|
  {
    seq<Id>(|log| - k, i requires 0 <= i < |log| - k => log[k + i].x)
  }

  lemma {:induction false} AskedMore(a: seq<Read>, b: seq<Read>, k: nat)
    requires k <= |a| <= |b| && b[..|a|] == a
    ensures Asked(b, k) == Asked(a, k) + Asked(b, |a|)
  {
    forall i | 0 <= i < |b| - k ensures Asked(b, k)[i] == (Asked(a, k) + Asked(b, |a|))[i] {
      if k + i < |a| {
        assert b[k + i] == a[k + i];
      }
    }
  }

  /** Why the expert votes abort. */
  datatype Cause = NoAbort | OwnAbort | BadDependency | Conflict | ConflictUnresolved | ReadUnresolved

  /** The causes for which the table is asked to abort the transaction. */
  predicate Requests(c: Cause) {
    c.BadDependency? || c.Conflict?
  }

  /** A conflict that must abort: optimistic validation is off, or the other
      transaction was answered to be neither aborted nor validating. */
  ghost predicate Clash(tr: Trace, log: seq<Read>, k: nat, xs: seq<Id>, opt: bool) {
    exists x | x in xs :: opt ==> ToldWrong(tr, log, k, x, Aborted)
  }

  /** So far every transaction in `xs` has aborted, or was validating and is waited for. */
  ghost predicate Pending(tr: Trace, log: seq<Read>, k: nat, xs: seq<Id>, waiting: seq<Id>, opt: bool, t: nat) {
    && Done(tr, xs, waiting, t, Aborted) && Subset(waiting, xs) && (!opt ==> xs == [])
    && forall x | x in waiting :: Told(tr, log, k, x, Validating)
  }

  lemma {:induction false} PendingStays(tr: Trace, log: seq<Read>, log': seq<Read>, k: nat, xs: seq<Id>, waiting: seq<Id>, opt: bool, t: nat, u: nat)
    requires LegalTrace(tr) && t <= u && Pending(tr, log, k, xs, waiting, opt, t) && |log| <= |log'| && log'[..|log|] == log
    ensures Pending(tr, log', k, xs, waiting, opt, u)
  {
    DoneStays(tr, xs, waiting, t, u, Aborted);
    forall x | x in waiting ensures Told(tr, log', k, x, Validating) {
      ToldLater(tr, log, log', k, k, x, Validating);
    }
  }

  /** One more conflict, aborted or validating. */
  lemma {:induction false} PendingNext(tr: Trace, log: seq<Read>, k: nat, xs: seq<Id>, waiting: seq<Id>, x: Id, t: nat)
    requires Pending(tr, log, k, xs, waiting, true, t)
    ensures tr(t, x) == Aborted ==> Pending(tr, log, k, xs + [x], waiting, true, t)
    ensures Told(tr, log, k, x, Validating) ==> Pending(tr, log, k, xs + [x], waiting + [x], true, t)
  {
  }

  /** A conflict found while optimistic validation is on: it is asked about. */
  method AskConflict(r: StatusReader, x: Id, ghost k: nat, ghost before: seq<Id>, waiting: seq<Id>) returns (conflict: bool, waiting': seq<Id>)
    requires LegalTrace(r.tr) && k <= |r.log| && Pending(r.tr, r.log, k, before, waiting, true, r.now)
    modifies r`now, r`served, r`log
    ensures Grows(old(r.log), old(r.now), r.log, r.now) && Asked(r.log, |old(r.log)|) == [x]
    ensures !conflict ==> Pending(r.tr, r.log, k, before + [x], waiting', true, r.now)
    ensures conflict ==> ToldWrong(r.tr, r.log, |old(r.log)|, x, Aborted)
  {
    ghost var t, log := r.now, r.log;
    var s := r.ReadStatus(x);
    assert r.log[|log|] == Read(x, r.now);
    PendingStays(r.tr, log, r.log, k, before, waiting, true, t, r.now);
    PendingNext(r.tr, r.log, k, before, waiting, x, r.now);
    conflict, waiting' := false, waiting;
    if s == Validating {
      assert Told(r.tr, r.log, k, x, Validating);
      waiting' := waiting + [x];
    } else if s != Aborted {
      conflict := true;
    }
  }

  lemma {:induction false} ConflictsNext(checks: seq<Check>, i: nat)
    requires i < |checks|
    ensures Conflicts(checks[..i + 1]) == Conflicts(checks[..i]) + if checks[i].valid then [] else [checks[i].trx]
    ensures checks[i].valid ==> Conflicts(checks[..i + 1]) == Conflicts(checks[..i])
  {
    assert checks[..i + 1][..i] == checks[..i];
  }

  lemma {:induction false} ConflictsPrefix(checks: seq<Check>, i: nat)
    requires i <= |checks|
    ensures Conflicts(checks[..i]) <= Conflicts(checks)
    decreases |checks| - i
  {
    if i < |checks| {
      ConflictsNext(checks, i);
      ConflictsPrefix(checks, i + 1);
    } else {
      assert checks[..i] == checks;
    }
  }

  /** The inner loop of do_step_validation. */
  method CheckStep(r: StatusReader, checks: seq<Check>, opt: bool, ghost k: nat, ghost before: seq<Id>, waiting: seq<Id>)
    returns (conflict: bool, waiting': seq<Id>)
    requires LegalTrace(r.tr) && k <= |r.log| && Pending(r.tr, r.log, k, before, waiting, opt, r.now)
    modifies r`now, r`served, r`log, r`abortRequests
    ensures Grows(old(r.log), old(r.now), r.log, r.now)
    ensures r.abortRequests == old(r.abortRequests) + if conflict then 1 else 0
    ensures Asked(r.log, |old(r.log)|) <= Conflicts(checks)
    ensures !conflict ==> Pending(r.tr, r.log, k, before + Conflicts(checks), waiting', opt, r.now)
    ensures !conflict ==> Asked(r.log, |old(r.log)|) == Conflicts(checks)
    ensures conflict ==> Clash(r.tr, r.log, |old(r.log)|, Conflicts(checks), opt)
  {
    waiting' := waiting;
    ghost var l := |r.log|;
    var i := 0;
    assert before + Conflicts(checks[..0]) == before;
    while i < |checks|
      invariant i <= |checks| && Grows(old(r.log), old(r.now), r.log, r.now) && r.abortRequests == old(r.abortRequests)
      invariant Asked(r.log, l) == Conflicts(checks[..i])
      invariant Pending(r.tr, r.log, k, before + Conflicts(checks[..i]), waiting', opt, r.now)
    {
      ConflictsNext(checks, i);
      if !checks[i].valid {
        ConflictAmong(checks, checks[i].trx);
        ConflictsPrefix(checks, i + 1);
        if !opt {
          r.abortRequests := r.abortRequests + 1;
          return true, waiting';
        }
        ghost var t, log, so := r.now, r.log, before + Conflicts(checks[..i]);
        conflict, waiting' := AskConflict(r, checks[i].trx, k, so, waiting');
        GrowsMore(old(r.log), old(r.now), log, t, r.log, r.now);
        AskedMore(log, r.log, l);
        if conflict {
          ToldLater(r.tr, r.log, r.log, |log|, l, checks[i].trx, Aborted);
          r.abortRequests := r.abortRequests + 1;
          return;
        }
        assert so + [checks[i].trx] == before + Conflicts(checks[..i + 1]);
      }
      i := i + 1;
    }
    assert checks[..i] == checks;
    conflict := false;
  }

  lemma {:induction false} ClashWidens(tr: Trace, log: seq<Read>, steps: seq<seq<Check>>, i: nat, opt: bool, k: nat, l: nat)
    requires i < |steps| && Clash(tr, log, l, Conflicts(steps[i]), opt) && k <= l
    ensures Clash(tr, log, k, AllConflicts(steps), opt)
  {
    var x :| x in Conflicts(steps[i]) && (opt ==> ToldWrong(tr, log, l, x, Aborted));
    ConflictAmongAll(steps, x);
    ToldLater(tr, log, log, l, k, x, Aborted);
  }

  lemma {:induction false} RoundsNext(cur: Id, steps: seq<seq<Check>>, i: nat)
    requires i < |steps|
    ensures Rounds(cur, steps[..i + 1]) == Rounds(cur, steps[..i]) + [cur] + Conflicts(steps[i])
    ensures AllConflicts(steps[..i + 1]) == AllConflicts(steps[..i]) + Conflicts(steps[i])
  {
    assert steps[..i + 1][..i] == steps[..i];
  }

  lemma {:induction false} RoundsPrefix(cur: Id, steps: seq<seq<Check>>, i: nat)
    requires i <= |steps|
    ensures Rounds(cur, steps[..i]) <= Rounds(cur, steps)
    decreases |steps| - i
  {
    if i < |steps| {
      RoundsNext(cur, steps, i);
      RoundsPrefix(cur, steps, i + 1);
    } else {
      assert steps[..i] == steps;
    }
  }

  /** Read number `p` asked for `x` and did not answer aborted. */
  ghost predicate Alive(tr: Trace, log: seq<Read>, p: nat, x: Id) {
    p < |log| && log[p].x == x && Answer(tr, log[p]) != Aborted
  }

  /** One step of do_step_validation: the own status, then the checks. */
  method OneStep(r: StatusReader, cur: Id, checks: seq<Check>, opt: bool, ghost k: nat, ghost before: seq<Id>, waiting: seq<Id>)
    returns (cause: Cause, waiting': seq<Id>)
    requires LegalTrace(r.tr) && k <= |r.log| && Pending(r.tr, r.log, k, before, waiting, opt, r.now)
    modifies r`now, r`served, r`log, r`abortRequests
    ensures Grows(old(r.log), old(r.now), r.log, r.now)
    ensures r.abortRequests == old(r.abortRequests) + if Requests(cause) then 1 else 0
    ensures cause.NoAbort? || cause.OwnAbort? || cause.Conflict?
    ensures Asked(r.log, |old(r.log)|) <= [cur] + Conflicts(checks)
    ensures cause == NoAbort ==> Pending(r.tr, r.log, k, before + Conflicts(checks), waiting', opt, r.now)
    ensures cause == NoAbort ==> Asked(r.log, |old(r.log)|) == [cur] + Conflicts(checks) && Alive(r.tr, r.log, |old(r.log)|, cur)
    ensures cause == OwnAbort ==> Told(r.tr, r.log, |old(r.log)|, cur, Aborted)
    ensures cause == Conflict ==> Clash(r.tr, r.log, |old(r.log)|, Conflicts(checks), opt)
  {
    ghost var t, log := r.now, r.log;
    var own := r.ReadStatus(cur);
    ghost var log' := r.log;
    assert log'[|log|] == Read(cur, r.now);
    assert Asked(log', |log|) == [cur];
    if own == Aborted {
      return OwnAbort, waiting;
    }
    PendingStays(r.tr, log, log', k, before, waiting, opt, t, r.now);
    ghost var t' := r.now;
    var conflict;
    conflict, waiting' := CheckStep(r, checks, opt, k, before, waiting);
    GrowsMore(log, t, log', t', r.log, r.now);
    AskedMore(log', r.log, |log|);
    assert r.log[|log|] == log'[|log|];
    if conflict {
      ClashEarlier(r.tr, r.log, |log'|, |log|, Conflicts(checks), opt);
    }
    cause := if conflict then Conflict else NoAbort;
  }

  lemma {:induction false} ClashEarlier(tr: Trace, log: seq<Read>, l: nat, k: nat, xs: seq<Id>, opt: bool)
    requires Clash(tr, log, l, xs, opt) && k <= l
    ensures Clash(tr, log, k, xs, opt)
  {
    var x :| x in xs && (opt ==> ToldWrong(tr, log, l, x, Aborted));
    ToldLater(tr, log, log, l, k, x, Aborted);
  }

  /** Where in the log the last step began. */
  ghost function LastStep(cur: Id, steps: seq<seq<Check>>, k: nat): nat
    requires steps != []
  {
    k + |Rounds(cur, steps[..|steps| - 1])|
  }

  /** From read `k` on every step was run, and the own transaction was not aborted when the last one began. */
  ghost predicate Ran(tr: Trace, log: seq<Read>, k: nat, cur: Id, steps: seq<seq<Check>>)
    requires k <= |log|
  {
    Asked(log, k) == Rounds(cur, steps) && (steps != [] ==> Alive(tr, log, LastStep(cur, steps, k), cur))
  }

  lemma {:induction false} RanInto(tr: Trace, a: seq<Read>, b: seq<Read>, k: nat, cur: Id, steps: seq<seq<Check>>, i: nat)
    requires k <= |a| <= |b| && b[..|a|] == a && i < |steps| && Ran(tr, a, k, cur, steps[..i])
    requires Asked(b, |a|) <= [cur] + Conflicts(steps[i])
    ensures Asked(b, k) <= Rounds(cur, steps)
  {
    RoundsNext(cur, steps, i);
    RoundsPrefix(cur, steps, i + 1);
    AskedMore(a, b, k);
    PrefixAppend(Rounds(cur, steps[..i]), Asked(b, |a|), [cur], Conflicts(steps[i]));
  }

  lemma {:induction false} RanNext(tr: Trace, a: seq<Read>, b: seq<Read>, k: nat, cur: Id, steps: seq<seq<Check>>, i: nat)
    requires k <= |a| <= |b| && b[..|a|] == a && i < |steps| && Ran(tr, a, k, cur, steps[..i])
    requires Asked(b, |a|) == [cur] + Conflicts(steps[i]) && Alive(tr, b, |a|, cur)
    ensures Ran(tr, b, k, cur, steps[..i + 1])
    ensures AllConflicts(steps[..i + 1]) == AllConflicts(steps[..i]) + Conflicts(steps[i])
  {
    RoundsNext(cur, steps, i);
    AskedMore(a, b, k);
    PrefixAppend(Rounds(cur, steps[..i]), Asked(b, |a|), [cur], Conflicts(steps[i]));
    assert steps[..i + 1][..i] == steps[..i];
  }

  /** The steps before `i` were run without finding a reason to abort. */
  ghost predicate Reached(tr: Trace, log: seq<Read>, k: nat, cur: Id, steps: seq<seq<Check>>, i: nat, waiting: seq<Id>, opt: bool, t: nat)
    requires k <= |log| && i <= |steps|
  {
    Ran(tr, log, k, cur, steps[..i]) && Pending(tr, log, k, AllConflicts(steps[..i]), waiting, opt, t)
  }

  /** Where step validation may stop with an abort. */
  ghost predicate Stopped(tr: Trace, log: seq<Read>, k: nat, cur: Id, steps: seq<seq<Check>>, opt: bool, cause: Cause)
    requires k <= |log|
  {
    && Asked(log, k) <= Rounds(cur, steps)
    && match cause
       case OwnAbort => Told(tr, log, k, cur, Aborted)
       case Conflict => Clash(tr, log, k, AllConflicts(steps), opt)
       case _ => false
  }

  /** Step `i`. */
  method NextStep(r: StatusReader, cur: Id, steps: seq<seq<Check>>, i: nat, opt: bool, ghost k: nat, waiting: seq<Id>)
    returns (cause: Cause, waiting': seq<Id>)
    requires LegalTrace(r.tr) && k <= |r.log| && i < |steps| && Reached(r.tr, r.log, k, cur, steps, i, waiting, opt, r.now)
    modifies r`now, r`served, r`log, r`abortRequests
    ensures Grows(old(r.log), old(r.now), r.log, r.now)
    ensures r.abortRequests == old(r.abortRequests) + if Requests(cause) then 1 else 0
    ensures cause == NoAbort ==> Reached(r.tr, r.log, k, cur, steps, i + 1, waiting', opt, r.now)
    ensures cause != NoAbort ==> Stopped(r.tr, r.log, k, cur, steps, opt, cause)
  {
    ghost var log := r.log;
    cause, waiting' := OneStep(r, cur, steps[i], opt, k, AllConflicts(steps[..i]), waiting);
    RanInto(r.tr, log, r.log, k, cur, steps, i);
    if cause == Conflict {
      ClashWidens(r.tr, r.log, steps, i, opt, k, |log|);
    } else if cause == OwnAbort {
      ToldLater(r.tr, r.log, r.log, |log|, k, cur, Aborted);
    } else {
      RanNext(r.tr, log, r.log, k, cur, steps, i);
    }
  }

  lemma {:induction false} ReachedAll(tr: Trace, log: seq<Read>, k: nat, cur: Id, steps: seq<seq<Check>>, waiting: seq<Id>, opt: bool, t: nat)
    requires k <= |log| && Reached(tr, log, k, cur, steps, |steps|, waiting, opt, t)
    ensures Ran(tr, log, k, cur, steps) && Pending(tr, log, k, AllConflicts(steps), waiting, opt, t)
  {
    assert steps[..|steps|] == steps;
  }

  /** do_step_validation: run every check, re-reading the own status before each step. */
  method StepValidation(r: StatusReader, cur: Id, steps: seq<seq<Check>>, opt: bool) returns (cause: Cause, waiting: seq<Id>)
    requires LegalTrace(r.tr)
    modifies r`now, r`served, r`log, r`abortRequests
    ensures Grows(old(r.log), old(r.now), r.log, r.now)
    ensures r.abortRequests == old(r.abortRequests) + if Requests(cause) then 1 else 0
    ensures cause == NoAbort ==> Ran(r.tr, r.log, |old(r.log)|, cur, steps)
    ensures cause == NoAbort ==> Pending(r.tr, r.log, |old(r.log)|, AllConflicts(steps), waiting, opt, r.now)
    ensures cause != NoAbort ==> Stopped(r.tr, r.log, |old(r.log)|, cur, steps, opt, cause)
  {
    waiting := [];
    for i := 0 to |steps|
      invariant Grows(old(r.log), old(r.now), r.log, r.now) && r.abortRequests == old(r.abortRequests)
      invariant Reached(r.tr, r.log, |old(r.log)|, cur, steps, i, waiting, opt, r.now)
    {
      ghost var t, log := r.now, r.log;
      cause, waiting := NextStep(r, cur, steps, i, opt, |old(r.log)|, waiting);
      GrowsMore(old(r.log), old(r.now), log, t, r.log, r.now);
      if cause != NoAbort {
        return;
      }
    }
    ReachedAll(r.tr, r.log, |old(r.log)|, cur, steps, waiting, opt, r.now);
    cause := NoAbort;
  }

  lemma {:induction false} PrefixAppend(a: seq<Id>, b: seq<Id>, c: seq<Id>, d: seq<Id>)
    requires b <= c + d
    ensures a + b <= a + c + d && (b == c + d ==> a + b == a + c + d)
  {
  }

  /** Every awaited transaction settled, the conflicting ones are settled too. */
  lemma {:induction false} DoneAll(tr: Trace, xs: seq<Id>, left: seq<Id>, t: nat, u: nat, s: Stat)
    requires LegalTrace(tr) && Final(s) && t <= u
    requires Done(tr, xs, left, t, s) && Done(tr, left, [], u, s)
    ensures Done(tr, xs, [], u, s)
  {
    DoneStays(tr, xs, left, t, u, s);
  }

  lemma {:induction false} ToldRefused(tr: Trace, log: seq<Read>, k: nat, x: Id, s: Stat, good: Stat)
    requires Told(tr, log, k, x, s) && s != good
    ensures Refusals(tr, log, k, x, good) >= 1
    decreases |log|
  {
    var i :| k <= i < |log| && log[i].x == x && Answer(tr, log[i]) == s;
    if i < |log| - 1 {
      assert log[..|log| - 1][i] == log[i];
      ToldRefused(tr, log[..|log| - 1], k, x, s, good);
    }
  }

  /** Those waited for were validating once already. */
  lemma {:induction false} WaitedOnce(tr: Trace, log: seq<Read>, k: nat, waiting: seq<Id>)
    requires forall x | x in waiting :: Told(tr, log, k, x, Validating)
    ensures AllRefused(tr, log, k, waiting, Aborted, 1)
  {
    forall x | x in waiting ensures Refusals(tr, log, k, x, Aborted) >= 1 {
      ToldRefused(tr, log, k, x, Validating, Aborted);
    }
  }

  /** validate: step validation, then the wait for the undecided conflicts. */
  method Validate(r: StatusReader, cur: Id, steps: seq<seq<Check>>, opt: bool, timeout: nat) returns (cause: Cause)
    requires LegalTrace(r.tr)
    modifies r`now, r`served, r`log, r`abortRequests
    ensures Grows(old(r.log), old(r.now), r.log, r.now)
    ensures r.abortRequests == old(r.abortRequests) + if Requests(cause) then 1 else 0
    ensures !cause.BadDependency? && !cause.ReadUnresolved?
    ensures cause == NoAbort ==> Done(r.tr, AllConflicts(steps), [], r.now, Aborted) && (!opt ==> AllConflicts(steps) == [])
    ensures cause == NoAbort && steps != [] ==> Alive(r.tr, r.log, LastStep(cur, steps, |old(r.log)|), cur)
    ensures cause == OwnAbort ==> Told(r.tr, r.log, |old(r.log)|, cur, Aborted)
    ensures cause == Conflict ==> Clash(r.tr, r.log, |old(r.log)|, AllConflicts(steps), opt)
    ensures cause == ConflictUnresolved ==>
      opt && Unresolved(r.tr, r.log, |old(r.log)|, AllConflicts(steps), Aborted, Sweeps(timeout) + 1)
  {
    var waiting;
    cause, waiting := StepValidation(r, cur, steps, opt);
    if cause == NoAbort && waiting != [] {
      ghost var t, log := r.now, r.log;
      var isAbort := WaitFor(r, waiting, Aborted, timeout);
      GrowsMore(old(r.log), old(r.now), log, t, r.log, r.now);
      if isAbort {
        assert waiting[0] in AllConflicts(steps);
        WaitedOnce(r.tr, log, |old(r.log)|, waiting);
        UnresolvedWider(r.tr, r.log, |log|, |old(r.log)|, waiting, AllConflicts(steps), Aborted, Sweeps(timeout), 1);
        return ConflictUnresolved;
      }
      DoneAll(r.tr, AllConflicts(steps), waiting, t, r.now, Aborted);
      if steps != [] {
        AliveLater(r.tr, log, r.log, LastStep(cur, steps, |old(r.log)|), cur);
      }
    }
  }

  lemma {:induction false} AliveLater(tr: Trace, a: seq<Read>, b: seq<Read>, p: nat, x: Id)
    requires |a| <= |b| && b[..|a|] == a && Alive(tr, a, p, x)
    ensures Alive(tr, b, p, x)
  {
    assert a[p] == b[p];
  }

  // ---------- the whole expert ----------

  /** What a validation has to look at. */
  datatype Job = Job(cur: Id, readOnly: bool, homo: seq<Id>, hetero: seq<Id>, steps: seq<seq<Check>>)

  /** The reason behind each abort vote, in the answers from read `k` on. */
  ghost predicate Justified(tr: Trace, log: seq<Read>, k: nat, j: Job, opt: bool, timeout: nat, c: Cause) {
    match c
    case NoAbort => true
    case OwnAbort => Told(tr, log, k, j.cur, Aborted)
    case BadDependency =>
      if j.readOnly then Unresolved(tr, log, k, j.homo, Committed, Sweeps(timeout))
      else
        || (exists x | x in j.homo :: Told(tr, log, k, x, Aborted))
        || (exists x | x in j.hetero :: Told(tr, log, k, x, Committed))
    case Conflict => Clash(tr, log, k, AllConflicts(j.steps), opt)
    case ConflictUnresolved => opt && Unresolved(tr, log, k, AllConflicts(j.steps), Aborted, Sweeps(timeout) + 1)
    case ReadUnresolved => !j.readOnly && Unresolved(tr, log, k, j.homo, Committed, Sweeps(timeout) + 1)
  }

  /** What a commit vote vouches for: every conflicting transaction has aborted
      and every homogeneous pre-read has committed. */
  ghost predicate Settled(tr: Trace, j: Job, t: nat) {
    Done(tr, AllConflicts(j.steps), [], t, Aborted) && Done(tr, j.homo, [], t, Committed)
  }

  lemma {:induction false} SettledStays(tr: Trace, j: Job, t: nat, u: nat)
    requires LegalTrace(tr) && Settled(tr, j, t) && t <= u
    ensures Settled(tr, j, u)
  {
    DoneStays(tr, AllConflicts(j.steps), [], t, u, Aborted);
    DoneStays(tr, j.homo, [], t, u, Committed);
  }

  lemma {:induction false} ToldSomewhere(tr: Trace, a: seq<Read>, b: seq<Read>, k: nat, l: nat, xs: seq<Id>, s: Stat)
    requires |a| <= |b| && b[..|a|] == a && l <= k && exists x | x in xs :: Told(tr, a, k, x, s)
    ensures exists x | x in xs :: Told(tr, b, l, x, s)
  {
    var x :| x in xs && Told(tr, a, k, x, s);
    ToldLater(tr, a, b, k, l, x, s);
  }

  /** Every one of `xs` has aborted or was answered not to have committed. */
  ghost predicate NoneCommitted(tr: Trace, log: seq<Read>, k: nat, xs: seq<Id>, t: nat) {
    forall x | x in xs :: tr(t, x) == Aborted || ToldOther(tr, log, k, x, Committed)
  }

  lemma {:induction false} NoneCommittedLater(tr: Trace, a: seq<Read>, b: seq<Read>, k: nat, l: nat, xs: seq<Id>, t: nat, u: nat)
    requires LegalTrace(tr) && |a| <= |b| && b[..|a|] == a && l <= k && t <= u && NoneCommitted(tr, a, k, xs, t)
    ensures NoneCommitted(tr, b, l, xs, u)
  {
    forall x | x in xs ensures tr(u, x) == Aborted || ToldOther(tr, b, l, x, Committed) {
      ToldLater(tr, a, b, k, l, x, Committed);
      if tr(t, x) == Aborted {
        FinalStays(tr, x, t, u);
      }
    }
  }

  lemma {:induction false} LookedAt(tr: Trace, log: seq<Read>, k: nat, xs: seq<Id>, left: seq<Id>, t: nat)
    requires Done(tr, xs, left, t, Aborted) && AllNeither(tr, log, k, left, Aborted, Committed)
    ensures NoneCommitted(tr, log, k, xs, t)
  {
  }

  lemma {:induction false} LeftRefused(tr: Trace, log: seq<Read>, k: nat, left: seq<Id>)
    requires AllNeither(tr, log, k, left, Committed, Aborted)
    ensures AllRefused(tr, log, k, left, Committed, 1)
  {
    forall x | x in left ensures Refusals(tr, log, k, x, Committed) >= 1 {
      var i :| k <= i < |log| && log[i].x == x && Answer(tr, log[i]) != Committed && Answer(tr, log[i]) != Aborted;
      ToldRefused(tr, log, k, x, Answer(tr, log[i]), Committed);
    }
  }

  lemma {:induction false} RefusedLater(tr: Trace, a: seq<Read>, b: seq<Read>, k: nat, xs: seq<Id>, good: Stat, n: nat)
    requires k <= |a| <= |b| && b[..|a|] == a && AllRefused(tr, a, k, xs, good, n)
    ensures AllRefused(tr, b, k, xs, good, n)
  {
    forall x | x in xs ensures Refusals(tr, b, k, x, good) >= n {
      RefusalsMore(tr, a, b, k, x, good);
    }
  }

  /** Step 0: dependency reads.  Read-only transactions wait for their
      homogeneous pre-reads; the others only look once. */
  method DependencyReads(r: StatusReader, j: Job, timeout: nat) returns (isAbort: bool, left: seq<Id>)
    requires LegalTrace(r.tr)
    modifies r`now, r`served, r`log
    ensures Grows(old(r.log), old(r.now), r.log, r.now) && Subset(left, j.homo) && (j.readOnly ==> left == [])
    ensures !isAbort ==> Done(r.tr, j.homo, left, r.now, Committed)
    ensures !isAbort && !j.readOnly ==> AllRefused(r.tr, r.log, |old(r.log)|, left, Committed, 1)
    ensures !isAbort && !j.readOnly ==> NoneCommitted(r.tr, r.log, |old(r.log)|, j.hetero, r.now)
    ensures isAbort ==> Justified(r.tr, r.log, |old(r.log)|, j, true, timeout, BadDependency)
  {
    if j.readOnly {
      isAbort := WaitFor(r, j.homo, Committed, timeout);
      return isAbort, [];
    }
    ghost var k := |r.log|;
    var ok;
    ok, left := CheckDependencies(r, j.homo, Committed, Aborted);
    if !ok {
      return true, left;
    }
    ghost var t, log := r.now, r.log;
    LeftRefused(r.tr, log, k, left);
    var heteroLeft;
    ok, heteroLeft := CheckDependencies(r, j.hetero, Aborted, Committed);
    GrowsMore(old(r.log), old(r.now), log, t, r.log, r.now);
    DoneStays(r.tr, j.homo, left, t, r.now, Committed);
    RefusedLater(r.tr, log, r.log, k, left, Committed, 1);
    if ok {
      LookedAt(r.tr, r.log, |log|, j.hetero, heteroLeft, r.now);
      NoneCommittedLater(r.tr, r.log, r.log, |log|, k, j.hetero, r.now, r.now);
    } else {
      ToldSomewhere(r.tr, r.log, r.log, |log|, k, j.hetero, Committed);
    }
    isAbort := !ok;
  }

  lemma {:induction false} UnresolvedEarlier(tr: Trace, log: seq<Read>, k: nat, l: nat, xs: seq<Id>, good: Stat, n: nat)
    requires l <= k <= |log| && Unresolved(tr, log, k, xs, good, n)
    ensures Unresolved(tr, log, l, xs, good, n)
  {
    UnresolvedWider(tr, log, k, l, xs, xs, good, n, 0);
  }

  /** A reason found in a part of the log is a reason found in the log. */
  lemma {:induction false} JustifiedEarlier(tr: Trace, log: seq<Read>, k: nat, l: nat, j: Job, opt: bool, timeout: nat, c: Cause)
    requires Justified(tr, log, k, j, opt, timeout, c) && l <= k <= |log| && !c.BadDependency? && !c.ReadUnresolved?
    ensures Justified(tr, log, l, j, opt, timeout, c)
  {
    match c
    case OwnAbort => ToldLater(tr, log, log, k, l, j.cur, Aborted);
    case Conflict => ClashEarlier(tr, log, k, l, AllConflicts(j.steps), opt);
    case ConflictUnresolved => UnresolvedEarlier(tr, log, k, l, AllConflicts(j.steps), Aborted, Sweeps(timeout) + 1);
    case _ =>
  }

  /** What a commit vote rests on beside Settled: no heterogeneous pre-read was
      seen to have committed, and neither the own transaction to have aborted. */
  ghost predicate Clear(tr: Trace, log: seq<Read>, k: nat, j: Job, t: nat) {
    && (!j.readOnly ==> NoneCommitted(tr, log, k, j.hetero, t))
    && (j.steps != [] ==> ToldOther(tr, log, k, j.cur, Aborted))
  }

  /** Step 2: the wait for the homogeneous pre-reads left over from step 0. */
  method LastReads(r: StatusReader, j: Job, left: seq<Id>, timeout: nat, ghost k: nat) returns (isAbort: bool)
    requires LegalTrace(r.tr) && Settling(r, j, left) && k <= |r.log|
    requires Subset(left, j.homo) && (left != [] ==> !j.readOnly && AllRefused(r.tr, r.log, k, left, Committed, 1))
    modifies r`now, r`served, r`log
    ensures Grows(old(r.log), old(r.now), r.log, r.now)
    ensures !isAbort ==> Settled(r.tr, j, r.now)
    ensures isAbort ==> Justified(r.tr, r.log, k, j, true, timeout, ReadUnresolved)
  {
    isAbort := false;
    if left != [] {
      ghost var v, log := r.now, r.log;
      isAbort := WaitFor(r, left, Committed, timeout);
      if isAbort {
        UnresolvedWider(r.tr, r.log, |log|, k, left, j.homo, Committed, Sweeps(timeout), 1);
      } else {
        DoneAll(r.tr, j.homo, left, v, r.now, Committed);
        DoneStays(r.tr, AllConflicts(j.steps), [], v, r.now, Aborted);
      }
    }
  }

  ghost predicate Settling(r: StatusReader, j: Job, left: seq<Id>)
    reads r
  {
    Done(r.tr, AllConflicts(j.steps), [], r.now, Aborted) && Done(r.tr, j.homo, left, r.now, Committed)
  }

  /** The three steps of the expert under serializable isolation. */
  method Vote(r: StatusReader, j: Job, opt: bool, timeout: nat) returns (cause: Cause)
    requires LegalTrace(r.tr)
    modifies r`now, r`served, r`log, r`abortRequests
    ensures Grows(old(r.log), old(r.now), r.log, r.now)
    ensures cause == NoAbort ==> forall u: nat :: u >= r.now ==> Settled(r.tr, j, u)
    ensures cause == NoAbort ==> Clear(r.tr, r.log, |old(r.log)|, j, r.now)
    ensures cause == NoAbort && !opt ==> AllConflicts(j.steps) == []
    ensures Justified(r.tr, r.log, |old(r.log)|, j, opt, timeout, cause)
    ensures r.abortRequests == old(r.abortRequests) + if Requests(cause) then 1 else 0
  {
    ghost var k := |r.log|;
    var isAbort, left := DependencyReads(r, j, timeout);
    if isAbort {
      r.abortRequests := r.abortRequests + 1;
      return BadDependency;
    }
    ghost var t, log := r.now, r.log;
    cause := Validate(r, j.cur, j.steps, opt, timeout);
    GrowsMore(old(r.log), old(r.now), log, t, r.log, r.now);
    assert Justified(r.tr, r.log, |log|, j, opt, timeout, cause);
    JustifiedEarlier(r.tr, r.log, |log|, k, j, opt, timeout, cause);
    if cause != NoAbort {
      return;
    }
    ghost var v, log' := r.now, r.log;
    DoneStays(r.tr, j.homo, left, t, v, Committed);
    if left != [] {
      RefusedLater(r.tr, log, log', k, left, Committed, 1);
    }
    isAbort := LastReads(r, j, left, timeout, k);
    GrowsMore(old(r.log), old(r.now), log', v, r.log, r.now);
    if isAbort {
      return ReadUnresolved;
    }
    ClearLater(r.tr, log, log', r.log, k, j, t, r.now);
    forall u: nat | u >= r.now ensures Settled(r.tr, j, u) {
      SettledStays(r.tr, j, r.now, u);
    }
  }

  lemma {:induction false} ClearLater(tr: Trace, a: seq<Read>, b: seq<Read>, c: seq<Read>, k: nat, j: Job, t: nat, u: nat)
    requires LegalTrace(tr) && k <= |a| <= |b| <= |c| && b[..|a|] == a && c[..|b|] == b && t <= u
    requires !j.readOnly ==> NoneCommitted(tr, a, k, j.hetero, t)
    requires j.steps != [] ==> Alive(tr, b, LastStep(j.cur, j.steps, |a|), j.cur)
    ensures Clear(tr, c, k, j, u)
  {
    assert c[..|a|] == b[..|a|];
    if !j.readOnly {
      NoneCommittedLater(tr, a, c, k, k, j.hetero, t, u);
    }
    if j.steps != [] {
      AliveLater(tr, b, c, LastStep(j.cur, j.steps, |a|), j.cur);
    }
  }

  // ---------- when a commit vote is certain ----------

  /** From time `from` on, nothing ends a wait for `xs` to be `good`, and each of
      them is found not to be so at most `n` times. */
  ghost predicate Comes(tr: Trace, log: seq<Read>, k: nat, xs: seq<Id>, good: Stat, from: nat, n: nat) {
    forall x | x in xs ::
      && (forall t: nat :: from <= t ==> tr(t, x) == good || tr(t, x) == Validating)
      && Refusals(tr, log, k, x, good) <= n
  }

  lemma {:induction false} ComesResolved(tr: Trace, log: seq<Read>, k: nat, xs: seq<Id>, good: Stat, from: nat, n: nat)
    requires Comes(tr, log, k, xs, good, from, n) && forall i | k <= i < |log| :: from <= log[i].at
    ensures !Unresolved(tr, log, k, xs, good, n + 1)
    ensures forall x | x in xs :: !ToldWrong(tr, log, k, x, good)
  {
    forall x | x in xs ensures !ToldWrong(tr, log, k, x, good) {
      forall i | k <= i < |log| && log[i].x == x ensures Answer(tr, log[i]) == good || Answer(tr, log[i]) == Validating {
        assert tr(log[i].at, x) == good || tr(log[i].at, x) == Validating;
      }
    }
  }

  /** The conflicting transactions abort, be they validating still when first
      looked at, and the pre-reads commit, all of them in time for the last
      sweep; the own transaction is not aborted by others, no heterogeneous
      pre-read commits, and without optimistic validation there is no conflict. */
  ghost predicate Favourable(tr: Trace, log: seq<Read>, k: nat, j: Job, opt: bool, timeout: nat, from: nat) {
    && (opt || AllConflicts(j.steps) == [])
    && Comes(tr, log, k, AllConflicts(j.steps), Aborted, from, Sweeps(timeout))
    && Comes(tr, log, k, j.homo, Committed, from, if j.readOnly then Sweeps(timeout) - 1 else Sweeps(timeout))
    && !Told(tr, log, k, j.cur, Aborted) && (forall x | x in j.hetero :: !Told(tr, log, k, x, Committed))
  }

  /** The other direction: then no reason to vote abort can be found. */
  lemma {:induction false} SettledCommits(tr: Trace, log: seq<Read>, k: nat, j: Job, opt: bool, timeout: nat, from: nat, c: Cause)
    requires forall i | k <= i < |log| :: from <= log[i].at
    requires Favourable(tr, log, k, j, opt, timeout, from) && Justified(tr, log, k, j, opt, timeout, c)
    ensures c == NoAbort
  {
    ComesResolved(tr, log, k, AllConflicts(j.steps), Aborted, from, Sweeps(timeout));
    ComesResolved(tr, log, k, j.homo, Committed, from, if j.readOnly then Sweeps(timeout) - 1 else Sweeps(timeout));
    forall x | x in j.homo ensures !Told(tr, log, k, x, Aborted) {
      assert !ToldWrong(tr, log, k, x, Committed);
    }
  }

  /** ValidationExpert::process.  Under serializable isolation a commit vote
      means that every conflicting transaction has aborted and every homogeneous
      pre-read has committed, now and for the rest of the run; an abort vote
      always has a reason, so in favourable circumstances there is none, and the
      table is asked to abort exactly for a bad dependency or a conflict found
      while checking. */
  method Process(r: StatusReader, j: Job, serializable: bool, opt: bool, timeout: nat) returns (cause: Cause)
    requires LegalTrace(r.tr)
    modifies r`now, r`served, r`log, r`abortRequests
    ensures Grows(old(r.log), old(r.now), r.log, r.now)
    ensures !serializable ==> cause == NoAbort && r.log == old(r.log)
    ensures serializable && cause == NoAbort ==> forall u: nat :: u >= r.now ==> Settled(r.tr, j, u)
    ensures serializable && cause == NoAbort ==> Clear(r.tr, r.log, |old(r.log)|, j, r.now)
    ensures serializable && cause == NoAbort && !opt ==> AllConflicts(j.steps) == []
    ensures Justified(r.tr, r.log, |old(r.log)|, j, opt, timeout, cause)
    ensures Favourable(r.tr, r.log, |old(r.log)|, j, opt, timeout, old(r.now)) ==> cause == NoAbort
    ensures r.abortRequests == old(r.abortRequests) + if cause.BadDependency? || cause.Conflict? then 1 else 0
  {
    if !serializable {
      return NoAbort;
    }
    cause := Vote(r, j, opt, timeout);
    if Favourable(r.tr, r.log, |old(r.log)|, j, opt, timeout, old(r.now)) {
      SettledCommits(r.tr, r.log, |old(r.log)|, j, opt, timeout, old(r.now), cause);
    }
  }
}
