/** Agreement on the outcome of a validated transaction: votes are collected at
    one place, and the decision is broadcast with the commit time. */
module Agreement {
  import opened FanIn

  datatype Vote = VoteCommit | VoteAbort

  /** What a terminate expert receives; an init message means the transaction was aborted while processing. */
  datatype Msg = CommitMsg(ct: nat) | AbortMsg | InitMsg

  datatype Outcome = Committed(ct: nat) | Aborted

  ghost predicate Unanimous(votes: seq<Vote>) {
    forall i | 0 <= i < |votes| :: votes[i] == VoteCommit
  }

  /** CreateBroadcastMsg: one copy for every node. */
  method Broadcast(m: Msg, nodes: nat) returns (msgs: seq<Msg>)
    ensures |msgs| == nodes && forall i | 0 <= i < nodes :: msgs[i] == m
  {
    msgs := [];
    for i := 0 to nodes
      invariant |msgs| == i && forall j | 0 <= j < i :: msgs[j] == m
    {
      msgs := msgs + [m];
    }
  }

  /** The barrier's data for one transaction: path counters and whether some vote was an abort. */
  class VoteBarrier {
    const arrived: BranchData
    var isAbort: bool
    var commitRequests: nat

    constructor ()
      ensures fresh(arrived) && arrived.Abs() == Empty && arrived.expected == 1 && !isAbort && commitRequests == 0
    {
      arrived := new BranchData(1);
      isAbort, commitRequests := false, 0;
    }

    /** PostValidationExpert for one message; `ct` is what reading the commit
        time returns, and a zero there is a failed check. */
    method Work(path: Path, vote: Vote, nodes: nat, ct: nat) returns (ok: bool, msgs: seq<Msg>)
      modifies this, arrived
      ensures arrived.Abs() == Arrive(old(arrived.Abs()), path, []) && arrived.expected == old(arrived.expected)
      ensures isAbort == (old(isAbort) || vote == VoteAbort)
      ensures !old(Ready(arrived.Abs(), path, [], arrived.expected)) ==>
        ok && msgs == [] && commitRequests == old(commitRequests)
      ensures old(Ready(arrived.Abs(), path, [], arrived.expected)) ==>
        && (ok <==> isAbort || ct != 0)
        && (ok ==> |msgs| == nodes && forall i | 0 <= i < nodes :: msgs[i] == if isAbort then AbortMsg else CommitMsg(ct))
        && commitRequests == old(commitRequests) + if isAbort then 0 else 1
    {
      var ready, newPath := arrived.IsReady(path, []);
      if vote == VoteAbort {
        isAbort := true;
      }
      ok, msgs := true, [];
      if ready {
        if !isAbort {
          commitRequests := commitRequests + 1;
          if ct == 0 {
            return false, [];
          }
        }
        msgs := Broadcast(if isAbort then AbortMsg else CommitMsg(ct), nodes);
      }
    }
  }

  /** TerminateExpert. */
  function Terminate(m: Msg): Outcome {
    if m == AbortMsg || m == InitMsg then Aborted else Committed(m.ct)
  }

  /** Let every worker terminate. */
  method TerminateAll(msgs: seq<Msg>) returns (outcomes: seq<Outcome>)
    ensures |outcomes| == |msgs| && forall i | 0 <= i < |msgs| :: outcomes[i] == Terminate(msgs[i])
  {
    outcomes := [];
    for i := 0 to |msgs|
      invariant |outcomes| == i && forall j | 0 <= j < i :: outcomes[j] == Terminate(msgs[j])
    {
      outcomes := outcomes + [Terminate(msgs[i])];
    }
  }

  /** A transaction given up while processing: its commit statement is the
      terminate expert alone, which every worker starts with an init message. */
  method GiveUp(nodes: nat) returns (outcomes: seq<Outcome>)
    ensures |outcomes| == nodes && forall i | 0 <= i < nodes :: outcomes[i] == Aborted
  {
    var msgs := Broadcast(InitMsg, nodes);
    outcomes := TerminateAll(msgs);
  }

  lemma {:induction false} UnanimousSnoc(votes: seq<Vote>, i: nat)
    requires i < |votes|
    ensures Unanimous(votes[..i + 1]) <==> Unanimous(votes[..i]) && votes[i] == VoteCommit
  {
  }

  /** Every run: for any tree of validation messages and any order of arrival,
      exactly one decision is taken, by the last message; every worker takes the
      same branch with the same commit time, and commits exactly when every vote
      was a commit, in which case the commit status was requested exactly once.
      The check on the commit time fails exactly for a unanimous vote without one. */
  method Decide(ghost tree: Tree, arrivals: seq<Path>, votes: seq<Vote>, nodes: nat, ct: nat)
    returns (ok: bool, outcomes: seq<Outcome>, commitRequests: nat)
    requires multiset(arrivals) == multiset(ForestPaths([tree], [])) && |votes| == |arrivals|
    ensures ok <==> Unanimous(votes) ==> ct != 0
    ensures ok ==> |outcomes| == nodes
    ensures ok ==> forall i | 0 <= i < nodes :: outcomes[i] == if Unanimous(votes) then Committed(ct) else Aborted
    ensures commitRequests == if Unanimous(votes) then 1 else 0
  {
    ForestBelow([tree], []);
    FanInExact([tree], [], arrivals);
    var barrier := new VoteBarrier();
    assert arrivals[..0] == [] && votes[..0] == [];
    var i := 0;
    var msgs := [];
    ok := true;
    assert |arrivals| > 0 by {
      assert |multiset(arrivals)| == |multiset(ForestPaths([tree], []))|;
    }
    while i < |arrivals|
      invariant i <= |arrivals| && barrier.arrived.expected == 1 && barrier.arrived.Abs() == Run(Empty, arrivals[..i], [])
      invariant barrier.isAbort == !Unanimous(votes[..i])
      invariant i < |arrivals| ==> ok && msgs == [] && barrier.commitRequests == 0
      invariant i == |arrivals| ==>
        && (ok <==> barrier.isAbort || ct != 0)
        && (ok ==> |msgs| == nodes && forall j | 0 <= j < nodes :: msgs[j] == if barrier.isAbort then AbortMsg else CommitMsg(ct))
        && barrier.commitRequests == if barrier.isAbort then 0 else 1
    {
      RunStep(Empty, arrivals, i, []);
      UnanimousSnoc(votes, i);
      assert Ready(Run(Empty, arrivals[..i], []), arrivals[i], [], 1) <==> i == |arrivals| - 1;
      ok, msgs := barrier.Work(arrivals[i], votes[i], nodes, ct);
      i := i + 1;
    }
    assert votes[..i] == votes;
    outcomes := TerminateAll(msgs);
    commitRequests := barrier.commitRequests;
  }
}
