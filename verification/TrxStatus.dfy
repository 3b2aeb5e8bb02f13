/** The status word of a transaction: six bits and a commit time, changed only
    by methods that check the bits first (a failed check stops the process). */
module TrxStatus {

  import opened Options

  datatype Stat = Processing | Validating | Aborted | Committed

  /** One slot of the status table. */
  datatype TidStatus = TidStatus(trxId: nat, P: bool, V: bool, C: bool, A: bool, occupied: bool, erased: bool, ct: nat)

  const Blank := TidStatus(0, false, false, false, false, false, false, 0)

  function EnterProcess(s: TidStatus, trxId: nat): Option<TidStatus> {
    if !s.occupied || s.erased then Some(TidStatus(trxId, true, false, false, false, true, false, 0)) else None
  }

  function EnterValidation(s: TidStatus): Option<TidStatus> {
    if s.P && !s.V && !s.C && !s.A && s.occupied then Some(s.(V := true)) else None
  }

  function EnterAbort(s: TidStatus): Option<TidStatus> {
    if s.P && !s.C && s.occupied then Some(s.(A := true)) else None
  }

  function EnterCommit(s: TidStatus): Option<TidStatus> {
    if s.P && s.V && !s.C && !s.A && s.occupied then Some(s.(C := true)) else None
  }

  function EnterCommitTime(s: TidStatus, ct: nat): Option<TidStatus> {
    if s.P && !s.V && !s.C && !s.A && s.occupied then Some(s.(ct := ct)) else None
  }

  function MarkErased(s: TidStatus): TidStatus {
    s.(erased := true)
  }

  /** The state the bits stand for; none when two exclusive bits or no bit at all are set. */
  function GetState(s: TidStatus): Option<Stat> {
    if s.A && s.C then None
    else if s.A then Some(Aborted)
    else if s.C then Some(Committed)
    else if s.V then Some(Validating)
    else if s.P then Some(Processing)
    else None
  }

  /** The bit patterns the checked methods can produce from a fresh slot. */
  ghost predicate Sound(s: TidStatus) {
    && s.occupied && s.P
    && (s.C ==> s.V && !s.A)
  }

  ghost predicate Final(a: Stat) {
    a.Aborted? || a.Committed?
  }

  /** The word of a transaction that has just begun: processing, without a commit time. */
  ghost predicate Starting(s: TidStatus, trxId: nat) {
    && s.trxId == trxId && s.occupied && !s.erased && s.ct == 0
    && GetState(s) == Some(Processing) && Sound(s)
  }

  /** A slot is entered exactly when it is empty or erased, and what it held before does not show. */
  lemma {:induction false} Entered(s: TidStatus, trxId: nat)
    ensures EnterProcess(s, trxId).Some? <==> !s.occupied || s.erased
    ensures EnterProcess(s, trxId).Some? ==> Starting(EnterProcess(s, trxId).value, trxId)
    ensures EnterProcess(s, trxId).Some? ==> EnterProcess(s, trxId) == EnterProcess(Blank, trxId)
  {
  }

  /** The documented transitions: P to V, V to A, V to C, and P to A, or no change. */
  ghost predicate Legal(a: Stat, b: Stat) {
    a == b || (a.Processing? && (b.Validating? || b.Aborted?)) || (a.Validating? && Final(b))
  }

  /** A request on an occupied slot. */
  datatype Request = ToValidating | ToAborted | ToCommitted | SetCommitTime(ct: nat)

  function Apply(s: TidStatus, r: Request): Option<TidStatus> {
    match r
    case ToValidating => EnterValidation(s)
    case ToAborted => EnterAbort(s)
    case ToCommitted => EnterCommit(s)
    case SetCommitTime(ct) => EnterCommitTime(s, ct)
  }

  function ApplyAll(s: TidStatus, rs: seq<Request>): Option<TidStatus>
    decreases |rs|
  {
    if rs == [] then Some(s)
    else
      match Apply(s, rs[0])
      case Some(s') => ApplyAll(s', rs[1..])
      case None => None
  }

  lemma {:induction false} ApplyLegal(s: TidStatus, r: Request)
    requires Sound(s) && Apply(s, r).Some?
    ensures var s' := Apply(s, r).value;
            && Sound(s') && s'.trxId == s.trxId && s'.erased == s.erased
            && GetState(s).Some? && GetState(s').Some? && Legal(GetState(s).value, GetState(s').value)
            && (!GetState(s).value.Processing? ==> s'.ct == s.ct)
  {
  }

  /** Over every run of checked requests the state only moves along legal
      steps: a final state never changes again, and the commit time is fixed
      once the transaction leaves the processing phase. */
  lemma {:induction false} RunsAreFinal(s: TidStatus, rs: seq<Request>)
    requires Sound(s) && ApplyAll(s, rs).Some?
    ensures var s' := ApplyAll(s, rs).value;
            && Sound(s') && s'.trxId == s.trxId
            && GetState(s).Some? && GetState(s').Some?
            && (Final(GetState(s).value) ==> GetState(s') == GetState(s))
            && (!GetState(s).value.Processing? ==> s'.ct == s.ct && !GetState(s').value.Processing?)
    decreases |rs|
  {
    if rs != [] {
      ApplyLegal(s, rs[0]);
      RunsAreFinal(Apply(s, rs[0]).value, rs[1..]);
    }
  }

  /** Which requests a slot takes: exactly the documented ones, plus an abort
      while processing and a repeated abort. */
  lemma {:induction false} RequestTaken(s: TidStatus, r: Request)
    requires Sound(s)
    ensures GetState(s).Some?
    ensures Apply(s, r).Some? <==>
              match r
              case ToValidating => GetState(s).value.Processing?
              case SetCommitTime(_) => GetState(s).value.Processing?
              case ToAborted => !GetState(s).value.Committed?
              case ToCommitted => GetState(s).value.Validating?
    ensures Apply(s, r).Some? ==>
              match r
              case ToValidating => GetState(Apply(s, r).value) == Some(Validating)
              case SetCommitTime(ct) => GetState(Apply(s, r).value) == Some(Processing) && Apply(s, r).value.ct == ct
              case ToAborted => GetState(Apply(s, r).value) == Some(Aborted)
              case ToCommitted => GetState(Apply(s, r).value) == Some(Committed)
    ensures Apply(s, r).Some? && !r.SetCommitTime? ==> Apply(s, r).value.ct == s.ct
    ensures Apply(s, r).Some? ==> Apply(s, r).value.trxId == s.trxId && Apply(s, r).value.erased == s.erased
  {
  }
}
