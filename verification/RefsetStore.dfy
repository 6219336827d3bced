/**
  The candidate store and the human review filter in front of the reference set. `Apply` says what one
  operation makes of the files; the class is the code, proved to do exactly that.
*/
module RefsetStore {
  import opened Wrappers
  import opened Lists
  import A = Assembler

  datatype CaseKind = MODE1 | MODE2

  datatype ReviewStatus = PENDING | ACCEPTED | REJECTED

  datatype Provenance = Provenance(
    generator: string, sources: seq<string>, model: Option<string>, generatedAt: int,
    reviewedBy: Option<string>, reviewedAt: Option<int>, reviewNote: string)

  datatype Mode1ReferenceCase = Mode1ReferenceCase(
    id: string, question: string, goldBlockRefs: seq<string>, expectedOutcome: string, keyPoints: seq<(string, string)>,
    targetDate: Option<int>, clarificationAnswers: seq<(string, string)>)

  datatype Payload = Mode1Payload(mode1: Mode1ReferenceCase) | Mode2Payload(mode2: A.Mode2ReferenceCase)

  datatype Candidate = Candidate(
    kind: CaseKind, status: ReviewStatus, provenance: Provenance,
    mode1: Option<Mode1ReferenceCase>, mode2: Option<A.Mode2ReferenceCase>)

  /** Exactly the payload of its kind is set; a candidate that breaks this cannot be built. */
  predicate PayloadMatchesKind(c: Candidate) {
    match c.kind
    case MODE1 => c.mode1.Some? && c.mode2.None?
    case MODE2 => c.mode2.Some? && c.mode1.None?
  }

  type ValidCandidate = c: Candidate | PayloadMatchesKind(c)
    witness Candidate(MODE1, PENDING, Provenance("", [], None, 0, None, None, ""),
                      Some(Mode1ReferenceCase("", "", [], "", [], None, [])), None)

  function PayloadOf(c: ValidCandidate): Payload {
    if c.mode1.Some? then Mode1Payload(c.mode1.value) else Mode2Payload(c.mode2.value)
  }

  function Id(c: ValidCandidate): string {
    if c.mode1.Some? then c.mode1.value.id else c.mode2.value.id
  }

  /** A case as the harness reads it from the set. */
  datatype MaterializedCase = MaterializedCase(payload: Payload, provenance: Provenance)

  datatype StoreError = AlreadyAccepted(id: string) | UnknownCandidate(id: string) | NotPending(id: string, status: ReviewStatus)

  datatype StoredAt = CandidateFile(id: string) | Mode1Suite(id: string) | Mode2Suite(id: string)

  // ---------- What an operation does ----------

  /** The files: the candidates by id, and the two suites of the set by case id. */
  datatype Files = Files(
    candidates: map<string, ValidCandidate>, suite1: map<string, MaterializedCase>, suite2: map<string, MaterializedCase>)

  datatype Operation =
    | Write(candidate: ValidCandidate)
    | Accept(id: string, reviewedBy: string, now: int, note: string)
    | Reject(id: string, reviewedBy: string, reason: string, now: int)

  function Stamp(c: ValidCandidate, status: ReviewStatus, reviewedBy: string, now: int, note: string): (r: ValidCandidate)
    ensures r.status == status && PayloadOf(r) == PayloadOf(c) && Id(r) == Id(c)
    ensures r.provenance.reviewedBy == Some(reviewedBy) && r.provenance.reviewedAt == Some(now) && r.provenance.reviewNote == note
  {
    c.(status := status,
       provenance := c.provenance.(reviewedBy := Some(reviewedBy), reviewedAt := Some(now), reviewNote := note))
  }

  function Materialize(files: Files, c: ValidCandidate): Files {
    var data := MaterializedCase(PayloadOf(c), c.provenance);
    if c.kind == MODE1 then files.(suite1 := files.suite1[Id(c) := data]) else files.(suite2 := files.suite2[Id(c) := data])
  }

  function MaterializedAt(c: ValidCandidate): StoredAt {
    if c.kind == MODE1 then Mode1Suite(Id(c)) else Mode2Suite(Id(c))
  }

  /** Why an operation is refused, if it is. */
  function Refusal(files: Files, op: Operation): Option<StoreError> {
    match op
    case Write(c) =>
      if Id(c) in files.candidates && files.candidates[Id(c)].status == ACCEPTED then Some(AlreadyAccepted(Id(c))) else None
    case Accept(id, _, _, _) => NotReviewable(files, id)
    case Reject(id, _, _, _) => NotReviewable(files, id)
  }

  function NotReviewable(files: Files, id: string): Option<StoreError> {
    if id !in files.candidates then Some(UnknownCandidate(id))
    else if files.candidates[id].status != PENDING then Some(NotPending(id, files.candidates[id].status))
    else None
  }

  /** The files after an operation; a refused one leaves them as they were. */
  function Apply(files: Files, op: Operation): Files {
    if Refusal(files, op).Some? then files
    else
      match op
      case Write(c) => files.(candidates := files.candidates[Id(c) := c])
      case Accept(id, who, now, note) =>
        var reviewed := Stamp(files.candidates[id], ACCEPTED, who, now, note);
        Materialize(files.(candidates := files.candidates[id := reviewed]), reviewed)
      case Reject(id, who, reason, now) =>
        files.(candidates := files.candidates[id := Stamp(files.candidates[id], REJECTED, who, now, reason)])
  }

  function RunAll(files: Files, ops: seq<Operation>): Files {
    if ops == [] then files else Apply(RunAll(files, ops[..|ops| - 1]), ops[|ops| - 1])
  }

  const EMPTY := Files(map[], map[], map[])

  // ---------- The store ----------

  class CandidateStore {
    var candidates: map<string, ValidCandidate>
    var suite1: map<string, MaterializedCase>
    var suite2: map<string, MaterializedCase>

    function Contents(): Files
      reads this
    {
      Files(candidates, suite1, suite2)
    }

    constructor ()
      ensures Contents() == EMPTY
    {
      candidates, suite1, suite2 := map[], map[], map[];
    }

    method WriteCandidate(candidate: ValidCandidate) returns (r: Result<StoredAt, StoreError>)
      modifies this
      ensures Contents() == Apply(old(Contents()), Write(candidate))
      ensures match Refusal(old(Contents()), Write(candidate))
        case Some(error) => r == Err(error)
        case None => r == Ok(CandidateFile(Id(candidate)))
    {
      var id := Id(candidate);
      if id in candidates && candidates[id].status == ACCEPTED {
        return Err(AlreadyAccepted(id));
      }
      candidates := candidates[id := candidate];
      r := Ok(CandidateFile(id));
    }

    method RequirePending(id: string) returns (r: Result<ValidCandidate, StoreError>)
      ensures match NotReviewable(Contents(), id)
        case Some(error) => r == Err(error)
        case None => id in candidates && r == Ok(candidates[id])
    {
      if id !in candidates { return Err(UnknownCandidate(id)); }
      if candidates[id].status != PENDING { return Err(NotPending(id, candidates[id].status)); }
      r := Ok(candidates[id]);
    }

    method AcceptCandidate(id: string, reviewedBy: string, now: int, note: string) returns (r: Result<StoredAt, StoreError>)
      modifies this
      ensures Contents() == Apply(old(Contents()), Accept(id, reviewedBy, now, note))
      ensures match Refusal(old(Contents()), Accept(id, reviewedBy, now, note))
        case Some(error) => r == Err(error)
        case None => r == Ok(MaterializedAt(candidates[id]))
    {
      var pending := RequirePending(id);
      if pending.Err? { return Err(pending.error); }
      var reviewed := Stamp(pending.value, ACCEPTED, reviewedBy, now, note);
      candidates := candidates[id := reviewed];
      var data := MaterializedCase(PayloadOf(reviewed), reviewed.provenance);
      if reviewed.kind == MODE1 {
        suite1 := suite1[Id(reviewed) := data];
      } else {
        suite2 := suite2[Id(reviewed) := data];
      }
      r := Ok(MaterializedAt(reviewed));
    }

    method RejectCandidate(id: string, reviewedBy: string, reason: string, now: int) returns (r: Result<(), StoreError>)
      modifies this
      ensures Contents() == Apply(old(Contents()), Reject(id, reviewedBy, reason, now))
      ensures match Refusal(old(Contents()), Reject(id, reviewedBy, reason, now))
        case Some(error) => r == Err(error)
        case None => r == Ok(())
    {
      var pending := RequirePending(id);
      if pending.Err? { return Err(pending.error); }
      candidates := candidates[id := Stamp(pending.value, REJECTED, reviewedBy, now, reason)];
      r := Ok(());
    }
  }

  // ---------- The set is exactly the accepted candidates ----------

  ghost predicate AcceptedAs(files: Files, id: string, kind: CaseKind) {
    id in files.candidates && files.candidates[id].status == ACCEPTED && files.candidates[id].kind == kind
  }

  ghost predicate SuiteIs(files: Files, suite: map<string, MaterializedCase>, kind: CaseKind) {
    && (forall id :: id in suite <==> AcceptedAs(files, id, kind))
    && (forall id :: id in suite ==>
          suite[id] == MaterializedCase(PayloadOf(files.candidates[id]), files.candidates[id].provenance))
  }

  /** Every candidate is filed under its own id. */
  ghost predicate Keyed(files: Files) {
    forall id :: id in files.candidates ==> Id(files.candidates[id]) == id
  }

  /** Both suites hold the accepted candidates of their kind, as reviewed, and nothing else. */
  ghost predicate Consistent(files: Files) {
    && Keyed(files)
    && SuiteIs(files, files.suite1, MODE1)
    && SuiteIs(files, files.suite2, MODE2)
  }

  predicate WritesAccepted(op: Operation) {
    op.Write? && op.candidate.status == ACCEPTED
  }

  /** Accepting a candidate adds it to the suite of its kind and leaves the other suite right as it is. */
  lemma SuiteAfterAccept(files: Files, after: Files, suite: map<string, MaterializedCase>, kind: CaseKind, id: string,
                         reviewed: ValidCandidate)
    requires SuiteIs(files, suite, kind) && id in files.candidates && files.candidates[id].status == PENDING
    requires after.candidates == files.candidates[id := reviewed] && reviewed.status == ACCEPTED
    ensures SuiteIs(after, if reviewed.kind == kind then suite[id := MaterializedCase(PayloadOf(reviewed), reviewed.provenance)]
                           else suite, kind)
  {
    forall other ensures AcceptedAs(after, other, kind) <==>
      if other == id then reviewed.kind == kind else AcceptedAs(files, other, kind)
    {
    }
  }

  lemma AcceptKeepsConsistent(files: Files, id: string, who: string, now: int, note: string)
    requires Consistent(files) && NotReviewable(files, id).None?
    ensures Consistent(Apply(files, Accept(id, who, now, note)))
  {
    var after := Apply(files, Accept(id, who, now, note));
    var reviewed := Stamp(files.candidates[id], ACCEPTED, who, now, note);
    assert Id(reviewed) == id;
    assert after.candidates == files.candidates[id := reviewed];
    SuiteAfterAccept(files, after, files.suite1, MODE1, id, reviewed);
    SuiteAfterAccept(files, after, files.suite2, MODE2, id, reviewed);
  }

  lemma OthersKeepConsistent(files: Files, after: Files, id: string, c: ValidCandidate)
    requires Consistent(files) && Id(c) == id && c.status != ACCEPTED
    requires id in files.candidates ==> files.candidates[id].status != ACCEPTED
    requires after == files.(candidates := files.candidates[id := c])
    ensures Consistent(after)
  {
    forall other, kind ensures AcceptedAs(after, other, kind) <==> AcceptedAs(files, other, kind) {
    }
  }

  /** An operation keeps the set and the candidates in step, unless it writes a candidate as already accepted. */
  lemma ApplyKeepsConsistent(files: Files, op: Operation)
    requires Consistent(files)
    ensures Consistent(Apply(files, op)) <==> !(WritesAccepted(op) && Refusal(files, op).None?)
  {
    if Refusal(files, op).None? {
      match op
      case Write(c) =>
        if c.status == ACCEPTED {
          WritingAcceptedBreaks(files, c);
        } else {
          OthersKeepConsistent(files, Apply(files, op), Id(c), c);
        }
      case Accept(id, who, now, note) =>
        AcceptKeepsConsistent(files, id, who, now, note);
      case Reject(id, who, reason, now) =>
        OthersKeepConsistent(files, Apply(files, op), id, Stamp(files.candidates[id], REJECTED, who, now, reason));
    }
  }

  lemma WritingAcceptedBreaks(files: Files, c: ValidCandidate)
    requires Consistent(files) && c.status == ACCEPTED && Refusal(files, Write(c)).None?
    ensures !Consistent(Apply(files, Write(c)))
  {
    var after := Apply(files, Write(c));
    assert !AcceptedAs(files, Id(c), c.kind);
    assert AcceptedAs(after, Id(c), c.kind);
  }

  ghost predicate PendingWrites(ops: seq<Operation>) {
    forall i :: 0 <= i < |ops| && ops[i].Write? ==> ops[i].candidate.status == PENDING
  }

  /** After any sequence of pending writes, accepts and rejects the set is exactly the accepted candidates. */
  lemma {:induction false} SetIsTheAccepted(ops: seq<Operation>)
    requires PendingWrites(ops)
    ensures Consistent(RunAll(EMPTY, ops))
  {
    if ops != [] {
      var init, last := ops[..|ops| - 1], ops[|ops| - 1];
      SetIsTheAccepted(init);
      ApplyKeepsConsistent(RunAll(EMPTY, init), last);
    }
  }

  // ---------- What each operation achieves ----------

  function SuiteOf(files: Files, kind: CaseKind): map<string, MaterializedCase> {
    match kind case MODE1 => files.suite1 case MODE2 => files.suite2
  }

  ghost predicate OthersUntouched(before: Files, after: Files, id: string) {
    forall other :: other != id ==> SameFor(before, after, other)
  }

  ghost predicate Held(files: Files, id: string, status: ReviewStatus) {
    id in files.candidates && files.candidates[id].status == status
  }

  /** A write is taken exactly unless its id stands accepted; then the candidate is stored, and no suite moves. */
  lemma WriteIs(files: Files, c: ValidCandidate)
    ensures var after := Apply(files, Write(c));
      && (Refusal(files, Write(c)) == if Held(files, Id(c), ACCEPTED) then Some(AlreadyAccepted(Id(c))) else None)
      && (Held(files, Id(c), ACCEPTED) ==> after == files)
      && (!Held(files, Id(c), ACCEPTED) ==>
            Id(c) in after.candidates && after.candidates[Id(c)] == c &&
            after.suite1 == files.suite1 && after.suite2 == files.suite2)
      && OthersUntouched(files, after, Id(c))
  {
  }

  /** A review is taken exactly for a pending candidate. */
  lemma ReviewedIffPending(files: Files, id: string, who: string, now: int, note: string)
    ensures var accept, reject := Accept(id, who, now, note), Reject(id, who, note, now);
      && Refusal(files, accept) == Refusal(files, reject)
      && (Refusal(files, accept).None? <==> Held(files, id, PENDING))
      && (Refusal(files, accept) == Some(UnknownCandidate(id)) <==> id !in files.candidates)
      && (id in files.candidates && files.candidates[id].status != PENDING ==>
            Refusal(files, accept) == Some(NotPending(id, files.candidates[id].status)))
      && (!Held(files, id, PENDING) ==> Apply(files, accept) == files && Apply(files, reject) == files)
  {
  }

  /** The review a candidate carries: its own data otherwise. */
  ghost predicate CarriesReview(before: ValidCandidate, after: ValidCandidate, who: string, now: int, note: string) {
    && after.kind == before.kind && PayloadOf(after) == PayloadOf(before)
    && after.provenance == before.provenance.(reviewedBy := Some(who), reviewedAt := Some(now), reviewNote := note)
  }

  /** Accepting a pending candidate puts its case, with its review, in the suite of its kind. */
  lemma PendingIsAccepted(files: Files, id: string, who: string, now: int, note: string)
    requires Keyed(files) && Held(files, id, PENDING)
    ensures var after := Apply(files, Accept(id, who, now, note));
      && Held(after, id, ACCEPTED) && CarriesReview(files.candidates[id], after.candidates[id], who, now, note)
      && (var kind := files.candidates[id].kind;
          && id in SuiteOf(after, kind)
          && SuiteOf(after, kind)[id] == MaterializedCase(PayloadOf(files.candidates[id]), after.candidates[id].provenance)
          && SuiteOf(after, if kind == MODE1 then MODE2 else MODE1) == SuiteOf(files, if kind == MODE1 then MODE2 else MODE1))
      && OthersUntouched(files, after, id)
  {
  }

  /** Rejecting one records the review, and no suite moves. */
  lemma PendingIsRejected(files: Files, id: string, who: string, reason: string, now: int)
    requires Held(files, id, PENDING)
    ensures var after := Apply(files, Reject(id, who, reason, now));
      && Held(after, id, REJECTED) && CarriesReview(files.candidates[id], after.candidates[id], who, now, reason)
      && after.suite1 == files.suite1 && after.suite2 == files.suite2 && OthersUntouched(files, after, id)
  {
  }

  /** In any run of the store, a pending candidate written over nothing accepted and then accepted is in the set. */
  lemma WrittenThenAccepted(ops: seq<Operation>, c: ValidCandidate, who: string, now: int, note: string)
    requires c.status == PENDING && !Held(RunAll(EMPTY, ops), Id(c), ACCEPTED)
    ensures var files := RunAll(EMPTY, ops + [Write(c)] + [Accept(Id(c), who, now, note)]);
      && Held(files, Id(c), ACCEPTED) && CarriesReview(c, files.candidates[Id(c)], who, now, note)
      && Id(c) in SuiteOf(files, c.kind)
      && SuiteOf(files, c.kind)[Id(c)] == MaterializedCase(PayloadOf(c), files.candidates[Id(c)].provenance)
  {
    var written := RunAll(EMPTY, ops + [Write(c)]);
    assert (ops + [Write(c)])[..|ops|] == ops;
    assert (ops + [Write(c)] + [Accept(Id(c), who, now, note)])[..|ops| + 1] == ops + [Write(c)];
    WriteIs(RunAll(EMPTY, ops), c);
    RunsAreKeyed(EMPTY, ops + [Write(c)]);
    PendingIsAccepted(written, Id(c), who, now, note);
  }

  // ---------- Acceptance absorbs ----------

  ghost predicate IsAccepted(files: Files, id: string) {
    id in files.candidates && files.candidates[id].status == ACCEPTED
  }

  /** The candidate and its materialized cases, as they stand for one id. */
  ghost predicate SameFor(a: Files, b: Files, id: string) {
    && (id in a.candidates <==> id in b.candidates) && (id in a.candidates ==> a.candidates[id] == b.candidates[id])
    && (id in a.suite1 <==> id in b.suite1) && (id in a.suite1 ==> a.suite1[id] == b.suite1[id])
    && (id in a.suite2 <==> id in b.suite2) && (id in a.suite2 ==> a.suite2[id] == b.suite2[id])
  }

  lemma ApplyKeepsKeyed(files: Files, op: Operation)
    requires Keyed(files)
    ensures Keyed(Apply(files, op))
  {
  }

  /** Whatever the operations, candidates stay filed under their own ids. */
  lemma {:induction false} RunsAreKeyed(files: Files, ops: seq<Operation>)
    requires Keyed(files)
    ensures Keyed(RunAll(files, ops))
  {
    if ops != [] {
      RunsAreKeyed(files, ops[..|ops| - 1]);
      ApplyKeepsKeyed(RunAll(files, ops[..|ops| - 1]), ops[|ops| - 1]);
    }
  }

  lemma OneStepAbsorbs(files: Files, op: Operation, id: string)
    requires Keyed(files) && IsAccepted(files, id)
    ensures SameFor(files, Apply(files, op), id)
  {
  }

  /** No later write or review, whatever it is, alters an accepted case: not even writing it as accepted. */
  lemma {:induction false} AcceptanceAbsorbs(files: Files, ops: seq<Operation>, id: string)
    requires Keyed(files) && IsAccepted(files, id)
    ensures SameFor(files, RunAll(files, ops), id)
  {
    if ops != [] {
      var init, last := ops[..|ops| - 1], ops[|ops| - 1];
      AcceptanceAbsorbs(files, init, id);
      RunsAreKeyed(files, init);
      OneStepAbsorbs(RunAll(files, init), last, id);
    }
  }

  lemma {:induction false} RunOn(files: Files, first: seq<Operation>, later: seq<Operation>)
    ensures RunAll(files, first + later) == RunAll(RunAll(files, first), later)
    decreases |later|
  {
    if later == [] {
      AppendNothing(first);
    } else {
      InitOfConcat(first, later);
      RunOn(files, first, later[..|later| - 1]);
    }
  }

  /** So in any run of the store, from an empty one on, a case once accepted stays as it was accepted. */
  lemma AcceptedForGood(first: seq<Operation>, later: seq<Operation>, id: string)
    requires IsAccepted(RunAll(EMPTY, first), id)
    ensures SameFor(RunAll(EMPTY, first), RunAll(EMPTY, first + later), id)
  {
    RunsAreKeyed(EMPTY, first);
    AcceptanceAbsorbs(RunAll(EMPTY, first), later, id);
    RunOn(EMPTY, first, later);
  }

  // ---------- Every case in the set was written, then reviewed ----------

  ghost predicate WrittenAt(ops: seq<Operation>, i: nat, c: ValidCandidate) {
    i < |ops| && ops[i] == Write(c)
  }

  /** Only writing it makes a candidate pending. */
  lemma PendingStep(before: Files, op: Operation, id: string)
    requires Consistent(before) && (op.Write? ==> op.candidate.status == PENDING)
    requires var after := Apply(before, op); id in after.candidates && after.candidates[id].status == PENDING
    ensures if op.Write? && Id(op.candidate) == id && Refusal(before, op).None? then Apply(before, op).candidates[id] == op.candidate
            else id in before.candidates && before.candidates[id] == Apply(before, op).candidates[id]
  {
  }

  /** A pending candidate is one some operation wrote. */
  lemma {:induction false} PendingWasWritten(ops: seq<Operation>, id: string) returns (i: nat)
    requires PendingWrites(ops)
    requires var files := RunAll(EMPTY, ops); id in files.candidates && files.candidates[id].status == PENDING
    ensures WrittenAt(ops, i, RunAll(EMPTY, ops).candidates[id])
  {
    var init, last := ops[..|ops| - 1], ops[|ops| - 1];
    var before := RunAll(EMPTY, init);
    SetIsTheAccepted(init);
    PendingStep(before, last, id);
    if Refusal(before, last).None? && last.Write? && Id(last.candidate) == id {
      i := |ops| - 1;
    } else {
      i := PendingWasWritten(init, id);
      assert ops[i] == init[i];
    }
  }

  /** Every accepted candidate was written pending and later accepted, and carries that write and that review. */
  lemma {:induction false} AcceptedWasReviewed(ops: seq<Operation>, id: string) returns (i: nat, j: nat)
    requires PendingWrites(ops) && IsAccepted(RunAll(EMPTY, ops), id)
    ensures i < j < |ops| && ops[i].Write? && ops[j].Accept? && ops[j].id == id
    ensures RunAll(EMPTY, ops).candidates[id] == Stamp(ops[i].candidate, ACCEPTED, ops[j].reviewedBy, ops[j].now, ops[j].note)
  {
    var init, last := ops[..|ops| - 1], ops[|ops| - 1];
    var before := RunAll(EMPTY, init);
    SetIsTheAccepted(init);
    if Refusal(before, last).None? && last.Accept? && last.id == id {
      i := PendingWasWritten(init, id);
      j := |ops| - 1;
      assert ops[i] == init[i];
    } else {
      assert IsAccepted(before, id);
      OneStepAbsorbs(before, last, id);
      i, j := AcceptedWasReviewed(init, id);
      assert ops[i] == init[i] && ops[j] == init[j];
    }
  }

  /** So every case the harness reads shows who wrote it and who reviewed it. */
  lemma SetCarriesItsReview(ops: seq<Operation>, id: string) returns (i: nat, j: nat)
    requires PendingWrites(ops)
    requires id in RunAll(EMPTY, ops).suite1 || id in RunAll(EMPTY, ops).suite2
    ensures i < j < |ops| && ops[i].Write? && ops[j].Accept? && ops[j].id == id
    ensures var files, reviewed := RunAll(EMPTY, ops), Stamp(ops[i].candidate, ACCEPTED, ops[j].reviewedBy, ops[j].now, ops[j].note);
      var data := MaterializedCase(PayloadOf(ops[i].candidate), reviewed.provenance);
      && (id in files.suite1 ==> ops[i].candidate.kind == MODE1 && files.suite1[id] == data)
      && (id in files.suite2 ==> ops[i].candidate.kind == MODE2 && files.suite2[id] == data)
      && !(id in files.suite1 && id in files.suite2)
  {
    SetIsTheAccepted(ops);
    var files := RunAll(EMPTY, ops);
    assert id in files.suite1 ==> AcceptedAs(files, id, MODE1);
    assert id in files.suite2 ==> AcceptedAs(files, id, MODE2);
    i, j := AcceptedWasReviewed(ops, id);
  }
}
