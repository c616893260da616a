/**
 * The escrow records of the home page and the pure rules over them: the milestone
 * decision, the decision gate, escrow approval, the draft total and its gate,
 * escrow creation and the wallet balance.
 */
module Escrow {
  import opened Wrappers
  import opened Seqs
  import opened Text

  /** A timestamp from `new Date().toISOString()`, taken as an opaque value. */
  type Stamp = string

  datatype TxStatus = Pending | Active | Released | Resolved | Cancelled

  datatype MilestoneStatus = Pending | Released | Rejected

  datatype TxMilestone = TxMilestone(
    id: string,
    title: string,
    amount: int,
    description: Option<string>,
    status: MilestoneStatus,
    releasedAt: Option<Stamp>,
    rejectedAt: Option<Stamp>)

  /** A timeline row; `caption` stands for the `label` field of src/app/page.tsx, a word Dafny reserves. */
  datatype TimelineEntry = TimelineEntry(id: string, caption: string, detail: string, time: Stamp)

  datatype StepStatus = Complete | Active | Upcoming

  datatype ProcessStep = ProcessStep(title: string, detail: string, status: StepStatus)

  /** An escrow. Amounts are in cents. */
  datatype Transaction = Transaction(
    id: int,
    title: string,
    description: Option<string>,
    counterpart: string,
    amount: int,
    status: TxStatus,
    context: string,
    steps: seq<ProcessStep>,
    buyer: string,
    buyerEmail: string,
    seller: string,
    sellerEmail: string,
    milestones: seq<TxMilestone>,
    timeline: seq<TimelineEntry>,
    counterpartyApproved: bool)

  /** A milestone being drafted before the escrow exists. */
  datatype DraftMilestone = DraftMilestone(id: string, title: string, amount: int, description: string)

  datatype HistoryType = Deposit | Withdraw

  datatype WalletHistoryEntry = WalletHistoryEntry(id: string, kind: HistoryType, amount: int, date: Stamp)

  datatype Decision = Approve | Reject

  /** What `Number(text)` gives for a form field: not a number, or an amount in cents. */
  datatype Parsed = NaN | Amount(cents: int)

  /** `!Number(text)`: NaN and zero are falsy. */
  predicate Falsy(p: Parsed) {
    p.NaN? || p.cents == 0
  }

  /** The outcome of an awaited backend call: its response, or the error it threw (with a message when it was an `Error`). */
  datatype Reply<T> = Ok(value: T) | Failed(error: Option<string>)

  /** `error instanceof Error ? error.message : fallback`. */
  function ErrorMessage(error: Option<string>, fallback: string): string {
    error.GetOr(fallback)
  }

  const ActiveContext := "Milestones active"
  const AllPaidContext := "All milestones paid"
  const AttentionContext := "Milestone requires attention"
  const RejectedEscrowContext := "Rejected - waiting on changes"

  // ---------------------------------------------------------------------------
  // Milestone decision

  /** One milestone after the decision: approval releases it, rejection sends it back. */
  function DecideMilestone(m: TxMilestone, decision: Decision, stamp: Stamp): (r: TxMilestone)
    ensures r.id == m.id && r.title == m.title && r.amount == m.amount && r.description == m.description
    ensures decision == Approve ==>
      r.status == MilestoneStatus.Released && r.releasedAt == Some(stamp) && r.rejectedAt == None
    ensures decision == Reject ==>
      r.status == MilestoneStatus.Rejected && r.rejectedAt == Some(stamp) && r.releasedAt == m.releasedAt
  {
    match decision
    case Approve => m.(status := MilestoneStatus.Released, releasedAt := Some(stamp), rejectedAt := None)
    case Reject => m.(status := MilestoneStatus.Rejected, rejectedAt := Some(stamp))
  }

  /** The `tx.milestones.map(...)` of the decision. */
  function DecideAll(ms: seq<TxMilestone>, milestoneId: string, decision: Decision, stamp: Stamp): seq<TxMilestone> {
    seq(|ms|, i requires 0 <= i < |ms| => if ms[i].id == milestoneId then DecideMilestone(ms[i], decision, stamp) else ms[i])
  }

  /** The `targetTitle` the map leaves behind: the title of the last milestone with the id, or "". */
  function TargetTitle(ms: seq<TxMilestone>, milestoneId: string): (t: string)
    ensures t != "" ==> exists i :: 0 <= i < |ms| && ms[i].id == milestoneId && ms[i].title == t
    ensures (forall i :: 0 <= i < |ms| ==> ms[i].id != milestoneId) ==> t == ""
    ensures forall i :: 0 <= i < |ms| && ms[i].id == milestoneId && NoLaterMilestone(ms, milestoneId, i) ==> t == ms[i].title
  {
    if |ms| == 0 then ""
    else if ms[|ms| - 1].id == milestoneId then ms[|ms| - 1].title
    else TargetTitle(ms[..|ms| - 1], milestoneId)
  }

  /** No milestone after position `i` has the id. */
  predicate NoLaterMilestone(ms: seq<TxMilestone>, milestoneId: string, i: nat) {
    forall j :: i < j < |ms| ==> ms[j].id != milestoneId
  }

  /** `updatedMilestones.length > 0 && updatedMilestones.every(released)`. */
  predicate AllReleased(ms: seq<TxMilestone>) {
    |ms| > 0 && forall i :: 0 <= i < |ms| ==> ms[i].status == MilestoneStatus.Released
  }

  /** `updatedMilestones.some(rejected)`. */
  predicate AnyRejected(ms: seq<TxMilestone>) {
    exists i :: 0 <= i < |ms| && ms[i].status == MilestoneStatus.Rejected
  }

  /** The timeline entry a decision on a titled milestone adds. */
  function DecisionEntry(decision: Decision, title: string, entryId: string, stamp: Stamp): TimelineEntry {
    match decision
    case Approve => TimelineEntry(entryId, "Milestone approved", "\"" + title + "\" released to the seller", stamp)
    case Reject => TimelineEntry(entryId, "Milestone rejected", "\"" + title + "\" sent back for revision", stamp)
  }

  /**
   * The mapper `executeDecision` hands to `updateTransaction`: the decided milestones,
   * the aggregate status and context, and one new timeline entry when the target
   * milestone has a non-blank title.
   */
  function ApplyDecision(tx: Transaction, milestoneId: string, decision: Decision, stamp: Stamp, entryId: string): (r: Transaction)
    ensures r == tx.(milestones := r.milestones, status := r.status, context := r.context, timeline := r.timeline)
    ensures r.milestones == DecideAll(tx.milestones, milestoneId, decision, stamp)
    ensures |r.milestones| == |tx.milestones|
    ensures forall i :: 0 <= i < |tx.milestones| && tx.milestones[i].id != milestoneId ==> r.milestones[i] == tx.milestones[i]
    ensures forall i :: 0 <= i < |tx.milestones| && tx.milestones[i].id == milestoneId ==>
      r.milestones[i] == DecideMilestone(tx.milestones[i], decision, stamp)
    ensures r.status == TxStatus.Released <==> AllReleased(r.milestones) || tx.status == TxStatus.Released
    ensures !AllReleased(r.milestones) ==> r.status == tx.status
    ensures AllReleased(r.milestones) ==> r.context == AllPaidContext
    ensures !AllReleased(r.milestones) && AnyRejected(r.milestones) ==> r.context == AttentionContext
    ensures !AllReleased(r.milestones) && !AnyRejected(r.milestones) ==>
      r.context == (if decision == Approve then ActiveContext else tx.context)
  {
    var ms := DecideAll(tx.milestones, milestoneId, decision, stamp);
    var title := TargetTitle(tx.milestones, milestoneId);
    var status := if AllReleased(ms) then TxStatus.Released else tx.status;
    var context :=
      if AllReleased(ms) then AllPaidContext
      else if AnyRejected(ms) then AttentionContext
      else if decision == Approve then ActiveContext
      else tx.context;
    var timeline := if Trim(title) == "" then tx.timeline else [DecisionEntry(decision, title, entryId, stamp)] + tx.timeline;
    tx.(milestones := ms, status := status, context := context, timeline := timeline)
  }

  /**
   * The timeline after a decision: one entry is added at the head, naming the last
   * milestone with the id, exactly when that milestone has a non-blank title.
   */
  lemma DecisionTimeline(tx: Transaction, milestoneId: string, decision: Decision, stamp: Stamp, entryId: string)
    ensures var r := ApplyDecision(tx, milestoneId, decision, stamp, entryId);
      var title := TargetTitle(tx.milestones, milestoneId);
      && (Trim(title) == "" ==> r.timeline == tx.timeline)
      && (Trim(title) != "" ==>
            |r.timeline| == |tx.timeline| + 1 && r.timeline[1..] == tx.timeline
            && r.timeline[0] == DecisionEntry(decision, title, entryId, stamp))
  {
  }

  /** A decision on an id no milestone has adds nothing to the timeline. */
  lemma DecisionOnUnknownMilestoneKeepsTimeline(tx: Transaction, milestoneId: string, decision: Decision, stamp: Stamp, entryId: string)
    requires forall i :: 0 <= i < |tx.milestones| ==> tx.milestones[i].id != milestoneId
    ensures ApplyDecision(tx, milestoneId, decision, stamp, entryId).timeline == tx.timeline
    ensures ApplyDecision(tx, milestoneId, decision, stamp, entryId).milestones == tx.milestones
  {
    var ms := DecideAll(tx.milestones, milestoneId, decision, stamp);
    assert ms == tx.milestones;
    assert TargetTitle(tx.milestones, milestoneId) == "";
    assert Trim("") == "";
  }

  /** The decision as a mapper value, so that the page and its specification name the same function. */
  function DecisionMapper(milestoneId: string, decision: Decision, stamp: Stamp, entryId: string): Transaction -> Transaction {
    (tx: Transaction) => ApplyDecision(tx, milestoneId, decision, stamp, entryId)
  }

  /** The escrow invariant: an escrow is Released only once it has milestones and all are released. */
  predicate ReleasedMeansPaid(tx: Transaction) {
    tx.status == TxStatus.Released ==> AllReleased(tx.milestones)
  }

  /** A decision keeps the invariant, unless it rejects a milestone of an escrow already Released. */
  lemma DecisionKeepsReleasedMeansPaid(tx: Transaction, milestoneId: string, decision: Decision, stamp: Stamp, entryId: string)
    requires ReleasedMeansPaid(tx)
    requires decision == Approve || tx.status != TxStatus.Released
    ensures ReleasedMeansPaid(ApplyDecision(tx, milestoneId, decision, stamp, entryId))
  {
    var ms := DecideAll(tx.milestones, milestoneId, decision, stamp);
    if tx.status == TxStatus.Released {
      forall i | 0 <= i < |ms|
        ensures ms[i].status == MilestoneStatus.Released
      {
        if tx.milestones[i].id == milestoneId {
          assert ms[i] == DecideMilestone(tx.milestones[i], Approve, stamp);
        } else {
          assert ms[i] == tx.milestones[i];
        }
      }
      assert AllReleased(ms);
    }
  }

  /** The converse of the escrow invariant: an escrow whose (non-empty) milestones are all released is Released. */
  predicate PaidMeansReleased(tx: Transaction) {
    AllReleased(tx.milestones) ==> tx.status == TxStatus.Released
  }

  /** Every milestone decision leaves the escrow Released exactly when all its milestones are. */
  lemma DecisionMakesPaidReleased(tx: Transaction, milestoneId: string, decision: Decision, stamp: Stamp, entryId: string)
    requires ReleasedMeansPaid(tx)
    requires decision == Approve || tx.status != TxStatus.Released
    ensures PaidMeansReleased(ApplyDecision(tx, milestoneId, decision, stamp, entryId))
    ensures ReleasedMeansPaid(ApplyDecision(tx, milestoneId, decision, stamp, entryId))
  {
    DecisionKeepsReleasedMeansPaid(tx, milestoneId, decision, stamp, entryId);
  }

  /** Approving the last unreleased milestone of an escrow releases the escrow. */
  lemma FinalApprovalReleasesEscrow(tx: Transaction, milestoneId: string, stamp: Stamp, entryId: string)
    requires |tx.milestones| > 0
    requires forall i :: 0 <= i < |tx.milestones| ==>
      tx.milestones[i].id == milestoneId || tx.milestones[i].status == MilestoneStatus.Released
    ensures ApplyDecision(tx, milestoneId, Approve, stamp, entryId).status == TxStatus.Released
    ensures ApplyDecision(tx, milestoneId, Approve, stamp, entryId).context == AllPaidContext
  {
    var ms := DecideAll(tx.milestones, milestoneId, Approve, stamp);
    forall i | 0 <= i < |ms|
      ensures ms[i].status == MilestoneStatus.Released
    {
      if tx.milestones[i].id == milestoneId {
        assert ms[i] == DecideMilestone(tx.milestones[i], Approve, stamp);
      }
    }
    assert AllReleased(ms);
  }

  /** Rejecting a milestone of an active escrow keeps it active and flags it for attention. */
  lemma RejectionNeedsAttention(tx: Transaction, k: nat, stamp: Stamp, entryId: string)
    requires k < |tx.milestones| && tx.status == TxStatus.Active
    ensures ApplyDecision(tx, tx.milestones[k].id, Reject, stamp, entryId).status == TxStatus.Active
    ensures ApplyDecision(tx, tx.milestones[k].id, Reject, stamp, entryId).context == AttentionContext
  {
    var r := ApplyDecision(tx, tx.milestones[k].id, Reject, stamp, entryId);
    assert r.milestones[k].status == MilestoneStatus.Rejected;
  }

  /** Approving sets `releasedAt` and clears `rejectedAt`; a later rejection keeps that `releasedAt` beside its own `rejectedAt`. */
  lemma RejectAfterApproveKeepsBothStamps(m: TxMilestone, approvedAt: Stamp, rejectedAt: Stamp)
    ensures var r := DecideMilestone(DecideMilestone(m, Approve, approvedAt), Reject, rejectedAt);
      r.releasedAt == Some(approvedAt) && r.rejectedAt == Some(rejectedAt) && r.status == MilestoneStatus.Rejected
  {
  }

  // ---------------------------------------------------------------------------
  // The decision gate and escrow approval

  const NotFoundMessage := "Transaction not found."
  const AwaitCounterpartyMessage := "Wait for the counterparty to approve the project before reviewing milestones."
  const NotActiveMessage := "Milestones can only be approved once the escrow is active and funded."

  /** The outcome of the three checks in front of a milestone decision. */
  datatype Gate = Blocked(message: string) | Proceed

  /** `transactions.find((item) => item.id === id)`, as a position. */
  function FindTransaction(txs: seq<Transaction>, id: int): (r: Option<nat>)
    ensures r.Some? ==> r.value < |txs| && txs[r.value].id == id
    ensures r.Some? ==> forall j :: 0 <= j < r.value ==> txs[j].id != id
    ensures r.None? <==> forall j :: 0 <= j < |txs| ==> txs[j].id != id
  {
    FindFirst(txs, (t: Transaction) => t.id == id)
  }

  /**
   * The checks of `handleMilestoneDecision`, in order, on the first escrow with the
   * id: it must exist, be approved by the counterparty, and be Active.
   */
  function DecisionGate(txs: seq<Transaction>, txId: int): (g: Gate)
    ensures (forall j :: 0 <= j < |txs| ==> txs[j].id != txId) <==> g == Blocked(NotFoundMessage)
  {
    match FindTransaction(txs, txId)
    case None => Blocked(NotFoundMessage)
    case Some(k) =>
      if !txs[k].counterpartyApproved then Blocked(AwaitCounterpartyMessage)
      else if txs[k].status != TxStatus.Active then Blocked(NotActiveMessage)
      else Proceed
  }

  /**
   * The gate judges the first escrow with the id: a missing counterparty approval is
   * reported before a status other than Active, and only an approved Active escrow passes.
   */
  lemma GateJudgesFirstMatch(txs: seq<Transaction>, txId: int, k: nat)
    requires k < |txs| && txs[k].id == txId
    requires forall j :: 0 <= j < k ==> txs[j].id != txId
    ensures DecisionGate(txs, txId) ==
      if !txs[k].counterpartyApproved then Blocked(AwaitCounterpartyMessage)
      else if txs[k].status != TxStatus.Active then Blocked(NotActiveMessage)
      else Proceed
  {
    var found := FindTransaction(txs, txId);
    assert found.Some?;
    assert found.value == k;
  }

  /** Escrow approval: Active, counterparty approved, milestones open; whatever the status was. */
  function ApproveEscrow(tx: Transaction): Transaction {
    tx.(status := TxStatus.Active, context := ActiveContext, counterpartyApproved := true)
  }

  /** Escrow rejection: back to Pending, counterparty approval withdrawn; whatever the status was. */
  function RejectEscrow(tx: Transaction): Transaction {
    tx.(status := TxStatus.Pending, context := RejectedEscrowContext, counterpartyApproved := false)
  }

  /**
   * Approving or rejecting a Pending escrow keeps the converse invariant: its
   * milestones, which the verdict leaves alone, were not all released.
   */
  lemma VerdictOnPendingKeepsPaidMeansReleased(tx: Transaction)
    requires PaidMeansReleased(tx) && tx.status == TxStatus.Pending
    ensures PaidMeansReleased(ApproveEscrow(tx)) && PaidMeansReleased(RejectEscrow(tx))
    ensures ReleasedMeansPaid(ApproveEscrow(tx)) && ReleasedMeansPaid(RejectEscrow(tx))
  {
  }

  /**
   * The handlers themselves do not check the status: approving or rejecting a Released,
   * fully paid escrow leaves it Active or Pending with every milestone released.
   */
  lemma VerdictOnReleasedBreaksPaidMeansReleased(tx: Transaction)
    requires tx.status == TxStatus.Released && AllReleased(tx.milestones)
    ensures !PaidMeansReleased(ApproveEscrow(tx)) && !PaidMeansReleased(RejectEscrow(tx))
  {
  }

  /** No two escrows share an id. */
  predicate UniqueIds(txs: seq<Transaction>) {
    forall i, j :: 0 <= i < j < |txs| ==> txs[i].id != txs[j].id
  }

  /** Once the counterparty approves an escrow, decisions on its milestones go ahead. */
  lemma ApprovalOpensDecisions(txs: seq<Transaction>, k: nat)
    requires UniqueIds(txs) && k < |txs|
    ensures DecisionGate(txs[k := ApproveEscrow(txs[k])], txs[k].id) == Proceed
  {
    var after := txs[k := ApproveEscrow(txs[k])];
    GateJudgesFirstMatch(after, txs[k].id, k);
  }

  /** Once an escrow is rejected, decisions on its milestones are blocked until it is approved again. */
  lemma RejectionClosesDecisions(txs: seq<Transaction>, k: nat)
    requires UniqueIds(txs) && k < |txs|
    ensures DecisionGate(txs[k := RejectEscrow(txs[k])], txs[k].id) == Blocked(AwaitCounterpartyMessage)
  {
    var after := txs[k := RejectEscrow(txs[k])];
    GateJudgesFirstMatch(after, txs[k].id, k);
  }

  /** `prev.map(...)` of `updateTransaction`: the mapper applied to every escrow with the id. */
  function MapMatching(txs: seq<Transaction>, id: int, mapper: Transaction -> Transaction): seq<Transaction> {
    seq(|txs|, i requires 0 <= i < |txs| => if txs[i].id == id then mapper(txs[i]) else txs[i])
  }

  /** What `updatedTx` holds once the map has run: the mapped image of the last escrow with the id, if any. */
  function LastMapped(txs: seq<Transaction>, id: int, mapper: Transaction -> Transaction): (r: Option<Transaction>)
    ensures r.None? <==> forall j :: 0 <= j < |txs| ==> txs[j].id != id
    ensures r.Some? ==> exists k :: 0 <= k < |txs| && txs[k].id == id && r.value == mapper(txs[k])
  {
    if |txs| == 0 then None
    else if txs[|txs| - 1].id == id then Some(mapper(txs[|txs| - 1]))
    else LastMapped(txs[..|txs| - 1], id, mapper)
  }

  /** With unique ids, the update replaces exactly the one escrow with the id, and reports its image. */
  lemma MapMatchingUnique(txs: seq<Transaction>, k: nat, mapper: Transaction -> Transaction)
    requires UniqueIds(txs) && k < |txs|
    ensures MapMatching(txs, txs[k].id, mapper) == txs[k := mapper(txs[k])]
    ensures LastMapped(txs, txs[k].id, mapper) == Some(mapper(txs[k]))
  {
    var m := MapMatching(txs, txs[k].id, mapper);
    forall i | 0 <= i < |txs|
      ensures m[i] == txs[k := mapper(txs[k])][i]
    {
      if i != k {
        assert txs[i].id != txs[k].id;
      }
    }
    var r := LastMapped(txs, txs[k].id, mapper);
    var k' :| 0 <= k' < |txs| && txs[k'].id == txs[k].id && r.value == mapper(txs[k']);
    assert k' == k;
  }

  /** An update for an id no escrow has changes nothing and reports nothing. */
  lemma MapMatchingMissing(txs: seq<Transaction>, id: int, mapper: Transaction -> Transaction)
    requires forall j :: 0 <= j < |txs| ==> txs[j].id != id
    ensures MapMatching(txs, id, mapper) == txs
    ensures LastMapped(txs, id, mapper) == None
  {
  }

  // ---------------------------------------------------------------------------
  // Milestone drafts

  /** `milestones.reduce((sum, item) => sum + item.amount, 0)`, folded from the left. */
  function MilestoneTotal(ms: seq<DraftMilestone>): int {
    if |ms| == 0 then 0 else MilestoneTotal(ms[..|ms| - 1]) + ms[|ms| - 1].amount
  }

  /** The total of a concatenation is the sum of the totals. */
  lemma {:induction false} TotalAppend(a: seq<DraftMilestone>, b: seq<DraftMilestone>)
    ensures MilestoneTotal(a + b) == MilestoneTotal(a) + MilestoneTotal(b)
  {
    if |b| == 0 {
      assert a + b == a;
    } else {
      assert (a + b)[..|a + b| - 1] == a + b[..|b| - 1];
      TotalAppend(a, b[..|b| - 1]);
    }
  }

  /** The drafts other than `id`. */
  function WithoutDraft(ms: seq<DraftMilestone>, id: string): seq<DraftMilestone> {
    Filter(ms, (m: DraftMilestone) => m.id != id)
  }

  /** The drafts with `id`. */
  function DraftsWithId(ms: seq<DraftMilestone>, id: string): seq<DraftMilestone> {
    Filter(ms, (m: DraftMilestone) => m.id == id)
  }

  /** Removing the drafts with an id lowers the total by exactly their amounts. */
  lemma {:induction false} RemovalLowersTotal(ms: seq<DraftMilestone>, id: string)
    ensures MilestoneTotal(ms) == MilestoneTotal(WithoutDraft(ms, id)) + MilestoneTotal(DraftsWithId(ms, id))
  {
    if |ms| > 0 {
      RemovalLowersTotal(ms[1..], id);
      assert ms == [ms[0]] + ms[1..];
      TotalAppend([ms[0]], ms[1..]);
      var keep := if ms[0].id != id then [ms[0]] else [];
      var drop := if ms[0].id == id then [ms[0]] else [];
      assert WithoutDraft(ms, id) == keep + WithoutDraft(ms[1..], id);
      assert DraftsWithId(ms, id) == drop + DraftsWithId(ms[1..], id);
      TotalAppend(keep, WithoutDraft(ms[1..], id));
      TotalAppend(drop, DraftsWithId(ms[1..], id));
    }
  }

  /** With an id that only one draft has, the drafts with that id are that one draft. */
  lemma {:induction false} DraftsWithUniqueId(ms: seq<DraftMilestone>, k: nat)
    requires k < |ms|
    requires forall j :: 0 <= j < |ms| && j != k ==> ms[j].id != ms[k].id
    ensures DraftsWithId(ms, ms[k].id) == [ms[k]]
  {
    if k == 0 {
      FilterDropsAll(ms[1..], (m: DraftMilestone) => m.id == ms[0].id);
    } else {
      DraftsWithUniqueId(ms[1..], k - 1);
    }
  }

  /**
   * Editing a draft and adding it back unchanged keeps the total: the draft leaves
   * the list and returns at its end, with its description trimmed.
   */
  lemma EditThenReAddKeepsTotal(ms: seq<DraftMilestone>, k: nat)
    requires k < |ms|
    requires forall j :: 0 <= j < |ms| && j != k ==> ms[j].id != ms[k].id
    ensures MilestoneTotal(WithoutDraft(ms, ms[k].id) + [ms[k].(description := Trim(ms[k].description))])
      == MilestoneTotal(ms)
  {
    var d := ms[k].(description := Trim(ms[k].description));
    RemovalLowersTotal(ms, ms[k].id);
    DraftsWithUniqueId(ms, k);
    TotalAppend(WithoutDraft(ms, ms[k].id), [d]);
    assert MilestoneTotal([d]) == MilestoneTotal([]) + d.amount;
    assert MilestoneTotal([ms[k]]) == MilestoneTotal([]) + ms[k].amount;
  }

  const TotalMismatchWarning := "Milestone total must match the escrow amount."

  /** `Math.abs(x)`. */
  function Abs(x: int): int {
    if x < 0 then -x else x
  }

  /**
   * The guard of `handleMilestonesNext`: drafts exist, an escrow amount is given, and
   * the total is off by more than the one-cent tolerance.
   */
  predicate TotalMismatch(ms: seq<DraftMilestone>, escrowAmount: Parsed) {
    |ms| > 0 && !Falsy(escrowAmount) && Abs(escrowAmount.cents - MilestoneTotal(ms)) > 1
  }

  /** Adding a draft for exactly the missing amount lets the builder advance. */
  lemma AddingTheShortfallClosesTheGap(ms: seq<DraftMilestone>, escrowAmount: Parsed, d: DraftMilestone)
    requires !Falsy(escrowAmount) && d.amount == escrowAmount.cents - MilestoneTotal(ms)
    ensures !TotalMismatch(ms + [d], escrowAmount)
  {
    TotalAppend(ms, [d]);
    assert MilestoneTotal([d]) == MilestoneTotal([]) + d.amount;
  }

  /** A one-milestone draft of $650 for a $650 escrow advances without a warning. */
  lemma SingleMatchingMilestoneAdvances()
    ensures !TotalMismatch([DraftMilestone("m1", "Prototype delivery", 65000, "")], Amount(65000))
  {
    var ms := [DraftMilestone("m1", "Prototype delivery", 65000, "")];
    assert ms[..0] == [];
  }

  // ---------------------------------------------------------------------------
  // Escrow creation

  datatype Role = Buyer | Seller

  /** The create form; `amount` is what its text parses to. */
  datatype CreateForm = CreateForm(
    role: Role,
    counterpartyName: string,
    counterpartyEmail: string,
    title: string,
    amount: Parsed,
    category: string,
    description: string)

  datatype Profile = Profile(name: string, email: string)

  /** What `mutateAsync` sends to the create endpoint. */
  datatype CreateEscrowRequest = CreateEscrowRequest(
    title: string, counterpart: string, amount: int, category: string, description: Option<string>)

  /** `s || fallback` for a string. */
  function OrElse(s: string, fallback: string): string {
    if s == "" then fallback else s
  }

  /** `s || undefined` for a string. */
  function NonEmpty(s: string): Option<string> {
    if s == "" then None else Some(s)
  }

  function EscrowTitle(form: CreateForm): string {
    OrElse(Trim(form.title), if form.category == "" then "New escrow" else form.category + " escrow")
  }

  /** The buyer: the signed-in user when they create as buyer, otherwise the counterparty. */
  function BuyerOf(form: CreateForm, user: Profile): Profile {
    if form.role == Buyer then user
    else Profile(OrElse(form.counterpartyName, "Buyer"), OrElse(form.counterpartyEmail, "buyer@example.com"))
  }

  /** The seller: the signed-in user when they create as seller, otherwise the counterparty. */
  function SellerOf(form: CreateForm, user: Profile): Profile {
    if form.role == Seller then user
    else Profile(OrElse(form.counterpartyName, "Seller"), OrElse(form.counterpartyEmail, "seller@example.com"))
  }

  function CreateRequest(form: CreateForm, amount: int): CreateEscrowRequest {
    CreateEscrowRequest(EscrowTitle(form), OrElse(form.counterpartyName, "Counterparty"), amount, form.category,
                        NonEmpty(Trim(form.description)))
  }

  /** A draft promoted to a milestone of the new escrow. */
  function ToTxMilestone(d: DraftMilestone): TxMilestone {
    TxMilestone(d.id, d.title, d.amount, NonEmpty(d.description), MilestoneStatus.Pending, None, None)
  }

  /** `milestones.map(...)` at creation: one pending milestone per draft, in order. */
  function ToTxMilestones(ds: seq<DraftMilestone>): (ms: seq<TxMilestone>)
    ensures |ms| == |ds|
    ensures forall i :: 0 <= i < |ds| ==> ms[i] == ToTxMilestone(ds[i])
  {
    if |ds| == 0 then [] else ToTxMilestones(ds[..|ds| - 1]) + [ToTxMilestone(ds[|ds| - 1])]
  }

  /** The sum of the milestone amounts of an escrow. */
  function EscrowMilestoneTotal(ms: seq<TxMilestone>): int {
    if |ms| == 0 then 0 else EscrowMilestoneTotal(ms[..|ms| - 1]) + ms[|ms| - 1].amount
  }

  /** Promotion keeps the total of the drafts. */
  lemma {:induction false} PromotionKeepsTotal(ds: seq<DraftMilestone>)
    ensures EscrowMilestoneTotal(ToTxMilestones(ds)) == MilestoneTotal(ds)
  {
    if |ds| > 0 {
      PromotionKeepsTotal(ds[..|ds| - 1]);
      var ms := ToTxMilestones(ds);
      assert ms[..|ms| - 1] == ToTxMilestones(ds[..|ds| - 1]);
    }
  }

  /**
   * The `newTx` of `handleAgreementSubmit`: a Pending escrow awaiting the counterparty,
   * the creator on the side their role names, the drafts as pending milestones, and a
   * two-entry timeline.
   */
  function NewTransaction(form: CreateForm, user: Profile, drafts: seq<DraftMilestone>, id: int, amount: int,
                          stamp: Stamp, createdEntryId: string, notifiedEntryId: string): (tx: Transaction)
    ensures tx.id == id && tx.amount == amount && tx.title == EscrowTitle(form)
    ensures tx.status == TxStatus.Pending && !tx.counterpartyApproved
    ensures form.role == Buyer ==> tx.buyer == user.name && tx.buyerEmail == user.email && tx.counterpart == tx.seller
    ensures form.role == Seller ==> tx.seller == user.name && tx.sellerEmail == user.email && tx.counterpart == tx.buyer
    ensures tx.milestones == ToTxMilestones(drafts)
    ensures |tx.milestones| == |drafts|
    ensures forall i :: 0 <= i < |drafts| ==>
      && tx.milestones[i].id == drafts[i].id && tx.milestones[i].title == drafts[i].title
      && tx.milestones[i].amount == drafts[i].amount
      && tx.milestones[i].status == MilestoneStatus.Pending
      && tx.milestones[i].releasedAt == None && tx.milestones[i].rejectedAt == None
    ensures |tx.timeline| == 2 && tx.timeline[0].caption == "Created" && tx.timeline[1].caption == "Awaiting approval"
    ensures tx.timeline[0].time == stamp && tx.timeline[1].time == stamp
  {
    var buyer := BuyerOf(form, user);
    var seller := SellerOf(form, user);
    var approvalContext := if form.role == Buyer then "Seller approval pending" else "Buyer approval pending";
    var approvalDetail := if form.role == Buyer then "Seller review pending" else "Buyer review pending";
    Transaction(
      id,
      EscrowTitle(form),
      NonEmpty(Trim(form.description)),
      if form.role == Buyer then seller.name else buyer.name,
      amount,
      TxStatus.Pending,
      approvalContext,
      [ ProcessStep("Agreement drafted", "Creator signed the agreement", StepStatus.Complete),
        ProcessStep("Awaiting approval", approvalDetail, StepStatus.Active),
        ProcessStep("Funding pending", "Buyer funds after approval", StepStatus.Upcoming) ],
      buyer.name,
      buyer.email,
      seller.name,
      seller.email,
      ToTxMilestones(drafts),
      [ TimelineEntry(createdEntryId, "Created", "Created by " + user.name, stamp),
        TimelineEntry(notifiedEntryId, "Awaiting approval",
                      OrElse(form.counterpartyName, "Counterparty") + " notified to review", stamp) ],
      false)
  }

  /** A new escrow's milestones add up to the drafts' total, so a total that passed the gate still matches. */
  lemma NewEscrowKeepsDraftTotal(form: CreateForm, user: Profile, drafts: seq<DraftMilestone>, id: int, amount: int,
                                 stamp: Stamp, createdEntryId: string, notifiedEntryId: string)
    requires |drafts| > 0 && amount != 0 && !TotalMismatch(drafts, Amount(amount))
    ensures var tx := NewTransaction(form, user, drafts, id, amount, stamp, createdEntryId, notifiedEntryId);
      Abs(tx.amount - EscrowMilestoneTotal(tx.milestones)) <= 1
  {
    var tx := NewTransaction(form, user, drafts, id, amount, stamp, createdEntryId, notifiedEntryId);
    assert tx.milestones == ToTxMilestones(drafts) && tx.amount == amount;
    PromotionKeepsTotal(drafts);
  }

  /** A new escrow is neither Released nor fully paid: its milestones all start pending. */
  lemma NewEscrowStatusMatchesMilestones(form: CreateForm, user: Profile, drafts: seq<DraftMilestone>, id: int, amount: int,
                                         stamp: Stamp, createdEntryId: string, notifiedEntryId: string)
    ensures var tx := NewTransaction(form, user, drafts, id, amount, stamp, createdEntryId, notifiedEntryId);
      ReleasedMeansPaid(tx) && PaidMeansReleased(tx) && !AllReleased(tx.milestones)
  {
    var tx := NewTransaction(form, user, drafts, id, amount, stamp, createdEntryId, notifiedEntryId);
    if |tx.milestones| > 0 {
      assert tx.milestones[0].status == MilestoneStatus.Pending;
    }
  }

  /** A newly created escrow, placed at the head of the list, blocks milestone decisions until the counterparty approves. */
  lemma NewEscrowAwaitsCounterparty(txs: seq<Transaction>, form: CreateForm, user: Profile, drafts: seq<DraftMilestone>,
                                    id: int, amount: int, stamp: Stamp, createdEntryId: string, notifiedEntryId: string)
    ensures DecisionGate([NewTransaction(form, user, drafts, id, amount, stamp, createdEntryId, notifiedEntryId)] + txs, id)
      == Blocked(AwaitCounterpartyMessage)
  {
    var all := [NewTransaction(form, user, drafts, id, amount, stamp, createdEntryId, notifiedEntryId)] + txs;
    GateJudgesFirstMatch(all, id, 0);
  }

  // ---------------------------------------------------------------------------
  // Wallet

  /** `!amount || amount <= 0`: NaN, zero and negative amounts are refused. */
  predicate InvalidWalletAmount(amount: Parsed) {
    Falsy(amount) || amount.cents <= 0
  }

  /** The balance after a successful call: the one the server reports, else the local balance moved by the amount. */
  function BalanceAfter(balance: int, kind: HistoryType, amount: int, reported: Option<int>): (b: int)
    ensures reported.Some? ==> b == reported.value
    ensures reported.None? && kind == Deposit ==> b - balance == amount
    ensures reported.None? && kind == Withdraw ==> balance - b == amount
  {
    reported.GetOr(if kind == Deposit then balance + amount else balance - amount)
  }

  /** A top-up followed by a withdrawal of the same amount, neither reporting a balance, restores the balance. */
  lemma TopupThenWithdrawRestores(balance: int, amount: int)
    ensures BalanceAfter(BalanceAfter(balance, Deposit, amount, None), Withdraw, amount, None) == balance
  {
  }
}
