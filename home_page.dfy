/**
 * The escrow home page: its state, held in one object, and the handlers that change it.
 * Form fields are public fields that the inputs assign directly. Each awaited backend
 * call arrives as a `Reply`, and timestamps and random ids arrive as parameters.
 */
module HomePage {
  import opened Wrappers
  import opened Seqs
  import opened Text
  import opened Escrow
  import ConfirmDialog

  datatype Screen = Welcome | Dashboard | Create | Milestones | Agreement | Wallet | History | Settings | TransactionDetail

  /** The three milestone inputs; `amount` is what its text parses to (empty text parses to zero). */
  datatype MilestoneInputs = MilestoneInputs(title: string, amount: Parsed, description: string)

  const EmptyInputs := MilestoneInputs("", Amount(0), "")

  const EmptyCreateForm := CreateForm(Buyer, "", "", "", Amount(0), "Goods", "")

  const DefaultProfile := Profile("Scott", "scott@example.com")

  /** The opening wallet balance, $300, in cents. */
  const OpeningBalance := 30000

  /** A milestone approval waiting behind the confirm dialog. */
  datatype PendingApproval = PendingApproval(txId: int, milestoneId: string)

  const CreateFormError := "Fill in counterparty info and amount to continue."
  const MilestoneInputError := "Provide a milestone title and amount."
  const AgreementError := "Accept the agreement and confirm the signature to continue."
  const EscrowAmountError := "Enter an escrow amount before submitting."
  const EscrowDrafted := "Escrow drafted. Funding will start after both parties sign."
  const CreateFallback := "Unable to create escrow. Try again shortly."
  const ApproveFallback := "Unable to approve escrow."
  const RejectFallback := "Unable to reject escrow."
  const MilestoneApproved := "Milestone approved and funds released."
  const MilestoneRejected := "Milestone rejected and sent back for updates."
  const TopupInvalid := "Enter a valid top-up amount."
  const ToppedUp := "Wallet topped up."
  const TopupFallback := "Unable to top up wallet."
  const WithdrawInvalid := "Enter a valid withdrawal amount."
  const NotEnoughBalance := "Not enough balance to withdraw."
  const WithdrawRequested := "Withdrawal requested."
  const WithdrawFallback := "Unable to withdraw."

  /** The dialog put up in front of a milestone approval. */
  function ApprovalDialog(txId: int, milestoneId: string): ConfirmDialog.ConfirmOptions<PendingApproval> {
    ConfirmDialog.ConfirmOptions(
      "Approve milestone?",
      "Are you sure you want to approve this milestone? This action cannot be undone.",
      Some("Approve milestone"),
      None,
      PendingApproval(txId, milestoneId))
  }

  /** No escrow before position `k` has the id. */
  predicate NoEarlierEscrow(txs: seq<Transaction>, id: int, k: nat) {
    forall j :: 0 <= j < k && j < |txs| ==> txs[j].id != id
  }

  /** The escrow opened from the address on first load: the first with the id, when the screen is the escrow screen and the id is non-zero. */
  function InitialSelection(initialScreen: Screen, initialTxId: Option<int>, txs: seq<Transaction>): (r: Option<Transaction>)
    ensures r.Some? ==> initialScreen == TransactionDetail && initialTxId.Some? && initialTxId.value != 0
    ensures r.Some? ==> r.value in txs && r.value.id == initialTxId.value
    ensures r.Some? ==> exists k :: 0 <= k < |txs| && txs[k] == r.value && NoEarlierEscrow(txs, initialTxId.value, k)
    ensures initialScreen == TransactionDetail && initialTxId.Some? && initialTxId.value != 0 ==>
      (r.Some? <==> exists k :: 0 <= k < |txs| && txs[k].id == initialTxId.value)
  {
    if initialScreen == TransactionDetail && initialTxId.Some? && initialTxId.value != 0 then
      match FindTransaction(txs, initialTxId.value)
      case None => None
      case Some(k) => Some(txs[k])
    else None
  }

  /** `setSelectedTransaction` in `updateTransaction`: an open escrow with the id becomes the update's result. */
  function SelectedAfter(selected: Option<Transaction>, id: int, updated: Option<Transaction>,
                         mapper: Transaction -> Transaction): Option<Transaction> {
    if selected.Some? && selected.value.id == id then Some(updated.GetOr(mapper(selected.value))) else selected
  }

  /**
   * The invariant of the page's escrows: unique ids, an escrow is Released only once
   * every one of its (non-empty) milestones is, and the open escrow is one of the list.
   */
  predicate PageInvariant(txs: seq<Transaction>, selected: Option<Transaction>) {
    && UniqueIds(txs)
    && (forall k :: 0 <= k < |txs| ==> ReleasedMeansPaid(txs[k]))
    && (selected.Some? ==> selected.value in txs)
  }

  /** An update whose mapper keeps the id and the Released rule keeps the invariant, the open escrow included. */
  lemma UpdateKeepsInvariant(txs: seq<Transaction>, selected: Option<Transaction>, id: int, mapper: Transaction -> Transaction)
    requires PageInvariant(txs, selected)
    requires forall k :: 0 <= k < |txs| && txs[k].id == id ==>
      mapper(txs[k]).id == id && ReleasedMeansPaid(mapper(txs[k]))
    ensures PageInvariant(MapMatching(txs, id, mapper),
                          SelectedAfter(selected, id, LastMapped(txs, id, mapper), mapper))
  {
    if k :| 0 <= k < |txs| && txs[k].id == id {
      MapMatchingUnique(txs, k, mapper);
      var after := txs[k := mapper(txs[k])];
      if selected.Some? {
        var j :| 0 <= j < |txs| && txs[j] == selected.value;
        if selected.value.id == id {
          assert j == k;
          assert after[k] == mapper(txs[k]);
        } else {
          assert after[j] == selected.value;
        }
      }
    } else {
      MapMatchingMissing(txs, id, mapper);
    }
  }

  /** A new escrow with a fresh id, placed at the head, keeps the invariant. */
  lemma PrependKeepsInvariant(txs: seq<Transaction>, tx: Transaction, selected: Option<Transaction>)
    requires PageInvariant(txs, selected)
    requires forall k :: 0 <= k < |txs| ==> txs[k].id != tx.id
    requires tx.status != TxStatus.Released
    ensures PageInvariant([tx] + txs, None)
  {
    var all := [tx] + txs;
    forall i, j | 0 <= i < j < |all|
      ensures all[i].id != all[j].id
    {
      if i > 0 {
        assert all[i] == txs[i - 1] && all[j] == txs[j - 1];
      } else {
        assert all[j] == txs[j - 1];
      }
    }
    assert forall k :: 0 < k < |all| ==> all[k] == txs[k - 1];
  }

  /**
   * A milestone decision keeps the invariant: an approval always, a rejection when
   * the gate let it through (so the escrow it touches is Active, not Released).
   */
  lemma DecisionKeepsInvariant(txs: seq<Transaction>, selected: Option<Transaction>, txId: int,
                               milestoneId: string, decision: Decision, stamp: Stamp, entryId: string)
    requires PageInvariant(txs, selected)
    requires decision == Approve || DecisionGate(txs, txId) == Proceed
    ensures var mapper := DecisionMapper(milestoneId, decision, stamp, entryId);
      PageInvariant(MapMatching(txs, txId, mapper), SelectedAfter(selected, txId, LastMapped(txs, txId, mapper), mapper))
  {
    var mapper := DecisionMapper(milestoneId, decision, stamp, entryId);
    forall k | 0 <= k < |txs| && txs[k].id == txId
      ensures mapper(txs[k]).id == txId && ReleasedMeansPaid(mapper(txs[k]))
    {
      if decision == Reject {
        var first := FindTransaction(txs, txId).value;
        assert k == first;
      }
      DecisionKeepsReleasedMeansPaid(txs[k], milestoneId, decision, stamp, entryId);
    }
    UpdateKeepsInvariant(txs, selected, txId, mapper);
  }

  /** `DecisionKeepsInvariant` in the form a handler uses: when the decision is admitted, the invariant is kept. */
  lemma AdmittedDecisionKeepsInvariant(txs: seq<Transaction>, selected: Option<Transaction>, txId: int,
                                       milestoneId: string, decision: Decision, stamp: Stamp, entryId: string)
    ensures var mapper := DecisionMapper(milestoneId, decision, stamp, entryId);
      PageInvariant(txs, selected) && (decision == Approve || DecisionGate(txs, txId) == Proceed) ==>
        PageInvariant(MapMatching(txs, txId, mapper), SelectedAfter(selected, txId, LastMapped(txs, txId, mapper), mapper))
  {
    if PageInvariant(txs, selected) && (decision == Approve || DecisionGate(txs, txId) == Proceed) {
      DecisionKeepsInvariant(txs, selected, txId, milestoneId, decision, stamp, entryId);
    }
  }

  /** A gate that lets a decision through has found the escrow, so the update reports one. */
  lemma ProceedFindsEscrow(txs: seq<Transaction>, txId: int, mapper: Transaction -> Transaction)
    requires DecisionGate(txs, txId) == Proceed
    ensures LastMapped(txs, txId, mapper).Some?
  {
    var k := FindTransaction(txs, txId).value;
    assert txs[k].id == txId;
  }

  /** The fields escrow creation reads and resets, other than the message. */
  datatype CreationState = CreationState(
    transactions: seq<Transaction>,
    createForm: CreateForm,
    milestones: seq<DraftMilestone>,
    milestoneInputs: MilestoneInputs,
    editingMilestoneId: Option<string>,
    agreementAccepted: bool,
    signatureCaptured: bool,
    signatureVersion: int,
    screen: Screen,
    selected: Option<Transaction>)

  class Home {
    var screen: Screen
    var walletBalance: int
    var transactions: seq<Transaction>
    var selected: Option<Transaction>
    var walletHistory: seq<WalletHistoryEntry>
    var createForm: CreateForm
    var milestones: seq<DraftMilestone>
    var milestoneInputs: MilestoneInputs
    var editingMilestoneId: Option<string>
    var milestoneWarning: Option<string>
    var agreementAccepted: bool
    var signatureCaptured: bool
    var signatureVersion: int
    var walletAmountInput: Parsed
    var message: Option<string>
    var profile: Profile

    predicate Valid()
      reads this
    {
      PageInvariant(transactions, selected)
    }

    /** The first render: the seed escrows and history, an empty draft, $300 in the wallet. */
    constructor (initialScreen: Screen, initialTxId: Option<int>,
                 seedTransactions: seq<Transaction>, seedHistory: seq<WalletHistoryEntry>)
      ensures screen == initialScreen && walletBalance == OpeningBalance
      ensures transactions == seedTransactions && walletHistory == seedHistory
      ensures selected == InitialSelection(initialScreen, initialTxId, seedTransactions)
      ensures createForm == EmptyCreateForm && milestones == [] && milestoneInputs == EmptyInputs
      ensures editingMilestoneId == None && milestoneWarning == None && message == None
      ensures !agreementAccepted && !signatureCaptured && signatureVersion == 0
      ensures walletAmountInput == Amount(0) && profile == DefaultProfile
      ensures PageInvariant(seedTransactions, None) ==> Valid()
    {
      screen := initialScreen;
      walletBalance := OpeningBalance;
      transactions := seedTransactions;
      selected := InitialSelection(initialScreen, initialTxId, seedTransactions);
      walletHistory := seedHistory;
      createForm := EmptyCreateForm;
      milestones := [];
      milestoneInputs := EmptyInputs;
      editingMilestoneId := None;
      milestoneWarning := None;
      agreementAccepted := false;
      signatureCaptured := false;
      signatureVersion := 0;
      walletAmountInput := Amount(0);
      message := None;
      profile := DefaultProfile;
    }

    /** `navigate`: shows the screen, clears the message, and closes the open escrow unless the screen is the escrow screen. */
    method Navigate(target: Screen)
      modifies this`screen, this`message, this`selected
      ensures screen == target && message == None
      ensures selected == if target == TransactionDetail then old(selected) else None
      ensures old(Valid()) ==> Valid()
    {
      screen := target;
      message := None;
      if target != TransactionDetail {
        selected := None;
      }
    }

    /** `viewTransaction`: opens the escrow on the escrow screen. */
    method ViewTransaction(tx: Transaction)
      modifies this`screen, this`message, this`selected
      ensures selected == Some(tx) && message == None && screen == TransactionDetail
      ensures old(Valid()) && tx in transactions ==> Valid()
    {
      selected := Some(tx);
      message := None;
      screen := TransactionDetail;
    }

    /**
     * `updateTransaction`: maps every escrow with the id, remembers the last image in
     * `updated`, and refreshes the open escrow when it has the id.
     */
    method UpdateTransaction(id: int, mapper: Transaction -> Transaction) returns (updated: Option<Transaction>)
      modifies this`transactions, this`selected
      ensures transactions == MapMatching(old(transactions), id, mapper)
      ensures updated == LastMapped(old(transactions), id, mapper)
      ensures selected == SelectedAfter(old(selected), id, updated, mapper)
    {
      var prev := transactions;
      var next: seq<Transaction> := [];
      updated := None;
      var i := 0;
      while i < |prev|
        invariant 0 <= i <= |prev|
        invariant next == MapMatching(prev[..i], id, mapper)
        invariant updated == LastMapped(prev[..i], id, mapper)
      {
        assert prev[..i + 1][..i] == prev[..i];
        if prev[i].id == id {
          updated := Some(mapper(prev[i]));
          next := next + [updated.value];
        } else {
          next := next + [prev[i]];
        }
        i := i + 1;
      }
      assert prev[..|prev|] == prev;
      transactions := next;
      selected := SelectedAfter(selected, id, updated, mapper);
    }

    /** `handleCreateNext`: counterparty name, email and a non-zero amount are needed to reach the milestone step. */
    method HandleCreateNext()
      modifies this`screen, this`message, this`selected
      ensures var blocked := createForm.counterpartyName == "" || createForm.counterpartyEmail == "" || Falsy(createForm.amount);
        && (blocked ==> message == Some(CreateFormError) && screen == old(screen) && selected == old(selected))
        && (!blocked ==> message == None && screen == Milestones && selected == None)
      ensures old(Valid()) ==> Valid()
    {
      if createForm.counterpartyName == "" || createForm.counterpartyEmail == "" || Falsy(createForm.amount) {
        message := Some(CreateFormError);
        return;
      }
      message := None;
      Navigate(Milestones);
    }

    /**
     * `handleAddMilestone`: a titled input with a non-zero amount is appended as a draft,
     * under the id being edited if any, and the inputs are cleared. Negative amounts pass.
     */
    method HandleAddMilestone(freshId: string)
      modifies this`milestones, this`milestoneInputs, this`editingMilestoneId, this`milestoneWarning, this`message
      ensures var blocked := old(milestoneInputs).title == "" || Falsy(old(milestoneInputs).amount);
        && (blocked ==> milestones == old(milestones) && milestoneInputs == old(milestoneInputs)
                        && editingMilestoneId == old(editingMilestoneId) && milestoneWarning == old(milestoneWarning)
                        && message == Some(MilestoneInputError))
        && (!blocked ==>
              && milestones == old(milestones) + [DraftMilestone(old(editingMilestoneId).GetOr(freshId),
                   old(milestoneInputs).title, old(milestoneInputs).amount.cents, Trim(old(milestoneInputs).description))]
              && MilestoneTotal(milestones) == MilestoneTotal(old(milestones)) + old(milestoneInputs).amount.cents
              && milestoneInputs == EmptyInputs && editingMilestoneId == None
              && milestoneWarning == None && message == None)
    {
      if milestoneInputs.title == "" || Falsy(milestoneInputs.amount) {
        message := Some(MilestoneInputError);
        return;
      }
      var nextId := editingMilestoneId.GetOr(freshId);
      var draft := DraftMilestone(nextId, milestoneInputs.title, milestoneInputs.amount.cents, Trim(milestoneInputs.description));
      TotalAppend(milestones, [draft]);
      assert MilestoneTotal([draft]) == MilestoneTotal([]) + draft.amount;
      milestones := milestones + [draft];
      milestoneInputs := EmptyInputs;
      editingMilestoneId := None;
      milestoneWarning := None;
      message := None;
    }

    /**
     * `handleEditMilestone`: the first draft with the id is loaded into the inputs and
     * marked as being edited; every draft with the id leaves the list.
     */
    method HandleEditMilestone(id: string)
      modifies this`milestones, this`milestoneInputs, this`editingMilestoneId, this`message
      ensures milestones == WithoutDraft(old(milestones), id)
      ensures MilestoneTotal(milestones) == MilestoneTotal(old(milestones)) - MilestoneTotal(DraftsWithId(old(milestones), id))
      ensures match FindFirst(old(milestones), (m: DraftMilestone) => m.id == id)
        case None => milestoneInputs == old(milestoneInputs) && editingMilestoneId == old(editingMilestoneId)
        case Some(k) =>
          && milestoneInputs == MilestoneInputs(old(milestones)[k].title, Amount(old(milestones)[k].amount), old(milestones)[k].description)
          && editingMilestoneId == Some(id)
      ensures message == None
    {
      var target := FindFirst(milestones, (m: DraftMilestone) => m.id == id);
      if target.Some? {
        var d := milestones[target.value];
        milestoneInputs := MilestoneInputs(d.title, Amount(d.amount), d.description);
        editingMilestoneId := Some(id);
      }
      RemovalLowersTotal(milestones, id);
      milestones := WithoutDraft(milestones, id);
      message := None;
    }

    /** `handleRemoveMilestone`: the drafts with the id leave the list, and an edit of that id is abandoned. */
    method HandleRemoveMilestone(id: string)
      modifies this`milestones, this`milestoneInputs, this`editingMilestoneId, this`milestoneWarning, this`message
      ensures milestones == WithoutDraft(old(milestones), id)
      ensures MilestoneTotal(milestones) == MilestoneTotal(old(milestones)) - MilestoneTotal(DraftsWithId(old(milestones), id))
      ensures old(editingMilestoneId) == Some(id) ==> milestoneInputs == EmptyInputs && editingMilestoneId == None
      ensures old(editingMilestoneId) != Some(id) ==>
        milestoneInputs == old(milestoneInputs) && editingMilestoneId == old(editingMilestoneId)
      ensures milestoneWarning == None && message == None
    {
      RemovalLowersTotal(milestones, id);
      milestones := WithoutDraft(milestones, id);
      if editingMilestoneId == Some(id) {
        milestoneInputs := EmptyInputs;
        editingMilestoneId := None;
      }
      milestoneWarning := None;
      message := None;
    }

    /** `resetSignaturePad`: the signature is cleared and the pad redrawn. */
    method ResetSignaturePad()
      modifies this`signatureCaptured, this`signatureVersion
      ensures !signatureCaptured && signatureVersion == old(signatureVersion) + 1
    {
      signatureCaptured := false;
      signatureVersion := signatureVersion + 1;
    }

    /**
     * `handleMilestonesNext`: a draft total off from the escrow amount blocks with a
     * warning; otherwise the agreement step opens with the terms unaccepted and the pad clear.
     */
    method HandleMilestonesNext()
      modifies this`milestoneWarning, this`agreementAccepted, this`signatureCaptured, this`signatureVersion,
               this`screen, this`message, this`selected
      ensures TotalMismatch(milestones, createForm.amount) ==>
        && milestoneWarning == Some(TotalMismatchWarning) && screen == old(screen) && message == old(message)
        && agreementAccepted == old(agreementAccepted) && signatureCaptured == old(signatureCaptured)
        && signatureVersion == old(signatureVersion) && selected == old(selected)
      ensures !TotalMismatch(milestones, createForm.amount) ==>
        && milestoneWarning == None && !agreementAccepted && !signatureCaptured
        && signatureVersion == old(signatureVersion) + 1 && screen == Agreement && message == None && selected == None
      ensures old(Valid()) ==> Valid()
    {
      if TotalMismatch(milestones, createForm.amount) {
        milestoneWarning := Some(TotalMismatchWarning);
        return;
      }
      milestoneWarning := None;
      agreementAccepted := false;
      ResetSignaturePad();
      message := None;
      Navigate(Agreement);
    }

    /** The part of the page that escrow creation reads and resets, besides the message. */
    function Creation(): CreationState
      reads this
    {
      CreationState(transactions, createForm, milestones, milestoneInputs, editingMilestoneId,
                    agreementAccepted, signatureCaptured, signatureVersion, screen, selected)
    }

    /**
     * The success path of `handleAgreementSubmit`: the new escrow goes to the head of
     * the list, the draft is reset and the dashboard opens. The navigation clears the
     * drafted message set just before it.
     */
    method CommitNewEscrow(newTx: Transaction)
      modifies this`transactions, this`createForm, this`milestones, this`milestoneInputs, this`editingMilestoneId,
               this`agreementAccepted, this`signatureCaptured, this`signatureVersion, this`message, this`screen, this`selected
      ensures Creation() == CreationState([newTx] + old(transactions), EmptyCreateForm, [], EmptyInputs, None,
                                          false, false, old(signatureVersion) + 1, Dashboard, None)
      ensures message == None
      ensures old(Valid()) && newTx.status != TxStatus.Released
              && (forall k :: 0 <= k < |old(transactions)| ==> old(transactions)[k].id != newTx.id)
        ==> Valid()
    {
      if Valid() && newTx.status != TxStatus.Released && forall k :: 0 <= k < |transactions| ==> transactions[k].id != newTx.id {
        PrependKeepsInvariant(transactions, newTx, selected);
      }
      transactions := [newTx] + transactions;
      createForm := EmptyCreateForm;
      milestones := [];
      milestoneInputs := EmptyInputs;
      editingMilestoneId := None;
      agreementAccepted := false;
      ResetSignaturePad();
      message := Some(EscrowDrafted);
      Navigate(Dashboard);
    }

    /**
     * `handleAgreementSubmit`: with the terms accepted, the signature captured and a
     * non-zero amount, the create request goes out; a failed request only sets the
     * message, a successful one commits the new Pending escrow.
     */
    method HandleAgreementSubmit(reply: Reply<Option<int>>, fallbackId: int, stamp: Stamp,
                                 createdEntryId: string, notifiedEntryId: string)
      returns (request: Option<CreateEscrowRequest>)
      requires 10000 <= fallbackId <= 99999
      modifies this`transactions, this`createForm, this`milestones, this`milestoneInputs, this`editingMilestoneId,
               this`agreementAccepted, this`signatureCaptured, this`signatureVersion, this`message, this`screen, this`selected
      ensures !old(agreementAccepted) || !old(signatureCaptured) ==>
        request == None && message == Some(AgreementError) && Creation() == old(Creation())
      ensures old(agreementAccepted) && old(signatureCaptured) && Falsy(old(createForm).amount) ==>
        request == None && message == Some(EscrowAmountError) && Creation() == old(Creation())
      ensures old(agreementAccepted) && old(signatureCaptured) && !Falsy(old(createForm).amount) ==>
        request == Some(CreateRequest(old(createForm), old(createForm).amount.cents))
      ensures request.Some? && reply.Failed? ==>
        message == Some(ErrorMessage(reply.error, CreateFallback)) && Creation() == old(Creation())
      ensures request.Some? && reply.Ok? ==>
        && Creation() == CreationState(
             [NewTransaction(old(createForm), old(profile), old(milestones), reply.value.GetOr(fallbackId),
                             old(createForm).amount.cents, stamp, createdEntryId, notifiedEntryId)] + old(transactions),
             EmptyCreateForm, [], EmptyInputs, None, false, false, old(signatureVersion) + 1, Dashboard, None)
        && message == None
      ensures old(Valid()) && (reply.Ok? ==> (forall k :: 0 <= k < |old(transactions)| ==>
                                                old(transactions)[k].id != reply.value.GetOr(fallbackId)))
        ==> Valid()
    {
      if !agreementAccepted || !signatureCaptured {
        message := Some(AgreementError);
        return None;
      }
      if Falsy(createForm.amount) {
        message := Some(EscrowAmountError);
        return None;
      }
      var escrowAmount := createForm.amount.cents;
      request := Some(CreateRequest(createForm, escrowAmount));
      match reply
      case Failed(error) =>
        message := Some(ErrorMessage(error, CreateFallback));
      case Ok(escrowId) =>
        var newTx := NewTransaction(createForm, profile, milestones, escrowId.GetOr(fallbackId), escrowAmount,
                                    stamp, createdEntryId, notifiedEntryId);
        CommitNewEscrow(newTx);
    }

    /** `handleApprove`: once the backend accepts, the escrow with the id is approved whatever its status. */
    method HandleApprove(txId: int, reply: Reply<()>)
      modifies this`transactions, this`selected, this`message
      ensures reply.Ok? ==>
        && transactions == MapMatching(old(transactions), txId, t => ApproveEscrow(t))
        && selected == SelectedAfter(old(selected), txId, LastMapped(old(transactions), txId, t => ApproveEscrow(t)),
                                     t => ApproveEscrow(t))
        && message == Some("Escrow " + IntToDecimal(txId) + " approved.")
      ensures reply.Failed? ==>
        transactions == old(transactions) && selected == old(selected)
        && message == Some(ErrorMessage(reply.error, ApproveFallback))
      ensures old(Valid()) ==> Valid()
    {
      match reply
      case Failed(error) =>
        message := Some(ErrorMessage(error, ApproveFallback));
      case Ok(_) =>
        ghost var before, openBefore := transactions, selected;
        var _ := UpdateTransaction(txId, t => ApproveEscrow(t));
        if PageInvariant(before, openBefore) {
          UpdateKeepsInvariant(before, openBefore, txId, t => ApproveEscrow(t));
        }
        message := Some("Escrow " + IntToDecimal(txId) + " approved.");
    }

    /** `handleReject`: once the backend accepts, the escrow with the id goes back to Pending whatever its status. */
    method HandleReject(txId: int, reply: Reply<()>)
      modifies this`transactions, this`selected, this`message
      ensures reply.Ok? ==>
        && transactions == MapMatching(old(transactions), txId, t => RejectEscrow(t))
        && selected == SelectedAfter(old(selected), txId, LastMapped(old(transactions), txId, t => RejectEscrow(t)),
                                     t => RejectEscrow(t))
        && message == Some("Escrow " + IntToDecimal(txId) + " rejected.")
      ensures reply.Failed? ==>
        transactions == old(transactions) && selected == old(selected)
        && message == Some(ErrorMessage(reply.error, RejectFallback))
      ensures old(Valid()) ==> Valid()
    {
      match reply
      case Failed(error) =>
        message := Some(ErrorMessage(error, RejectFallback));
      case Ok(_) =>
        ghost var before, openBefore := transactions, selected;
        var _ := UpdateTransaction(txId, t => RejectEscrow(t));
        if PageInvariant(before, openBefore) {
          UpdateKeepsInvariant(before, openBefore, txId, t => RejectEscrow(t));
        }
        message := Some("Escrow " + IntToDecimal(txId) + " rejected.");
    }

    /** `executeDecision`: applies the decision to the escrow with the id, and reports it when an escrow was updated. */
    method ExecuteDecision(txId: int, milestoneId: string, decision: Decision, stamp: Stamp, entryId: string)
      returns (updated: Option<Transaction>)
      modifies this`transactions, this`selected, this`message
      ensures transactions == MapMatching(old(transactions), txId, DecisionMapper(milestoneId, decision, stamp, entryId))
      ensures updated == LastMapped(old(transactions), txId, DecisionMapper(milestoneId, decision, stamp, entryId))
      ensures selected == SelectedAfter(old(selected), txId, updated, DecisionMapper(milestoneId, decision, stamp, entryId))
      ensures updated.Some? ==> message == Some(if decision == Approve then MilestoneApproved else MilestoneRejected)
      ensures updated.None? ==> message == old(message)
      ensures old(Valid()) && (decision == Approve || DecisionGate(old(transactions), txId) == Proceed) ==> Valid()
    {
      AdmittedDecisionKeepsInvariant(transactions, selected, txId, milestoneId, decision, stamp, entryId);
      var mapper := DecisionMapper(milestoneId, decision, stamp, entryId);
      updated := UpdateTransaction(txId, mapper);
      if updated.Some? {
        message := Some(if decision == Approve then MilestoneApproved else MilestoneRejected);
      }
    }

    /**
     * The tail of `handleMilestoneDecision`, once the gate has passed: an approval
     * waits behind the confirm dialog, a rejection is applied at once.
     */
    method ProceedWithDecision(dialog: ConfirmDialog.ConfirmDialogProvider<PendingApproval>, txId: int,
                               milestoneId: string, decision: Decision, stamp: Stamp, entryId: string)
      requires DecisionGate(transactions, txId) == Proceed
      modifies this`transactions, this`selected, this`message, dialog
      ensures decision == Approve ==>
        && dialog.dialog == Some(ApprovalDialog(txId, milestoneId))
        && transactions == old(transactions) && selected == old(selected) && message == old(message)
      ensures decision == Reject ==>
        && transactions == MapMatching(old(transactions), txId, DecisionMapper(milestoneId, Reject, stamp, entryId))
        && selected == SelectedAfter(old(selected), txId,
                                     LastMapped(old(transactions), txId, DecisionMapper(milestoneId, Reject, stamp, entryId)),
                                     DecisionMapper(milestoneId, Reject, stamp, entryId))
        && message == Some(MilestoneRejected) && dialog.dialog == old(dialog.dialog)
      ensures old(Valid()) ==> Valid()
    {
      if decision == Approve {
        dialog.Confirm(ApprovalDialog(txId, milestoneId));
        return;
      }
      ProceedFindsEscrow(transactions, txId, DecisionMapper(milestoneId, decision, stamp, entryId));
      var _ := ExecuteDecision(txId, milestoneId, decision, stamp, entryId);
    }

    /**
     * `handleMilestoneDecision`: the escrow must exist, be approved by the counterparty
     * and be Active, or a message says which check failed and nothing changes.
     */
    method HandleMilestoneDecision(dialog: ConfirmDialog.ConfirmDialogProvider<PendingApproval>, txId: int,
                                   milestoneId: string, decision: Decision, stamp: Stamp, entryId: string)
      modifies this`transactions, this`selected, this`message, dialog
      ensures DecisionGate(old(transactions), txId).Blocked? ==>
        && message == Some(DecisionGate(old(transactions), txId).message)
        && transactions == old(transactions) && selected == old(selected) && dialog.dialog == old(dialog.dialog)
      ensures DecisionGate(old(transactions), txId) == Proceed && decision == Approve ==>
        && dialog.dialog == Some(ApprovalDialog(txId, milestoneId))
        && transactions == old(transactions) && selected == old(selected) && message == old(message)
      ensures DecisionGate(old(transactions), txId) == Proceed && decision == Reject ==>
        && transactions == MapMatching(old(transactions), txId, DecisionMapper(milestoneId, Reject, stamp, entryId))
        && selected == SelectedAfter(old(selected), txId,
                                     LastMapped(old(transactions), txId, DecisionMapper(milestoneId, Reject, stamp, entryId)),
                                     DecisionMapper(milestoneId, Reject, stamp, entryId))
        && message == Some(MilestoneRejected) && dialog.dialog == old(dialog.dialog)
      ensures old(Valid()) ==> Valid()
    {
      var gate := DecisionGate(transactions, txId);
      if gate.Blocked? {
        message := Some(gate.message);
        return;
      }
      ProceedWithDecision(dialog, txId, milestoneId, decision, stamp, entryId);
    }

    /** The confirm button of the dialog: a pending approval runs, once, and the slot empties. */
    method ConfirmPendingApproval(dialog: ConfirmDialog.ConfirmDialogProvider<PendingApproval>, stamp: Stamp, entryId: string)
      modifies this`transactions, this`selected, this`message, dialog
      ensures dialog.dialog == None
      ensures old(dialog.dialog).None? ==>
        transactions == old(transactions) && selected == old(selected) && message == old(message)
      ensures old(dialog.dialog).Some? ==>
        var p := old(dialog.dialog).value.onConfirm;
        var mapper := DecisionMapper(p.milestoneId, Approve, stamp, entryId);
        && transactions == MapMatching(old(transactions), p.txId, mapper)
        && selected == SelectedAfter(old(selected), p.txId, LastMapped(old(transactions), p.txId, mapper), mapper)
        && message == if LastMapped(old(transactions), p.txId, mapper).Some? then Some(MilestoneApproved) else old(message)
      ensures old(Valid()) ==> Valid()
    {
      var invoked := dialog.HandleConfirm();
      if invoked.Some? {
        var _ := ExecuteDecision(invoked.value.txId, invoked.value.milestoneId, Approve, stamp, entryId);
      }
    }

    /** `recordWalletHistory`: the entry goes to the head of the history. */
    method RecordWalletHistory(kind: HistoryType, amount: int, entryId: string, stamp: Stamp)
      modifies this`walletHistory
      ensures walletHistory == [WalletHistoryEntry(entryId, kind, amount, stamp)] + old(walletHistory)
    {
      walletHistory := [WalletHistoryEntry(entryId, kind, amount, stamp)] + walletHistory;
    }

    /** `handleWalletTopup`: a positive amount, once the backend accepts, is added (or the reported balance taken) and recorded. */
    method HandleWalletTopup(reply: Reply<Option<int>>, entryId: string, stamp: Stamp)
      modifies this`walletBalance, this`walletHistory, this`walletAmountInput, this`message
      ensures InvalidWalletAmount(old(walletAmountInput)) ==>
        && message == Some(TopupInvalid) && walletBalance == old(walletBalance)
        && walletHistory == old(walletHistory) && walletAmountInput == old(walletAmountInput)
      ensures !InvalidWalletAmount(old(walletAmountInput)) && reply.Failed? ==>
        && message == Some(ErrorMessage(reply.error, TopupFallback)) && walletBalance == old(walletBalance)
        && walletHistory == old(walletHistory) && walletAmountInput == old(walletAmountInput)
      ensures !InvalidWalletAmount(old(walletAmountInput)) && reply.Ok? ==>
        && walletBalance == BalanceAfter(old(walletBalance), Deposit, old(walletAmountInput).cents, reply.value)
        && walletHistory == [WalletHistoryEntry(entryId, Deposit, old(walletAmountInput).cents, stamp)] + old(walletHistory)
        && walletAmountInput == Amount(0) && message == Some(ToppedUp)
    {
      if InvalidWalletAmount(walletAmountInput) {
        message := Some(TopupInvalid);
        return;
      }
      var amount := walletAmountInput.cents;
      match reply
      case Failed(error) =>
        message := Some(ErrorMessage(error, TopupFallback));
      case Ok(reported) =>
        walletBalance := BalanceAfter(walletBalance, Deposit, amount, reported);
        RecordWalletHistory(Deposit, amount, entryId, stamp);
        walletAmountInput := Amount(0);
        message := Some(ToppedUp);
    }

    /**
     * `handleWalletWithdraw`: a positive amount no larger than the balance, once the
     * backend accepts, is taken off (or the reported balance taken) and recorded.
     */
    method HandleWalletWithdraw(reply: Reply<Option<int>>, entryId: string, stamp: Stamp)
      modifies this`walletBalance, this`walletHistory, this`walletAmountInput, this`message
      ensures InvalidWalletAmount(old(walletAmountInput)) ==>
        && message == Some(WithdrawInvalid) && walletBalance == old(walletBalance)
        && walletHistory == old(walletHistory) && walletAmountInput == old(walletAmountInput)
      ensures !InvalidWalletAmount(old(walletAmountInput)) && old(walletAmountInput).cents > old(walletBalance) ==>
        && message == Some(NotEnoughBalance) && walletBalance == old(walletBalance)
        && walletHistory == old(walletHistory) && walletAmountInput == old(walletAmountInput)
      ensures !InvalidWalletAmount(old(walletAmountInput)) && old(walletAmountInput).cents <= old(walletBalance) && reply.Failed? ==>
        && message == Some(ErrorMessage(reply.error, WithdrawFallback)) && walletBalance == old(walletBalance)
        && walletHistory == old(walletHistory) && walletAmountInput == old(walletAmountInput)
      ensures !InvalidWalletAmount(old(walletAmountInput)) && old(walletAmountInput).cents <= old(walletBalance) && reply.Ok? ==>
        && walletBalance == BalanceAfter(old(walletBalance), Withdraw, old(walletAmountInput).cents, reply.value)
        && walletHistory == [WalletHistoryEntry(entryId, Withdraw, old(walletAmountInput).cents, stamp)] + old(walletHistory)
        && walletAmountInput == Amount(0) && message == Some(WithdrawRequested)
    {
      if InvalidWalletAmount(walletAmountInput) {
        message := Some(WithdrawInvalid);
        return;
      }
      var amount := walletAmountInput.cents;
      if amount > walletBalance {
        message := Some(NotEnoughBalance);
        return;
      }
      match reply
      case Failed(error) =>
        message := Some(ErrorMessage(error, WithdrawFallback));
      case Ok(reported) =>
        walletBalance := BalanceAfter(walletBalance, Withdraw, amount, reported);
        RecordWalletHistory(Withdraw, amount, entryId, stamp);
        walletAmountInput := Amount(0);
        message := Some(WithdrawRequested);
    }
  }
}
