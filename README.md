# MyEscrowFrontEnd — a verified model of its logic

MyEscrowFrontEnd is a demo escrow web app. A buyer and a seller agree on an escrow,
split it into milestones, and release or reject each milestone as the work arrives.
Its wallet takes top-ups and withdrawals. This project models, in Dafny, the parts of
the front end that hold logic rather than markup:

- **The home page state** (`home_page.dfy`, class `HomePage.Home`). It holds the escrow
  list, the open escrow, the milestone draft builder, the agreement step, the wallet and
  the status message. Each handler is a method whose contract states its guards, its
  messages and the new state. The handlers are create/next, add/edit/remove milestone,
  agreement submit, escrow approve/reject, the gated milestone decision, and wallet
  top-up/withdraw.
  - The page invariant `PageInvariant` says:
    - escrow ids are unique;
    - an escrow is Released only when it has milestones and all of them are released;
    - the open escrow is in the list.
  - Most handlers keep it unconditionally. Three keep it under a stated condition:
    - `ViewTransaction` needs the escrow it opens to be in the list;
    - `ExecuteDecision` needs an approval, or a rejection that the decision gate let through;
    - `HandleAgreementSubmit` needs the new escrow's id to be fresh.
  - The converse rule is proved per operation in `Escrow`, not as part of the invariant. It says
    that an escrow whose milestones are all released is Released.
- **The escrow rules as pure functions** (`escrow.dfy`, module `Escrow`). This covers:
  - the milestone decision, with its aggregate status and context rules and its timeline entry;
  - the three-step decision gate;
  - escrow approval and rejection;
  - the id-targeted list update;
  - the draft total and the total-must-match gate;
  - the escrow built on agreement submit;
  - the wallet balance.
- **Signup form validation** (`signup_page.dfy`): the five password-strength checks
  and the guard chain in front of `signup`.
- **URL and header resolution** (`server_proxy.dfy`, `api_client.dfy`): `resolveTarget`
  of the server proxy, and the mock switch, bearer token and URL selection of `apiFetch`.
- **The mock auth routes** (`login_route.dfy`, `signup_route.dfy`): the decisions of
  `POST /api/auth/login` and `POST /api/auth/signup` when mocks are on.
- **Two UI state machines**:
  - the toast queue with its timer map (`toasts.dfy`);
  - the single-slot confirm dialog that stands in front of a milestone approval (`confirm_dialog.dfy`).
- **Shared helpers**:
  - `Text`: JavaScript `trim`, ASCII `toLowerCase`, UTF-16 length and `String(n)`;
  - `Seqs`: `find` and `filter`;
  - `Wrappers`: `Option` and `??`.

Modelling conventions:

- Money is an integer number of cents. The one-cent tolerance of the milestone total
  check (`> 0.01` dollars) becomes `> 1` cent.
- A form field's `Number(text)` is a `Parsed` value, either `NaN` or an amount. Empty
  text is `Amount(0)`, and `!Number(text)` is `Falsy`.
- Every awaited backend call is an input `Reply`: `Ok(response)` or `Failed(error)`.
  `Failed(None)` stands for a thrown value that is not an `Error`, for which the page
  shows its fallback text.
- Timestamps and random ids are parameters of the handlers.
- React state updaters run at once, in order. `transactionsRef.current` is the current
  `transactions`.
- `Home.CommitNewEscrow` models lines 680-681 of `src/app/page.tsx` as written. The page
  sets "Escrow drafted. …" and then calls `navigate`, which clears the message.
  So the model ends with no message.

## Model

| member | source | states |
|---|---|---|
| Seqs.FindFirst | src/app/page.tsx:718 | `find` stops at the first element satisfying the predicate; none is found exactly when no element satisfies it |
| Seqs.Filter | src/app/page.tsx:575 | `filter` keeps exactly the satisfying elements, never grows the list |
| Seqs.FilterAppend | src/components/ToastProvider.tsx:44 | filtering a concatenation is the concatenation of the filtered parts (order kept) |
| Seqs.FilterKeepsAll | src/components/ToastProvider.tsx:44 | a filter every element passes returns the list unchanged |
| Seqs.FilterDropsAll | src/app/page.tsx:569 | a filter no element passes returns the empty list |
| Text.TrimStart | src/app/api/auth/login/route.ts:24 | the result is a suffix, everything dropped is white space, and it does not start with white space |
| Text.TrimEnd | src/app/api/auth/login/route.ts:24 | the result is a prefix, everything dropped is white space, and it does not end with white space |
| Text.Trim | src/app/api/auth/login/route.ts:24 | reference definition of `String.prototype.trim`: `trimEnd` after `trimStart`; its properties are `TrimShape`, `TrimKeepsUnspaced`, `TrimIdempotent` and `BlankIffAllSpace` |
| Text.TrimShape | src/app/api/auth/login/route.ts:24 | `trim` never lengthens and leaves no white space at either end |
| Text.TrimKeepsUnspaced | src/app/api/auth/login/route.ts:24 | a string without white space at its ends is its own trim |
| Text.TrimIdempotent | src/app/api/auth/login/route.ts:24 | trimming twice equals trimming once |
| Text.BlankIffAllSpace | src/app/page.tsx:767 | `s.trim().length === 0` exactly when every character of `s` is white space |
| Text.ToLower | src/app/api/auth/login/route.ts:24 | lower-casing keeps the length and maps each character through the ASCII lower-case map |
| Text.ToLowerIdempotent | src/app/api/auth/login/route.ts:24 | lower-casing twice equals lower-casing once |
| Text.LowerOfTrimmedIsTrimmed | src/app/api/auth/signup/route.ts:29 | a trimmed and lower-cased string has nothing left for another trim |
| Text.Utf16Length | src/app/signup/page.tsx:20 | `length` counts UTF-16 units: between one and two per character |
| Text.DecimalValue | src/app/page.tsx:696 | reference definition: the number a run of decimal digits spells, used to state what `String(n)` prints |
| Text.NatToDecimal | src/app/page.tsx:696 | `String(n)` is a non-empty run of digits without a leading zero, and those digits spell `n` (`DecimalValue`) |
| Text.IntToDecimal | src/app/page.tsx:696 | `String(i)` starts with '-' exactly for negative numbers, and the digits spell the magnitude of `i` |
| Text.IntToDecimalInjective | src/app/page.tsx:696 | different escrow ids print differently, so "Escrow N approved." names exactly one escrow |
| SignupPage.StrongIffAllFive | src/app/signup/page.tsx:17-27 | a password is strong iff it has 12+ UTF-16 units, an upper-case letter, a lower-case letter, a digit and a character outside [A-Za-z0-9] |
| SignupPage.PasswordChecks | src/app/signup/page.tsx:17-26 | reference definition: the five captioned checks in the order the form lists them; characterised by `StrongIffAllFive` |
| SignupPage.IsPasswordStrong | src/app/signup/page.tsx:27 | reference definition: every check holds; characterised by `StrongIffAllFive` |
| SignupPage.HandleSubmit | src/app/signup/page.tsx:35-56 | the empty-field error iff a field is empty; the strength error iff all are filled and the password is weak; the mismatch error iff filled, strong and unconfirmed; `signup` is called iff all three guards pass, with name, email and password only |
| SignupPage.SubmittedPasswordIsConfirmedAndLong | src/app/signup/page.tsx:42-56 | whatever reaches `signup` has a confirmed password of at least 12 UTF-16 units |
| ServerProxy.StripTrailingSlash | src/lib/serverProxy.ts:16 | exactly one trailing "/" is removed when present, nothing otherwise |
| ServerProxy.EnsureLeadingSlash | src/lib/serverProxy.ts:17 | the result starts with "/"; "/" is prepended iff the path lacked it |
| ServerProxy.ResolveTarget | src/lib/serverProxy.ts:12-19 | no target iff the base URL is unset or empty; otherwise trimmed base followed by the slash-led path; `TargetShape` is its partner |
| ServerProxy.TargetShape | src/lib/serverProxy.ts:16-18 | the target starts with the trimmed base, has "/" right after it and ends with the path |
| ServerProxy.TrailingSlashOnBaseIsIgnored | src/lib/serverProxy.ts:16 | a base with or without its trailing "/" gives the same target |
| ServerProxy.LeadingSlashOnPathIsIgnored | src/lib/serverProxy.ts:17 | a path with or without its leading "/" gives the same target |
| ApiClient.MocksEnabled | src/lib/apiClient.ts:1 | mocks are on iff the flag is not exactly "false"; an absent flag counts as on |
| ApiClient.IsAbsoluteUrl | src/lib/apiClient.ts:24 | reference definition of `/^https?:\/\//i`: the lower-cased input starts with "http://" or "https://"; used by `FetchUrl` |
| ApiClient.ShouldUseMocks | src/lib/apiClient.ts:25-27 | reference definition: an `/api/` route, mocks enabled and NODE_ENV not "test"; used by `FetchUrl` |
| ApiClient.SelectToken | src/lib/apiClient.ts:10 | the runtime token wins whenever it is not null, else the environment token; `Client.SetClientAuthToken` is its partner |
| ApiClient.ApplyAuthHeaders | src/lib/apiClient.ts:9-20 | without a truthy token the init is returned unchanged; with one the headers gain `Authorization: Bearer <token>` and the other fields are kept; `Client.ApiFetch` is its partner |
| ApiClient.FetchUrl | src/lib/apiClient.ts:22-36 | the input is used as is without a base URL, for an absolute URL or a mocked `/api/` route; otherwise it is joined to the base exactly as the server proxy resolves it |
| ApiClient.JoinedUrlKeepsBase | src/lib/apiClient.ts:34-36 | a joined URL always starts with the base less its trailing "/" |
| ApiClient.Client.constructor | src/lib/apiClient.ts:1-3 | the runtime token starts as null |
| ApiClient.Client.SetClientAuthToken | src/lib/apiClient.ts:5-7 | replaces the runtime token, null included, and so the token requests will carry |
| ApiClient.Client.ApiFetch | src/lib/apiClient.ts:22-37 | `fetch` gets the selected URL, and the init carries the bearer header exactly when a truthy token is selected |
| LoginRoute.Post | src/app/api/auth/login/route.ts:13-33 | 400 iff email or password is missing/empty; the session for the demo user iff the trimmed lower-cased email is scott@example.com and the password is exactly "Escrow123!"; every other reply is the one 401 |
| LoginRoute.NormalizeEmail | src/app/api/auth/login/route.ts:24 | reference definition: trim, then lower-case; `CaseAndSpaceVariantsLogIn` and `ReturnedEmailIsNormalized` are stated with it |
| LoginRoute.CaseAndSpaceVariantsLogIn | src/app/api/auth/login/route.ts:24-25 | " Scott@Example.COM\n" with the right password logs in |
| LoginRoute.TrimsToInner | src/app/api/auth/login/route.ts:24 | trimming " Scott@Example.COM\n" leaves "Scott@Example.COM" |
| LoginRoute.LowersToDefault | src/app/api/auth/login/route.ts:24-25 | lower-casing "Scott@Example.COM" gives the demo address |
| LoginRoute.PasswordIsCaseSensitive | src/app/api/auth/login/route.ts:26-28 | a case variant of the password is refused with 401 |
| LoginRoute.WrongEmailAndWrongPasswordLookAlike | src/app/api/auth/login/route.ts:26-28 | a wrong address and a wrong password get the same reply |
| SignupRoute.Post | src/app/api/auth/signup/route.ts:12-33 | 400 iff a raw field is missing/empty; otherwise "mock-token", the fresh id, the trimmed name and the trimmed lower-cased email |
| SignupRoute.BlankNameIsAccepted | src/app/api/auth/signup/route.ts:21-28 | a white-space-only name passes validation and comes back empty |
| SignupRoute.ReturnedEmailIsNormalized | src/app/api/auth/signup/route.ts:29 | the returned email is a fixed point of the login route's normalisation |
| Toasts.WithoutToast | src/components/ToastProvider.tsx:44 | after the filter no toast has the id and all other ids remain |
| Toasts.DismissUndoesPush | src/components/ToastProvider.tsx:43-55 | dismissing a just-pushed toast with a new id restores the queue |
| Toasts.DismissKeepsOrder | src/components/ToastProvider.tsx:44 | dismissal keeps the other toasts in their order |
| Toasts.ToastProvider.constructor | src/components/ToastProvider.tsx:32-33 | empty queue, empty timer map, timers in step |
| Toasts.ToastProvider.PushToast | src/components/ToastProvider.tsx:52-60 | appends exactly one entry with the given title, variant and body, records its timer, keeps queue and timers in step |
| Toasts.ToastProvider.DismissToast | src/components/ToastProvider.tsx:43-50 | drops the toasts with the id, cancels and forgets its timer if any, changes nothing for an unknown id, keeps queue and timers in step |
| Toasts.ToastProvider.Unmount | src/components/ToastProvider.tsx:35-41 | cancels every pending timer and empties the map |
| ConfirmDialog.ConfirmDialogProvider.constructor | src/components/ConfirmDialogProvider.tsx:26 | the slot starts empty |
| ConfirmDialog.ConfirmDialogProvider.Confirm | src/components/ConfirmDialogProvider.tsx:28-30 | stores the options, replacing any pending dialog |
| ConfirmDialog.ConfirmDialogProvider.CloseDialog | src/components/ConfirmDialogProvider.tsx:32-34 | empties the slot; nothing is invoked |
| ConfirmDialog.ConfirmDialogProvider.HandleConfirm | src/components/ConfirmDialogProvider.tsx:36-41 | hands back the pending action exactly once (nothing when none is pending) and empties the slot |
| Escrow.DecideMilestone | src/app/page.tsx:740-752 | approve: released, `releasedAt` stamped, `rejectedAt` cleared; reject: rejected, `rejectedAt` stamped, `releasedAt` kept; id, title, amount and description kept |
| Escrow.DecideAll | src/app/page.tsx:735-753 | reference definition of the milestone map: the decision applied to every milestone with the id, the rest kept; characterised per index by `ApplyDecision` |
| Escrow.AllReleased | src/app/page.tsx:754 | the `allReleased` test of the decision: the milestone list is non-empty and every milestone in it is released |
| Escrow.AnyRejected | src/app/page.tsx:755 | the `anyRejected` test of the decision: some milestone in the list is rejected |
| Escrow.DecisionEntry | src/app/page.tsx:770-778 | the timeline entry a decision adds: "Milestone approved" with the title "released to the seller", or "Milestone rejected" with the title "sent back for revision", stamped with the decision time |
| Escrow.DecisionMapper | src/app/page.tsx:732-786 | the mapper `executeDecision` hands to `updateTransaction`: each escrow goes to its `ApplyDecision` image, whose contract says what changes |
| Escrow.TargetTitle | src/app/page.tsx:734-739 | the title of the last milestone with the id (each match overwrites `targetTitle`), or "" when none has it |
| Escrow.ApplyDecision | src/app/page.tsx:731-788 | only milestones with the id change, length and order kept; Released iff all (non-empty) milestones are released, else the status is kept; context chosen first-match: all paid, attention, active on approve, else unchanged; no other field changes |
| Escrow.DecisionTimeline | src/app/page.tsx:766-780 | exactly one entry naming the target milestone is prepended iff its title is not blank; otherwise the timeline is unchanged |
| Escrow.DecisionOnUnknownMilestoneKeepsTimeline | src/app/page.tsx:734-780 | a decision on an id no milestone has keeps milestones and timeline |
| Escrow.DecisionKeepsReleasedMeansPaid | src/app/page.tsx:754-760 | an approval, or any decision on an escrow not yet Released, keeps "Released only when all milestones are released" |
| Escrow.ReleasedMeansPaid | src/app/page.tsx:754-760 | reference definition of the escrow invariant: a Released escrow has milestones and all are released |
| Escrow.PaidMeansReleased | src/app/page.tsx:754-760 | reference definition of the converse: an escrow whose (non-empty) milestones are all released is Released |
| Escrow.DecisionMakesPaidReleased | src/app/page.tsx:754-760 | after an approval, or any decision on an escrow that is not Released, the escrow is Released exactly when all its milestones are released |
| Escrow.FinalApprovalReleasesEscrow | src/app/page.tsx:754-760 | approving the last unreleased milestone releases the escrow with context "All milestones paid" |
| Escrow.RejectionNeedsAttention | src/app/page.tsx:754-762 | rejecting a milestone of an Active escrow keeps it Active and sets "Milestone requires attention" |
| Escrow.RejectAfterApproveKeepsBothStamps | src/app/page.tsx:740-752 | a rejection after an approval leaves both `releasedAt` and `rejectedAt` set |
| Escrow.FindTransaction | src/app/page.tsx:718 | the position of the first escrow with the id, none iff no escrow has it |
| Escrow.DecisionGate | src/app/page.tsx:718-730 | "Transaction not found." iff no escrow has the id |
| Escrow.GateJudgesFirstMatch | src/app/page.tsx:718-730 | on the first escrow with the id: the counterparty check comes before the Active check, and only an approved Active escrow passes |
| Escrow.ApprovalOpensDecisions | src/app/page.tsx:687-730 | after escrow approval the decision gate lets milestone decisions through, whatever the previous status |
| Escrow.RejectionClosesDecisions | src/app/page.tsx:702-730 | after escrow rejection the gate blocks decisions with the counterparty message |
| Escrow.ApproveEscrow | src/app/page.tsx:690-695 | reference definition of the approval mapper: Active, "Milestones active", counterparty approved, other fields kept; see `ApprovalOpensDecisions` |
| Escrow.RejectEscrow | src/app/page.tsx:705-710 | reference definition of the rejection mapper: Pending, "Rejected - waiting on changes", not approved, other fields kept; see `RejectionClosesDecisions` |
| Escrow.VerdictOnPendingKeepsPaidMeansReleased | src/app/page.tsx:687-715 | approving or rejecting a Pending escrow keeps both directions of the Released rule |
| Escrow.VerdictOnReleasedBreaksPaidMeansReleased | src/app/page.tsx:687-715 | approving or rejecting a Released, fully paid escrow breaks the converse rule, since the handlers do not check the status |
| Escrow.MapMatching | src/app/page.tsx:510-518 | reference definition of `prev.map(...)` in `updateTransaction`: the mapper applied to each escrow with the id; see `MapMatchingUnique` and `MapMatchingMissing` |
| Escrow.LastMapped | src/app/page.tsx:509-518 | `updatedTx` is null iff no escrow has the id, else the image of an escrow with the id |
| Escrow.MapMatchingUnique | src/app/page.tsx:508-526 | with unique ids, the update replaces exactly the escrow with the id and reports its image |
| Escrow.MapMatchingMissing | src/app/page.tsx:508-526 | an update for an unknown id changes nothing and reports nothing |
| Escrow.TotalAppend | src/app/page.tsx:421-424 | the total of a concatenation is the sum of the totals |
| Escrow.MilestoneTotal | src/app/page.tsx:421-424 | reference definition of the running total, a left fold of the amounts; see `TotalAppend`, `RemovalLowersTotal` and `PromotionKeepsTotal` |
| Escrow.RemovalLowersTotal | src/app/page.tsx:569-575 | removing the drafts with an id lowers the total by exactly their amounts |
| Escrow.DraftsWithUniqueId | src/app/page.tsx:558-569 | with an id only one draft has, filtering by it yields that draft alone |
| Escrow.EditThenReAddKeepsTotal | src/app/page.tsx:537-572 | editing a draft and adding it back unchanged keeps the total |
| Escrow.TotalMismatch | src/app/page.tsx:585-586 | reference definition of the total-check guard: drafts exist, the amount is truthy and off by more than one cent; see `AddingTheShortfallClosesTheGap` |
| Escrow.AddingTheShortfallClosesTheGap | src/app/page.tsx:584-589 | adding a draft for exactly the missing amount clears the total mismatch |
| Escrow.SingleMatchingMilestoneAdvances | src/app/page.tsx:584-589 | one $650 draft under a $650 escrow passes the total check |
| Escrow.ToTxMilestones | src/app/page.tsx:648-654 | one pending milestone per draft, in order, with the draft's id, title and amount |
| Escrow.PromotionKeepsTotal | src/app/page.tsx:648-654 | promotion keeps the milestone total |
| Escrow.NewTransaction | src/app/page.tsx:607-664 | the new escrow is Pending and not counterparty-approved; the creator is buyer or seller according to the role; the drafts become pending milestones in order; the timeline has two entries, "Created" then "Awaiting approval" |
| Escrow.EscrowTitle | src/app/page.tsx:607 | `responseTitle`: the trimmed form title, or when it is blank "<category> escrow", or "New escrow" without a category |
| Escrow.BuyerOf | src/app/page.tsx:609-612 | `buyerInfo`: the signed-in user when creating as buyer, otherwise the counterparty's name and email, defaulting to "Buyer" and "buyer@example.com" |
| Escrow.SellerOf | src/app/page.tsx:613-616 | `sellerInfo`: the signed-in user when creating as seller, otherwise the counterparty's name and email, defaulting to "Seller" and "seller@example.com" |
| Escrow.CreateRequest | src/app/page.tsx:622-628 | the payload of the create mutation: `EscrowTitle`, the counterparty name or "Counterparty", the amount, the category, and the trimmed description or none when it is blank |
| Escrow.ErrorMessage | src/app/page.tsx:683 | `error instanceof Error ? error.message : fallback`: the thrown error's message when it has one, otherwise the fallback; the same rule at lines 698, 713, 822 and 843 |
| Escrow.NewEscrowKeepsDraftTotal | src/app/page.tsx:584-654 | when the drafts passed the total check, the new escrow's milestones add up to its amount within one cent |
| Escrow.NewEscrowStatusMatchesMilestones | src/app/page.tsx:635-654 | a new escrow is not Released and its milestones are not all released, so both directions of the Released rule hold for it |
| Escrow.NewEscrowAwaitsCounterparty | src/app/page.tsx:630-665 | a new escrow at the head of the list blocks milestone decisions until the counterparty approves |
| Escrow.BalanceAfter | src/app/page.tsx:817-838 | the server-reported balance when given, else the balance plus (top-up) or minus (withdraw) the amount; `TopupThenWithdrawRestores` is its partner |
| Escrow.InvalidWalletAmount | src/app/page.tsx:810-813 | reference definition of the guard `!amount` or `amount <= 0`: NaN, zero and negative amounts are refused; used by both wallet handlers |
| Escrow.TopupThenWithdrawRestores | src/app/page.tsx:809-845 | a top-up then a withdrawal of the same amount, neither reporting a balance, restores the balance |
| HomePage.InitialSelection | src/app/page.tsx:314-319 | on the escrow screen with a non-zero id, the first escrow with that id is opened exactly when one exists; nothing is opened otherwise |
| HomePage.SelectedAfter | src/app/page.tsx:519-524 | the `setSelectedTransaction` updater of `updateTransaction`: an open escrow with the id becomes the update's result, or its own image under the mapper when the list held none; any other selection is kept |
| HomePage.ApprovalDialog | src/app/page.tsx:798-803 | the confirm options put up before a milestone approval: title "Approve milestone?", the cannot-be-undone body, the "Approve milestone" label and the pending approval as the action |
| HomePage.UpdateKeepsInvariant | src/app/page.tsx:508-526 | an update whose mapper keeps the id and the Released rule keeps the page invariant, the open escrow included |
| HomePage.PrependKeepsInvariant | src/app/page.tsx:665 | a non-Released escrow with a fresh id at the head keeps the invariant |
| HomePage.DecisionKeepsInvariant | src/app/page.tsx:717-788 | an approval always, and a rejection the gate let through, keeps the invariant |
| HomePage.ProceedFindsEscrow | src/app/page.tsx:718-730 | a gate that passes has found the escrow, so the update reports one |
| HomePage.Home.constructor | src/app/page.tsx:310-340 | first render: seed escrows and history, empty draft and inputs, $300 balance, the default profile, the escrow from the address if any |
| HomePage.Home.Navigate | src/app/page.tsx:452-462 | shows the screen, clears the message, closes the open escrow unless the target is the escrow screen |
| HomePage.Home.ViewTransaction | src/app/page.tsx:464-469 | opens the escrow on the escrow screen and clears the message |
| HomePage.Home.UpdateTransaction | src/app/page.tsx:508-526 | the list becomes the id-targeted map; the result is the last image or null; the open escrow with the id is refreshed |
| HomePage.Home.HandleCreateNext | src/app/page.tsx:528-535 | blocked with its message iff counterparty name, email or a non-zero amount is missing; otherwise on to the milestone screen |
| HomePage.Home.HandleAddMilestone | src/app/page.tsx:537-556 | an empty title or a 0/NaN amount is refused with no change (negative amounts pass); otherwise exactly one draft is appended under the editing id or a fresh one, the total grows by its amount, inputs and editing id are cleared |
| HomePage.Home.HandleEditMilestone | src/app/page.tsx:558-572 | the drafts with the id leave the list (total lowered by their amounts); the first is loaded into the inputs and marked as edited |
| HomePage.Home.HandleRemoveMilestone | src/app/page.tsx:574-582 | the drafts with the id leave the list; an edit of that id is abandoned; other inputs kept |
| HomePage.Home.ResetSignaturePad | src/app/page.tsx:478-481 | clears the signature and bumps the pad version |
| HomePage.Home.HandleMilestonesNext | src/app/page.tsx:584-595 | blocked with the warning iff drafts exist, an amount is set and the total is off by more than a cent; otherwise the agreement screen opens with terms unaccepted and the pad cleared |
| HomePage.Home.CommitNewEscrow | src/app/page.tsx:665-681 | the new escrow is prepended, draft and form reset, dashboard shown, message cleared by the navigation; a fresh non-Released escrow keeps the invariant |
| HomePage.Home.HandleAgreementSubmit | src/app/page.tsx:597-685 | refused unless terms accepted and signature captured, then unless the amount is non-zero; a failed request only sets the error message; success prepends the new Pending escrow and resets the draft |
| HomePage.Home.HandleApprove | src/app/page.tsx:687-700 | on success the escrow with the id becomes Active, counterparty-approved, "Milestones active", whatever its status, and an open escrow with the id is replaced by its image; on failure only the message changes |
| HomePage.Home.HandleReject | src/app/page.tsx:702-715 | on success the escrow with the id goes back to Pending, not approved, "Rejected - waiting on changes", and an open escrow with the id is replaced by its image; on failure only the message changes |
| HomePage.Home.ExecuteDecision | src/app/page.tsx:731-796 | applies the decision to the escrow with the id and sets the decision's message only when an escrow was updated; keeps the invariant |
| HomePage.Home.ProceedWithDecision | src/app/page.tsx:797-806 | an approval only opens the confirm dialog; a rejection is applied at once to the list and the open escrow, with its message |
| HomePage.Home.HandleMilestoneDecision | src/app/page.tsx:717-807 | not found, not counterparty-approved and not Active block in that order with their messages and change nothing; past the gate, approve waits for the dialog and reject executes immediately on the list and the open escrow |
| HomePage.Home.ConfirmPendingApproval | src/app/page.tsx:789-806 | confirming runs the pending approval once on the list and the open escrow, sets the approval message when an escrow was updated, and empties the dialog; with nothing pending nothing changes |
| HomePage.Home.RecordWalletHistory | src/app/page.tsx:471-476 | exactly one entry is prepended to the history |
| HomePage.Home.HandleWalletTopup | src/app/page.tsx:809-824 | an amount that is NaN, zero or negative, or a failed call, leaves balance and history unchanged; success sets the reported or increased balance and prepends one deposit |
| HomePage.Home.HandleWalletWithdraw | src/app/page.tsx:826-845 | an invalid amount, an amount above the balance, or a failed call leaves balance and history unchanged; success sets the reported or decreased balance and prepends one withdrawal |

## Left out

- Rendering is not modelled: the JSX, the `render*` functions, modals, the notifications panel and the signature pad canvas. `signatureCaptured` and `agreementAccepted` are plain fields.
- Browser history is not modelled. This covers the `pushState` URLs written by `navigate` and `viewTransaction`, and the `popstate` listener.
- The auth redirect effects are not modelled, and neither is the signup page's call to `signup` or its toast (the model stops at the request it would send).
- Seed data is not modelled. The `initialTransactions` and `initialWalletHistory` constants are parameters of `HomePage.Home.constructor`.
- `Number()` parsing is not modelled. A form value is already `NaN` or an amount in cents, and amounts are integers of cents instead of IEEE doubles.
- The date and currency formatting helpers are not modelled.
- Text.ToLower: lower-cases ASCII letters only; other scripts' case mappings are left out. The login comparison is against an ASCII address, so its outcome does not depend on them. The signup route also returns `email.trim().toLowerCase()` (src/app/api/auth/signup/route.ts:29); there a non-ASCII capital is returned unchanged by the model, where the source lower-cases it ("É@x.com" gives "é@x.com" in the source and "É@x.com" here).
- `randomId()`, `Math.random()` and `new Date().toISOString()` become parameters. The model does not know that random ids differ.
- HomePage.Home.HandleAgreementSubmit: keeps the page invariant only when the new escrow's id is not already in the list. The page draws `Math.floor(10000 + Math.random() * 90000)` when the backend returns no id, and nothing stops a collision; `fallbackId` stands for that draw and is required to lie in 10000..99999.
- The network is not modelled: `fetch`, the React Query mutations and `proxyApiRequest`. Each backend call is an input `Reply`, and `ApiFetch` returns the URL and init it would hand to `fetch`.
- Asynchrony is not modelled. The model does not capture:
  - handlers interleaving across an `await`;
  - React batching;
  - the one-render lag of `transactionsRef`;
  - stale closures such as `walletBalance + amount` read after an `await`.
  Each handler runs to completion on the current state.
- Toast timing is not modelled. A timer firing is a call of `Toasts.ToastProvider.DismissToast`, and the 5000 ms delay is left out. Timer handles are positive integers chosen by the caller.
- The confirm dialog's `onConfirm` closure is not modelled as a closure. It is the value `HomePage.PendingApproval`, which `HomePage.Home.ConfirmPendingApproval` runs through `ExecuteDecision`.
- In `ExecuteDecision` the decision's timestamp is one value shared by every mapped escrow. The page calls `new Date()` inside the mapper; with unique ids that mapper runs once.
- The mock-disabled branches of the auth routes are not modelled, since they forward to the proxy.
- Escrow.PaidMeansReleased: the converse of the Released rule is not part of `HomePage.PageInvariant`. `HandleApprove` and `HandleReject` do not check the escrow's status, so approving or rejecting a Released, fully paid escrow breaks it (`VerdictOnReleasedBreaksPaidMeansReleased`). The page offers those buttons only on Pending escrows (src/app/page.tsx:1057), and that is where `VerdictOnPendingKeepsPaidMeansReleased` proves the converse is kept. The rendering code that applies that restriction is not part of this model.
