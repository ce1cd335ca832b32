# A model of the exchange back end

The repository is a small custodial exchange: an indexer follows a chain and credits
deposits, an off-chain ledger keeps an available and a frozen balance per user and
token, users pay merchants inside the ledger, withdraws are reviewed, claimed by
competing workers, broadcast and settled, and several retry queues and a block lock
hang off the same database. This project models the parts where these components
share state, and proves what every run of them keeps.

How it is built:

- A database transaction is one atomic step on the tables. Its pure form is a function
  from tables to `Result<tables, error>` (`Ledger`, `Notices`, `Deposits`, `Chain`,
  `Withdraws`, `Payments`, `Exchange`). The loops and in-place updates of the source are
  methods of the class `ExchangeStore.Store`, each proved equal to the pure form,
  including that an error leaves the tables as they were.
- `Runs` lets any number of broadcast workers, the indexer, payers, approvers and
  settlement callbacks, caught between their read and their transaction, interleave
  between transactions. Theorems there are about every run; `FreezeAccounting` follows the
  frozen money through a run, `DepositHistory` relates the end of a run to everything that
  happened on the way, `SyncEffect` gives the exact effect of one block, and
  `Announcements` says which deposits and payments are announced.
- The transaction table is `TxTracker` (statements and store), `TrackerPass` (a tracker
  pass statement by statement), `TxRuns` (senders, reconcilers and the tracker between any
  two of their statements), `SettledNonce` and `Untracked` (when a nonce is settled, when a
  transaction is sent without a row).
- `Nonces`, `WebhookOutbox` and `CacheLock` are separate protocols with their own runs,
  and classes for the objects that the source mutates.
- `EthText` with `Notation`, `Grammar` and `Powers`, and `Calldata`, are the text and byte round trips.
- Wei amounts are `nat`: balances and amounts are stored as decimal text that
  `parseWei` only accepts when not negative, and `Decimal` proves that nothing is lost.
- The node, clocks, the sender and configuration are parameters of the steps.

What the code does differently from what it means:

- The query behind every ledger guard fixes `ref_type = 'deposit'`
  (internal/exchange/store.go:139), also where it guards withdraws. The reference type
  is therefore a parameter `guard`. Under either, frozen money is what open withdraws hold
  plus what calls leaked minus what late settlements took (`FreezeAccounting.RunExcess`).
  With the type that is meant nothing ever leaks. With the query as written, and without
  harmful late settlements, frozen equals open at the end of a run if and only if the run
  contained no repeated creation that the balance still covered, no failed broadcast and no
  failed transaction of a broadcasting withdraw (`FreezeAccounting.LiteralRunFrozenIsOpenIff`);
  `Witnesses.RepeatedRequestLeaks` is a concrete failing run.
- A settlement callback reads its request before its transaction, and an API refresh runs
  beside the tracker, so a failure and a confirmation can cross. With the guard that is
  meant, frozen equals open at the end of a run if and only if no late settlement paid out
  a failed request or released a confirmed one while the account had the money frozen
  (`FreezeAccounting.MeantRunFrozenIsOpenIff`, `Runs.HarmfulIff`). An outcome is overwritten
  by a late settlement and by nothing else (`Runs.OutcomeFinalUnlessLate`).
  `Witnesses.CrossedCallbacksTakeAnothersFunds` is a run in which this takes the money of
  another request, which then cannot be settled.
- All merchants bound to a payer share one outbox key per deposit, and payments share the
  same unique key with keys chosen by their callers. At the end of a run every merchant
  bound to the owner of a deposit is notified if and only if nobody is bound, or no two
  different merchants are bound and no payment was made under the deposit's key before its
  block was synced (`Announcements.DepositAnnouncedIff`); a payment
  is announced if and only if its key is not that of a deposit announced before
  (`Announcements.PaymentAnnouncedIff`). Both failures have a concrete run.
- A transaction reaches the node without a row of its own if and only if another row took
  its idempotency key between its own lookup and its insert, or it was submitted raw under
  the key of an unsent row, and was sent after that (`Untracked.UntrackedIff`). The row that
  was hit keeps the stranger's signed bytes and rebroadcasts those.
- Tracker passes overlap: an API refresh runs beside the polling loop, which itself reads a
  batch of rows before tracking them. A statement leaves a final status if and only if it
  writes something else over one (`TxRuns.StepLeavesFinalIff`); as long as no two passes
  under way are about one sender and nonce this never happens and every final status is
  announced once (`TxRuns.ApartNeverCollides`, `TxRuns.RunKeepsCore`).
  `SettledNonce.OverlapAnnouncesTwice` is a run in which a transaction goes from dropped to
  confirmed with a notice for each.
- A confirmation leaves no sibling pending if and only if none that was not pending when
  the siblings were listed has been marked sent since (`SettledNonce.NonceSettledIff`): the
  listing, the replacements and the confirmation are separate statements.
- Requeueing an outbox row that a live worker still holds puts two workers on it once it is
  claimed again, and no other requeue does (`WebhookOutbox.SecondOwnerIff`); the late worker
  can then take the row out of done (`WebhookOutbox.DoneLeftIff`).
- A block lock is handed out again while held if and only if somebody tries after its
  lifetime is used up, or after any run that had held the height has released it: a release
  deletes the entry whoever owns it by then (`CacheLock.SecondHolderIff`).
- A deposit that was orphaned and captured again is marked credited but not paid again
  (`DepositHistory.NetEffectTellsHistory`, `Witnesses.RecapturedDepositUnpaid`). A
  native deposit is keyed with log index 0 and so shares its key with a token deposit from
  log 0 of the same transaction; the second of them is never paid
  (`SyncEffect.TransferPaidIff`, `Witnesses.SecondTransferOfKeyUnpaid`).
- A signed contract creation that carries transfer calldata makes the reader of signed
  transactions dereference nil (`Calldata.ReadCases`, `Calldata.CreationCrashes`).

## Model

| member | source | states |
|---|---|---|
| `Decimal.ParseUndoesText` | internal/exchange/wei.go:9-25 | storing an amount as text and parsing it back loses nothing |
| `Decimal.ParseWeiIff` | internal/exchange/wei.go:9-18 | a non-empty digit string is its value, also behind a plus sign; behind a minus sign only zero is accepted; nothing else is |
| `Ledger.ApplyMoves` | internal/exchange/ledger.go:104-165 | an operation goes through exactly when neither balance would go negative, and fails for lack of funds otherwise; it moves exactly that account by exactly its deltas, and adds one line to exactly one story |
| `Ledger.ApplyKeepsExplained` | internal/exchange/ledger.go:129-164 | replaying the journal from zero still gives every stored balance, and every line's recorded after-balances equal the replay up to it |
| `Ledger.NoPrefixNegative` | internal/exchange/ledger.go:129-137 | no prefix of an explained journal ever shows a negative balance on any account |
| `Ledger.ApplyKeepsConserved` | internal/exchange/ledger.go:19-102 | per token, what is owed to users stays deposits minus reversals minus payouts, payments aside |
| `Ledger.TransferMoves` | internal/exchange/ledger.go:71-89 | a payment goes through exactly when the payer covers it and moves the amount from payer to merchant only, also when they are the same |
| `Ledger.TransferKeepsSound` | internal/exchange/ledger.go:71-89 | a payment, even to oneself, changes no token's total liabilities and keeps the journal explained |
| `Ledger.HasEntryIffMentioned` | internal/exchange/store.go:135-146 | the existence query answers yes exactly when the line is part of the referenced row's story |
| `Ledger.LiabilitiesWithout` | internal/exchange/store.go:434-448 | the liabilities sum does not depend on the order in which accounts are visited |
| `Notices.OnlyFirstMerchantEnqueued` | internal/webhook/service.go:121-146 | of all merchants bound to a depositor only the first gets an outbox row |
| `Notices.EveryMerchantNotifiedIff` | internal/webhook/service.go:105-147 | for any outbox, a deposit reaches every bound merchant if and only if they all have its notice already, or its key is free and no two different merchants are bound |
| `Notices.DepositKeyInjective` | internal/webhook/service.go:133 | two deposits never share an outbox key |
| `Deposits.CaptureKeepsTold` | internal/exchange/deposit.go:103-158 | a capture always commits, pays exactly when its key is new, never pays a known key again, and touches no other story, no frozen balance and no other deposit |
| `Deposits.CreditedOnce` | internal/exchange/store.go:135-146 | the credit guard finds a credit exactly for the deposits that exist |
| `Deposits.CaptureExactly` | internal/exchange/deposit.go:103-158 | a new key adds one credited row and its amount to its owner alone; a known key moves no money and touches no other row |
| `Deposits.DepositAccounting` | internal/exchange/deposit.go:103-196 | every deposit has one credit, at most one reversal, and a net effect of zero or of its amount accordingly |
| `Deposits.RowsDueIsDue` | internal/exchange/store.go:202-222 | what the orphaned rows owe back does not depend on the order in which the database returns them |
| `Deposits.ReverseAllIff` | internal/exchange/deposit.go:169-191 | the reversal loop succeeds exactly when each account covers its own total, and then takes exactly that total and writes exactly the missing reversals |
| `Deposits.ReorgKeepsTold` | internal/exchange/deposit.go:161-196 | after the loop every orphaned deposit has been credited and reversed with the same owner and amount |
| `Chain.SyncKeepsBounded` | internal/indexer/store.go:136-148 | a sync brings exactly its own height to life, and the checkpoint still bounds every live height and the confirmed height |
| `Chain.SyncExactly` | internal/indexer/store.go:136-148 | the whole view after a sync in terms of head and depth: the block as given, pending ones up to it confirmed if deep, the checkpoint and its confirmed height raised exactly above the old one |
| `Chain.ReorgKeepsBounded` | internal/indexer/store.go:209-225 | a detected reorg kills exactly the heights from its parent on, and its rollback never raises the checkpoint |
| `Chain.ReorgExactly` | internal/indexer/store.go:209-225 | the whole view after a reorg: blocks from the height on orphaned and otherwise the same, the checkpoint at the height and the reported hash, the confirmed height lowered to it only if above, no checkpoint made where there was none |
| `Chain.DetectsIff` | internal/indexer/engine.go:475-489 | a reorg is seen exactly when a living block is stored one below and its hash is not the reported parent |
| `Exchange.SyncKeepsInv` | internal/indexer/engine.go:213-351 | syncing any block in any order commits and keeps all invariants across ledger, deposits, payments, outbox and chain view |
| `Exchange.SyncChain` | internal/indexer/engine.go:283-333 | the chain view a sync transaction commits, for its block, head and depth |
| `Exchange.ReorgCommitsIff` | internal/indexer/engine.go:475-513 | when the parent was replaced, a reorg commits if and only if every account can give back all it owes from that height on; then exactly the blocks and deposits from there on are orphaned, the checkpoint is rolled back to that height, hash and confirmed height, and each account loses exactly what it owed |
| `Exchange.NoReorg` | internal/indexer/engine.go:475-489 | otherwise nothing is touched |
| `Exchange.ReorgOrderIrrelevant` | internal/exchange/store.go:202-222 | two orders of the same rows give the same outcome, balances, deposits and chain view |
| `Exchange.PaymentKeepsInv` | internal/webhook/service.go:159-247 | a payment keeps all invariants and touches no withdraw, and a replay changes nothing |
| `Exchange.WithdrawKeepsInv` | internal/exchange/service.go:48-169 | a withdraw transaction that keeps its own rows in order keeps every other component's invariant |
| `Exchange.CaptureNotifiesIff` | internal/exchange/deposit.go:142-157 | a first capture, also in the middle of a block, notifies every bound merchant if and only if none is bound, or all are the same and no payment carries its key |
| `Exchange.PaymentNoticedIff` | internal/webhook/service.go:197-239 | a payment transaction on such tables announces the payment if and only if its key is not that of an announced deposit |
| `Announcements.OutboxOnlyGrows` | internal/webhook/store.go:124-142 | the outbox of a run extends the outbox of each of its beginnings |
| `Announcements.PaymentAnnouncedIff` | internal/webhook/service.go:159-247 | at the end of any run a payment made on the way has its notice if and only if its key was not that of an announced deposit when it was made |
| `Announcements.DepositAnnouncedIff` | internal/webhook/service.go:105-147 | for every deposit that any sync of any run adds, at the end of the run all merchants bound to its owner are notified if and only if none is bound, or all are the same and no earlier payment carries its key |
| `Announcements.PaymentSilencesDeposit` | internal/webhook/schema.go:43 | a run in which a payment under the next deposit key keeps the only bound merchant from hearing of the deposit |
| `Announcements.DepositSilencesPayment` | internal/webhook/schema.go:43 | a run in which an announced deposit keeps a payment under its key from being announced |
| `Payments.CreateKeepsTold` | internal/webhook/service.go:159-247 | payments keep rows unique per order and per key, matched with their pairs of journal lines and outbox rows, and leave every other story and frozen balance alone |
| `Payments.PaymentAnswer` | internal/webhook/service.go:159-247 | a payment succeeds if and only if the merchant exists, is enabled and has a ledger user, and the order or key is known or the amount parses and is covered; the error of every other case, and the row and notice a new one adds |
| `Payments.PaymentMovesMoney` | internal/webhook/service.go:197-213 | a new payment records the request and moves its amount from payer to the merchant's ledger user and nowhere else |
| `Payments.PaymentNoticedIff` | internal/webhook/store.go:124-142 | a new payment gets its own outbox row if and only if its key is free at the call, which fails exactly under the key of a deposit announced before |
| `Payments.NextKeyTakenIff` | internal/webhook/store.go:124-142 | the key of the next deposit is taken if and only if a payment was made under it |
| `Payments.DepositNoticedIff` | internal/webhook/service.go:105-147 | the first capture of a deposit notifies every bound merchant if and only if none is bound, or all are the same and no payment carries its key |
| `Payments.NoticedAfterDeposit` | internal/webhook/service.go:105-147 | deposit notices do not disturb the match between payments and outbox rows |
| `Withdraws.LiteralGuardIsBlind` | internal/exchange/store.go:135-146 | the guard query as written never finds a withdraw line |
| `Withdraws.MeantGuardSees` | internal/exchange/store.go:135-146 | the meant guard sees exactly what the request's status says happened |
| `Withdraws.CreateIff` | internal/exchange/service.go:48-119 | a request is accepted exactly when well formed and already frozen or covered, with the error of every other case; a first acceptance adds exactly the row asked for and freezes exactly its amount on its own account |
| `Withdraws.ApproveIff` | internal/exchange/service.go:121-133 | an approval hits exactly a request under review, and that one alone becomes approved |
| `Withdraws.ClaimIff` | internal/exchange/service.go:184-191 | a claim hits exactly an approved request, and that one alone becomes broadcasting |
| `Withdraws.RejectIff` | internal/exchange/service.go:135-169 | a rejection commits exactly for a request under review whose amount is frozen; that one alone becomes rejected and its amount goes back to available on its account alone; the error of every other case |
| `Withdraws.FailIff` | internal/exchange/store.go:410-432 | when a failure commits, that it alters that request alone to failed, and that it gives the amount back exactly when the guard finds the freeze and no release |
| `Withdraws.ConfirmIff` | internal/exchange/service.go:290-312 | when a confirmation commits, that it alters that request alone to confirmed, and that it pays out of frozen exactly unless the guard finds a payout |
| `Withdraws.CallbacksIff` | internal/exchange/service.go:275-337 | a callback does nothing without a request of that hash in the right state, and else its transaction |
| `Withdraws.CreateStep` | internal/exchange/service.go:48-119 | a creation keeps every invariant; frozen minus open grows by exactly the double freeze of a blind guard, and by nothing under the meant one |
| `Withdraws.RejectStep` | internal/exchange/service.go:135-169 | a rejection closes the freeze with one release and keeps frozen equal to open |
| `Withdraws.FailStep` | internal/exchange/store.go:410-432 | on a request in any state a failure moves frozen minus open by what it leaves stuck minus what it takes for a request that no longer holds it |
| `Withdraws.ConfirmStep` | internal/exchange/service.go:290-312 | the same for a confirmation; on an open request it pays out exactly what was held, once |
| `Withdraws.StatusStep` | internal/exchange/store.go:357-397 | approval, claim and recording of the hash move no money and never lower the rank |
| `Withdraws.SettlingNeverFails` | internal/exchange/service.go:275-337 | while an account has frozen what its open requests hold, rejecting, failing or confirming one of them cannot run out of funds |
| `Runs.StepKeepsTables` | internal/exchange/service.go:48-337 | every step of every component keeps the table invariants, lowers no rank, changes an outcome only by a late settlement, and moves frozen minus open by its leak and its late withdrawal alone |
| `Runs.OnlyTheOwnerMoves` | internal/exchange/service.go:176-240 | a broadcasting request without a hash can be moved only by the worker that claimed it |
| `Runs.StepKeepsOwned` | internal/exchange/service.go:184-191 | each claimed request has one worker, stays broadcasting and carries no hash until that worker writes |
| `Runs.StepKeepsSentOnce` | internal/exchange/service.go:184-228 | a request handed to the sender is never again held by a worker about to send |
| `Runs.RunKeepsSysInv` | internal/exchange/worker.go:22-44 | in every reachable state of every interleaving all table invariants hold, each claimed request has one worker, and callbacks are about broadcast requests |
| `Runs.HarmfulIff` | internal/exchange/service.go:275-337 | with the journal in order a settlement does harm if and only if the opposite outcome got in since its read and the account has the money frozen |
| `FreezeAccounting.RunExcess` | internal/exchange/service.go:48-337 | in every run, under either guard and for every account, frozen is what open requests hold plus all leaks minus all late withdrawals |
| `FreezeAccounting.HarmFreeIff` | internal/exchange/service.go:275-337 | late settlements have taken nothing if and only if none of them was harmful when it committed |
| `FreezeAccounting.OpenCoveredIff` | internal/exchange/service.go:275-337 | the open requests of an account are covered by its frozen balance if and only if late settlements have taken no more from it than leaks have left |
| `FreezeAccounting.SettlementsCovered` | internal/exchange/service.go:275-337 | then, in any run, no open request of that account fails to settle for lack of frozen funds |
| `FreezeAccounting.MeantRunLeaksNothing` | internal/exchange/store.go:135-146 | with the meant guard nothing leaks in any run, not even after a late settlement did harm |
| `FreezeAccounting.MeantRunFrozenIsOpenIff` | internal/exchange/service.go:48-337 | with the meant guard a run ends with each frozen balance equal to the sum of the open requests if and only if no harmful late settlement committed; then each request has one freeze closed once according to its status |
| `FreezeAccounting.LiteralLeakIff` | internal/exchange/store.go:135-146 | with the query as written a call leaks frozen money if and only if it is one of three recognisable calls |
| `FreezeAccounting.LiteralRunFrozenIsOpenIff` | internal/exchange/store.go:135-146 | with the query as written a run ends with frozen equal to open if and only if leaks and late withdrawals cancel on every account; without harmful late settlements, if and only if it contained no such call |
| `Runs.RunAdvances` | internal/exchange/store.go:357-397 | over any continuation no request is lost, falls back in rank or loses its hash |
| `Runs.OutcomeFinalUnlessLate` | internal/exchange/service.go:275-337 | over any continuation an outcome stays as it is unless a late settlement of that request commits |
| `Runs.StatusChanges` | internal/exchange/service.go:48-337 | in every run each status comes about in one way: approved and rejected by a review of a pending request, broadcasting by a claim of an approved one, confirmed by a confirming callback, failed by its worker or a failing callback, a hash from its worker |
| `Runs.ReadsIff` | internal/exchange/service.go:275-325 | the read of a callback takes up a request exactly when the one with that hash is still broadcasting |
| `Runs.SentAtMostOnce` | internal/exchange/worker.go:22-44 | however workers interleave, no request is handed to the sender twice |
| `Runs.HashedWereSent` | internal/exchange/service.go:214-228 | in every run a request that carries a transaction hash was handed to the sender |
| `Runs.RunConserves` | internal/exchange/store.go:434-448 | in every run and token, available plus frozen over all accounts is deposit credits minus reversals minus payouts |
| `Runs.RunIsExplained` | internal/exchange/ledger.go:104-165 | in every run the journal explains all balances line by line and no prefix is negative |
| `Runs.RunDeposits` | internal/indexer/engine.go:213-351 | in every run each deposit is credited once and reversed at most once afterwards with the same owner and amount, and a credited one sits at a live height below the checkpoint |
| `Runs.RunPayments` | internal/webhook/store.go:266-280 | in every run payments are unique per order and per key, and each has its one debit, one credit and an outbox row under its key |
| `DepositHistory.JournalOnlyGrows` | internal/exchange/ledger.go:157-164 | the journal of a run extends the journal of each of its beginnings |
| `DepositHistory.NetEffectTellsHistory` | internal/exchange/deposit.go:103-196 | at the end of any run a deposit has moved its owner's balance by zero if it was ever orphaned on the way and by its amount if it never was |
| `SyncEffect.CaptureFields` | internal/exchange/deposit.go:51-101 | the filters let through exactly the successful transfers, of watched tokens or native, to an enabled deposit wallet with an owner and of more than zero, under the key, owner, token and amount of their fields |
| `SyncEffect.SyncCreditsAll` | internal/indexer/engine.go:283-321 | after syncing a deep enough block some deposit under the key of every eligible transfer is credited; a shallow one touches no deposit and no balance |
| `SyncEffect.SyncPaysExactly` | internal/indexer/engine.go:283-321 | a deep sync adds to every account exactly the amounts of the eligible transfers to it whose key is stored nowhere and first in the block, exactly these get a new row, and a stored row changes exactly when it was orphaned and its key comes by |
| `SyncEffect.NothingEligible` | internal/exchange/deposit.go:51-101 | a block without an eligible transfer changes no deposit, no balance and no notice |
| `SyncEffect.OneEligible` | internal/exchange/deposit.go:51-158 | one eligible transfer under a new key adds one credited row and exactly its amount to exactly its owner and token |
| `SyncEffect.TransferPaidIff` | internal/exchange/deposit.go:103-158 | handling an eligible transfer pays its owner if and only if its key is in no stored row and in no earlier eligible transfer of the block |
| `Witnesses.RepeatedRequestLeaks` | internal/exchange/service.go:73-89 | a concrete run of the query as written, one deposit and one request sent twice, ends with more frozen than open |
| `Witnesses.SecondTransferOfKeyUnpaid` | internal/exchange/deposit.go:69-72 | a native transfer and the token transfer of log 0 of its transaction both pass the filters, and only the first is paid |
| `Witnesses.RecapturedDepositUnpaid` | internal/exchange/deposit.go:126-140 | a run of sync, reorg and sync that ends with the deposit credited, its net effect zero and its owner without money |
| `Witnesses.CrossedCallbacksTakeAnothersFunds` | internal/exchange/service.go:275-337 | a run in which a confirmation and a failure of one request cross: the failed request is paid out of the money frozen for another, which then cannot be settled |
| `ExchangeStore.Store.ApplyLedger` | internal/exchange/ledger.go:104-165 | the update of one balance row and the journal is the pure operation, and an error changes nothing |
| `ExchangeStore.Store.EnqueueDeposit` | internal/webhook/service.go:121-146 | the loop over bindings is the pure fan-out |
| `ExchangeStore.Store.CaptureAndCredit` | internal/exchange/deposit.go:103-158 | insert or find, reset, guard, credit, mark and enqueue amount to the pure capture |
| `ExchangeStore.Store.SyncBlock` | internal/indexer/engine.go:213-351 | the capture loop with its block and checkpoint writes is the pure sync, and an error restores every table |
| `ExchangeStore.Store.SelectAffected` | internal/exchange/store.go:202-216 | the selection lists each pending or credited deposit from the height on exactly once |
| `ExchangeStore.Store.HandleReorgTx` | internal/exchange/deposit.go:161-196 | orphaning then reversing row by row is the pure reversal |
| `ExchangeStore.Store.DetectAndHandleReorg` | internal/indexer/engine.go:475-513 | detection, orphaning, rollback and reversal commit together as the pure reorg or leave all tables unchanged |
| `ExchangeStore.Store.CreatePayment` | internal/webhook/service.go:159-247 | the payment handler is the pure payment, with every error path and no partial writes |
| `ExchangeStore.Store.CreateWithdraw` | internal/exchange/service.go:48-119 | the creation handler is the pure creation and rolls its row back when the freeze fails |
| `ExchangeStore.Store.UpdateStatusIf` | internal/exchange/store.go:377-397 | the compare-and-set hits exactly when the row has the expected status, and changes that row only |
| `ExchangeStore.Store.ApproveWithdraw` | internal/exchange/service.go:121-133 | approval is the pure compare-and-set or an invalid-state error |
| `ExchangeStore.Store.RejectWithdraw` | internal/exchange/service.go:135-169 | status and release commit together or not at all |
| `ExchangeStore.Store.FailWithdrawAndUnfreeze` | internal/exchange/store.go:410-432 | guarded release and status write commit together or not at all |
| `ExchangeStore.Store.ProcessApprovedWithdraw` | internal/exchange/service.go:176-240 | an undisturbed pass claims, then records the hash or fails the request; a lost claim changes nothing |
| `ExchangeStore.Store.RecordSent` | internal/exchange/service.go:224-227 | the unconditional update writes the hash and the broadcasting status of that row only |
| `ExchangeStore.Store.ReadForConfirmation` | internal/exchange/service.go:275-288 | the read before the transaction yields a request exactly when one carries the hash and is broadcasting or approved |
| `ExchangeStore.Store.SettleConfirmed` | internal/exchange/service.go:290-312 | the transaction pays out unless the guard sees a payout, on the row as it is by then, and changes nothing on an error |
| `ExchangeStore.Store.ReadForFailure` | internal/exchange/service.go:315-325 | the read before the transaction of a failure yields a request exactly when one carries the hash and is neither failed nor confirmed |
| `ExchangeStore.Store.OnWithdrawTxConfirmed` | internal/exchange/service.go:275-313 | the callback is the pure confirmation and changes nothing on an error |
| `ExchangeStore.Store.OnWithdrawTxFailed` | internal/exchange/service.go:315-337 | the callback is the pure failure and changes nothing on an error |
| `ExchangeStore.Store.SumUserLiabilities` | internal/exchange/store.go:434-448 | the one-pass sum equals the liabilities that conservation speaks about |
| `TxTracker.InsertTracksIff` | internal/tx/store.go:74-87 | an insert leaves its transaction stored if and only if its hash was known or its idempotency key free; otherwise the other row is restarted and given its signed bytes |
| `TxTracker.InsertExactly` | internal/tx/store.go:74-87 | a new transaction is stored as signed; a collision restarts the colliding row alone unless it is final |
| `TxTracker.MarksExactly` | internal/tx/store.go:90-119 | the answer of the node is written to a row that waits for it and to no other |
| `TxTracker.ResumedExactly` | internal/tx/service.go:204-230 | resuming writes to a row only if it still waits to be sent and there are bytes to send, given or stored: pending if the node takes them, failed to broadcast if not |
| `TxTracker.TrackOutcome` | internal/tx/tracker.go:136-195 | a pass makes an unfinished row confirmed if and only if the receipt succeeded with enough confirmations, failed if and only if it reverted, dropped if and only if there is none and the row is too old; what else it writes and announces; and which rows it leaves to the reconciler |
| `TrackerPass.SoftKeepsCore` | internal/tx/store.go:74-119 | whatever senders and reconcilers write between two statements of any passes, all invariants are kept and no final status is left |
| `TrackerPass.StatementKeepsCore` | internal/tx/tracker.go:136-195 | every single statement that collides with no other pass keeps them too |
| `TrackerPass.FinalLeftIff` | internal/tx/store.go:221-228 | in any state a statement of a pass leaves a final status if and only if it writes something else over one |
| `TrackerPass.UninterruptedPass` | internal/tx/tracker.go:136-195 | run without interruption the statements of a pass add up to the pass as a whole |
| `TxRuns.RunKeepsRows` | internal/tx/store.go:74-87 | in every run, whatever the passes do to each other, no row is lost and the index of idempotency keys is right |
| `TxRuns.StepLeavesFinalIff` | internal/tx/tracker.go:118-195 | a step of any run leaves a final status if and only if it is a pass statement that writes something else over one |
| `TxRuns.StepKeepsCore` | internal/tx/service.go:163-230 | any statement of any writer that is no collision keeps the invariants and takes no row out of a final status |
| `TxRuns.RunKeepsCore` | internal/tx/store.go:190-290 | between any two statements of every run without collisions exactly the finished transactions have been announced, each once, up to a notice a pass is about to queue, and a replaced one names one of its sender and nonce that is confirmed or about to be |
| `TxRuns.ApartNeverCollides` | internal/tx/tracker.go:118-134 | if no two passes under way are ever about one sender and nonce, no pass collides with another |
| `TxRuns.AtMostOneFinalNotice` | internal/tx/store.go:190-209 | in every run without collisions a transaction gets at most one notice of a final status, and outside passes exactly the finished ones have it |
| `TxRuns.SendersExactly` | internal/tx/service.go:43-50 | what a caller finds under its key and hash decides whether it inserts, sends its own or the stored bytes, or stops |
| `TxRuns.RunKeepsGrounds` | internal/tx/tracker.go:146-181 | in every run each pass is about to write what receipt, head, depth and age as it observed them call for |
| `TxRuns.FinishedOnGroundsAlone` | internal/tx/tracker.go:146-181 | in every run a row becomes confirmed, failed, dropped or replaced on these grounds alone |
| `TxRuns.FinalIsFinal` | internal/tx/tracker.go:136-195 | over any continuation without collisions rows keep sender and nonce and never leave a final status |
| `SettledNonce.NonceSettledIff` | internal/tx/store.go:231-278 | with passes on other nonces beside it: right after a confirmation all listed siblings are replaced, and no row of the nonce is pending if and only if none that was not listed has been marked sent since the listing and not restarted |
| `SettledNonce.StragglerStaysPending` | internal/tx/tracker.go:172-181 | a run in which a sibling sent between listing and confirmation stays pending beside the confirmed transaction |
| `SettledNonce.OverlapAnnouncesTwice` | internal/tx/tracker.go:203-215 | a run in which a refresh drops a transaction that the polling loop then confirms, with a final notice for each |
| `Untracked.UntrackedIff` | internal/tx/service.go:42-68 | for every run, a transaction without a row is with the node if and only if it was diverted to another row and handed over after that |
| `Untracked.InsertMissesIff` | internal/tx/service.go:163-202 | the insert of a caller whose lookup found the key free leaves its transaction without a row if and only if another row took the key since and nobody stored the transaction itself |
| `Untracked.RaceLosesTransaction` | internal/tx/service.go:232-245 | a run of two callers under one key that ends with a transaction at the node and in no row, its bytes in the other row |
| `Untracked.HijackLosesTransaction` | internal/tx/service.go:44-50 | a run in which a raw submission under a taken key is sent without a row and the other row is marked sent for it |
| `TxTracker.Store.SelectSiblings` | internal/tx/store.go:236-262 | the query lists each pending sibling of the winner exactly once |
| `TxTracker.Store.MarkReplacedSiblings` | internal/tx/store.go:231-278 | replacing row by row equals replacing all pending siblings at once with one notice each |
| `TxTracker.Store.TransitionStatus` | internal/tx/store.go:190-209 | the status is written and announced exactly when it changes |
| `TxTracker.Store.MarkPending` | internal/tx/store.go:90-97 | only a row not yet accepted becomes pending |
| `TxTracker.Store.MarkSendFailed` | internal/tx/store.go:99-110 | only a row not yet accepted becomes failed to broadcast |
| `TxTracker.Store.InsertSubmitting` | internal/tx/store.go:74-87 | the upsert stores a new row or restarts the colliding one unless that is final |
| `TxTracker.Store.ResumeBroadcast` | internal/tx/service.go:204-230 | only an unsent row is sent again, and an error is reported exactly when that send fails |
| `TxTracker.Store.PersistAndBroadcast` | internal/tx/service.go:163-202 | store, then send; the answer is not-found exactly when the node accepted a transaction whose key belonged to another row |
| `TxTracker.Store.ReconcileOne` | internal/tx/reconcile.go:56-86 | one attempt on a row listed earlier, wherever it is by now: known or resent marks it pending if still unsent, a failed send counts the retry |
| `TxTracker.Store.Track` | internal/tx/tracker.go:136-195 | the statements of one pass in a row are the pass as a whole over the siblings the query lists |
| `Nonces.NoncesStrictlyIncrease` | internal/tx/nonce.go:27-88 | under every interleaving of allocations, failed first inserts and chain syncs the nonces of an address strictly increase |
| `Nonces.SecondInsertFails` | internal/tx/nonce.go:41-57 | of two callers that both found no row the later insert hands out nothing |
| `Nonces.StatementsExactly` | internal/tx/nonce.go:27-88 | a locked allocation hands out the stored nonce, a first insert the one of the chain, each storing the next; a sync raises the stored nonce to the one of the chain if higher; no other address is touched |
| `Nonces.Allocator.InsertFirst` | internal/tx/nonce.go:46-57 | the plain insert is the insert step of the runs and fails exactly when the row has appeared since the lookup |
| `Nonces.Allocator.Allocate` | internal/tx/nonce.go:27-72 | each path is the corresponding step of the runs: locked increment, miss and insert, or a duplicate-key error when another caller got in between |
| `Nonces.Allocator.Sync` | internal/tx/nonce.go:75-88 | the sync step of the runs; it never lowers a stored nonce |
| `WebhookOutbox.StepKeepsInv` | internal/webhook/worker.go:111-166 | any step but requeueing a row that a live worker holds keeps one owner per row, the claim accounting, the order of attempt numbers and finished rows |
| `WebhookOutbox.SecondOwnerIff` | internal/webhook/store.go:294-306 | requeueing a row and claiming it again puts two live workers on it if and only if one held it and the claim comes when the row is due |
| `WebhookOutbox.DoneLeftIff` | internal/webhook/store.go:191-205 | some step takes a row out of done if and only if a live worker whose delivery was not accepted is still on it |
| `WebhookOutbox.InterruptedRun` | internal/webhook/store.go:294-306 | a run that requeues a busy row, ends with two owners, and goes on from done back to pending |
| `WebhookOutbox.RunKeepsInv` | internal/webhook/worker.go:64-109 | the same invariants in every reachable state, for any number of workers, with abandoned rows requeued freely |
| `WebhookOutbox.ClaimsBounded` | internal/webhook/worker.go:148-159 | a row is claimed at most MaxRetries times plus once per requeue, and at least MaxRetries times before it is given up; attempt numbers never fall, and rise strictly unless an abandoned claim was requeued |
| `WebhookOutbox.FailureExactly` | internal/webhook/worker.go:148-159 | a failed delivery costs one retry, gives up exactly at the limit, eight unless configured, and waits 200 ms times the square of the retries, thirty seconds at most |
| `WebhookOutbox.StepsExactly` | internal/webhook/store.go:144-306 | which rows a claim, a settlement and a requeue take, and what they write |
| `WebhookOutbox.DoneIsFinal` | internal/webhook/store.go:191-205 | over any continuation a done row stays exactly as it is |
| `WebhookOutbox.Store.ClaimOutboxBatch` | internal/webhook/store.go:144-189 | the batch is the lowest due rows not locked by others, up to the limit, and exactly these become processing |
| `WebhookOutbox.BatchIsClaims` | internal/webhook/store.go:144-189 | claiming a batch is a series of the single claims that the runs are made of |
| `WebhookOutbox.Store.FailItem` | internal/webhook/worker.go:148-159 | a failed delivery costs one retry, gives up at the limit, and backs off quadratically up to thirty seconds |
| `WebhookOutbox.Store.RequeueOutbox` | internal/webhook/store.go:294-306 | exactly failed and processing rows can be requeued, keeping their retry count |
| `CacheLock.PurgeInvisible` | internal/cache/memory.go:27-46 | purging never changes what a later read returns |
| `CacheLock.SetThenGet` | internal/cache/memory.go:35-57 | a value reads back through its lifetime and not after, for good without one, and no other key changes |
| `CacheLock.SetNXExactly` | internal/cache/memory.go:59-75 | an acquisition succeeds exactly when the key holds nothing that has still time to run, and its value then reads back through its lifetime; a refused one changes nothing that can be read, and neither touches another key |
| `CacheLock.AcquisitionsSeparated` | internal/cache/memory.go:59-84 | two successful acquisitions of a key with no delete or overwrite in between are at least the lifetime of the first apart |
| `CacheLock.PunctualStepIsExclusive` | internal/indexer/engine.go:190-199 | while every holder is within its lock's lifetime, acquiring and releasing keep one holder per height |
| `CacheLock.NoTwoHolders` | internal/indexer/engine.go:190-199 | if every holder finishes within the lifetime, no two sync runs ever hold the same height |
| `CacheLock.NextAcquisitionIff` | internal/cache/memory.go:59-84 | after an acquisition the next attempt succeeds if and only if the lifetime is used up or some run that had held the height has released it since |
| `CacheLock.SecondHolderIff` | internal/indexer/engine.go:190-199 | in any run, however late its holders, a held height is handed out again if and only if somebody tries on one of these two grounds |
| `CacheLock.TwoHolders` | internal/indexer/engine.go:190-199 | a second acquisition before the first run has released leaves both runs inside the same height |
| `CacheLock.LateReleaseSharesHeight` | internal/indexer/engine.go:199 | a run in which a late release lets a third run in while the second is two seconds into its lifetime |
| `CacheLock.MemoryCache.PurgeLocked` | internal/cache/memory.go:27-33 | deleting entry by entry removes exactly the expired ones |
| `CacheLock.MemoryCache.Read` | internal/cache/memory.go:35-46 | an expired entry reads as a miss even before it is purged |
| `CacheLock.MemoryCache.Set` | internal/cache/memory.go:48-57 | the value is readable at once and only its key changes |
| `CacheLock.MemoryCache.SetIfAbsent` | internal/cache/memory.go:59-75 | purge and conditional write are the pure acquisition |
| `CacheLock.MemoryCache.Del` | internal/cache/memory.go:77-84 | exactly the listed keys disappear |
| `EthText.RoundTrip` | internal/api/handlers_chain.go:20-31 | parsing the printed text of any positive amount gives back exactly that amount |
| `EthText.PrintingInjective` | internal/api/handlers_chain.go:20-31 | two positive amounts never print alike |
| `EthText.PrintedShape` | internal/api/handlers_chain.go:20-31 | zero is a bare digit, a negative amount a minus sign and the positive one, and any amount is printed without a trailing point or trailing zeros |
| `Notation.FractionIsMagnitude` | internal/api/handlers_dev_send.go:20-29 | in every notation, fractions, prefixes, separators, points and both exponents, the integer fraction built from powers of two and five has exactly the positional value of the text |
| `Notation.ScanCollects` | internal/api/handlers_dev_send.go:20-23 | what the scanner collects are the digit characters of what it consumes, in order; points and underscores are invisible |
| `Grammar.CleanIff` | internal/api/handlers_dev_send.go:20-23 | the scanner reads a text to its end without complaint exactly when it is made of digits of the base, underscores that each stand between two digits, and at most one point where one is allowed |
| `Grammar.NumeralIff` | internal/api/handlers_dev_send.go:20-23 | a text is an unsigned number exactly when what follows its base prefix has that form and a digit, a bare leading zero meaning octal only where no point is allowed; its digits and base are given |
| `Grammar.FractionIff` | internal/api/handlers_dev_send.go:20-23 | a text with a slash is a number exactly when both sides are whole numerals and the right one is not zero, and then it is their quotient with the sign of the left |
| `Grammar.ExponentIff` | internal/api/handlers_dev_send.go:20-23 | an exponent is read exactly when it is empty, or a letter, an optional sign and decimal digits worth a 64-bit number; `p` means a power of two |
| `Grammar.ScientificIff` | internal/api/handlers_dev_send.go:20-23 | a sign, a numeral and an exponent are read as exactly that number, and refused exactly when the exponent does not fit 64 bits, or the number is not zero and needs a power of five or two beyond the library's bounds |
| `Grammar.ScientificSplits` | internal/api/handlers_dev_send.go:20-23 | and conversely: every text without a slash that is read as a number is a sign, a numeral and an exponent of this form |
| `Notation.ParsePlain` | internal/api/handlers_dev_send.go:20-29 | a plain decimal text is read as its digits over the power of ten of its decimals |
| `EthText.ReductionInvisible` | internal/api/handlers_dev_send.go:28-29 | keeping the fraction in lowest terms does not change the rounded result |
| `EthText.AcceptedIsFloor` | internal/api/handlers_dev_send.go:9-34 | an ether text in any of these notations is accepted exactly when it is a number worth at least one wei, and then yields the floor of its value times 10^18 |
| `EthText.ValueErrors` | internal/api/handlers_dev_send.go:9-34 | a wei amount takes precedence and has to be positive, and which error each refused text gets |
| `Calldata.AddressWord` | internal/eth/transfer.go:214-222 | encoding an address as a 160-bit number gives twelve zero bytes and the address |
| `Calldata.ReadUndoesPack` | internal/eth/transfer.go:406-416 | for every sender, token, address and amount below 2^256, reading the signed transfer recovers all of them |
| `Calldata.PackInjective` | internal/eth/transfer.go:216-222 | different transfers have different calldata |
| `Calldata.PackedExample` | internal/eth/transfer.go:214-222 | the bytes of one concrete transfer |
| `Calldata.PackUndoesReadIff` | internal/eth/transfer.go:406-416 | what was read packs back to the same 68 bytes if and only if the padding, which the reader skips, was zero |
| `Calldata.ReadCases` | internal/eth/transfer.go:381-422 | the four outcomes, each if and only if: no sender, a crash on a contract creation, a token transfer with its parts, a native transfer with its own recipient and value |
| `Calldata.CreationCrashes` | internal/eth/transfer.go:406-412 | a contract creation carrying transfer calldata is a transaction on which the reader crashes |

## Left out

- MySQL isolation, deadlocks and lost connections: statements and transactions are atomic and serial, and the stated unique keys hold.
- The checkpoint that a sync reads and the parent block that a reorg reads outside their transactions are taken at the moment of the transaction.
- ExchangeStore.Store.OnWithdrawTxConfirmed: describes read and transaction with nobody in between; the interleaved form is the read and settle steps of Runs.
- ExchangeStore.Store.OnWithdrawTxFailed: describes read and transaction with nobody in between; the interleaved form is the read and settle steps of Runs.
- ExchangeStore.Store.ProcessApprovedWithdraw: describes a pass that nobody interrupts; the interleaved form is the steps of Runs.
- TxTracker.Store.Track: describes a pass that nobody interrupts; the interleaved form is the statements of TrackerPass in TxRuns.
- insertWithdrawTx reads its own uncommitted row through another connection (internal/exchange/service.go:117); the model reads it inside the transaction.
- A tracker pass that dies between two statements, as after a lost connection, is not modelled.
- Stored signed bytes are assumed to decode; a decoding error in a rebroadcast is not modelled, nor is the chain sync of the nonce that follows a failed send, which the nonce protocol covers as a free step.
- Deposit processing is assumed switched on for the whole run; switching it off between a credit and a reorg would leave the credit standing.
- No claim that a deposit is credited only at depth: a head at or below the block counts as deep enough (internal/indexer/engine.go:289-295).
- No claim that a failed withdraw never pays out: its transaction can still be rebroadcast (internal/exchange/service.go:220-222, internal/tx/reconcile.go:77).
- No recovery: a worker that dies after a claim leaves its row claimed until an operator requeues it, and a claimed withdraw for good; no liveness is claimed.
- Normalisation of tokens, addresses and keys (trimming, lower case): inputs are taken as normalised.
- Calldata.Pack: amounts of 2^256 and above, which do not fit the argument type, are not modelled.
- Nonces and retry counts are unbounded; 64-bit and 32-bit wrap-around is not modelled.
- The unsigned subtraction of the backfill range, which can run past the head (internal/indexer/engine.go:176).
- Speed-ups of token transfers, which reuse a stored value of zero (internal/eth/transfer.go:154), gas pricing and signing.
- Bench rows of the webhook outbox, HTTP delivery, HMAC signatures, payload text, metrics.
- Redis, HTTP handlers, JWT, file upload, gRPC services, pipeline and crawler demos, balance syncer, wallet registry and reconcile report: plumbing or easy single-pass properties.
