# A verified model of the ledger and the lifecycles above it

This project models, in Dafny, the bookkeeping core of a regulated investment platform: the double-entry
ledger of `django_banking`, the IBAN checksum, fee truncation, and the lifecycles of `jibrel` that sit on
the ledger or beside it. It proves properties of that model for all inputs and all runs.

`dafny verify dfyconfig.toml` checks everything. Nothing of the original program is executed.

## What is modelled

* `Common` - types that several modules share.
* `Sums` - finite sums over sets and over the rows of a table.
* `Accounting` - accounts, operations with signed legs, the balance of an account under any counting rule,
  and the facts about whole tables of operations that everything else uses. Money is an integer number of
  millionths, the precision of the database columns.
* `Postings` - the legs that deposits, withdrawals and exchanges post, and what they move.
* `LedgerModel` - the operation manager and the operation's state machine as a class that writes rows step
  by step: legs are posted one by one, the whole operation is validated, then held or deleted.
* `LedgerRuns` - what any sequence of manager calls keeps: conservation, strict accounts, no overdraft.
* `DisplayedBalance` - the second balance definition, the one shown to users, and its relation to the first.
* `FundedRuns`, `ShownExactly`, `ReachableLedgers` - runs that fund accounts, and with them the exact
  conditions, over the ledgers that runs reach, for what is shown and for changes of status.
* `ConcurrentCreation` - the same creation protocol split at its database transactions and interleaved.
* `Amounts`, `Refunds` - the gross amounts annotated for display, and the leg selection of a refund.
* `Applications` - payments and refunds of investment applications, and their agreement with the ledger.
* `Signing` - the two signing tasks of an application.
* `Iban` - check digits (ISO 13616-1:2007) over the MOD 97-10 system of ISO/IEC 7064:2003.
* `Fees`, `RateLimit`, `PasswordReset`, `Kyc` - fee truncation, the e-mail limiters, the two-stage reset
  token, and the cached last KYC submission.

The parts of the source that change rows step by step are classes whose methods are proved against
functions of the old state; the querysets and the checksum are functions. Identifiers, clock readings and
the outcomes of external calls are parameters, so every theorem holds for all of them.

## What the proofs found

* `create_refund` binds the smallest leg to `user_account` and the largest to `payment_method_account`; in a
  deposit these are the payment method's leg and the user's leg. The comment above it wants the deposit
  reversed, but the refund of a deposit repeats its signs (`Refunds.RefundPosts`), so a refund of the full
  amount never reverses it (`Refunds.FullRefundRepeats`). While fee and remains are below the amount and go
  to other accounts, exactly this reverses it: the amount passed is the fee less the deposit's amount, and
  the fee equals the rounding remains and goes to the account that bears them, or there are neither
  (`Refunds.RefundReversesIff`). With the two accounts exchanged a full
  refund leaves the fee and the remains only (`Refunds.RepairedRefundReverses`; not the repository's code).
* The selection finds the right accounts if and only if the fee and the rounding remains are smaller than
  the amount (`Refunds.SelectionIsRightIff`).
* For a deposit `amount` is the amount paid in plus the fee and the remains, and `total_amount` adds the fee
  once more; it is what left the payment method exactly when there is no fee and no positive remains
  (`Amounts.DepositTotals`). A withdrawal's figures are right exactly when there are no remains and the
  fee is not negative (`Amounts.WithdrawalTotals`).
* `cancel` and `reject` have no guard: on an operation of any status, committed ones included, they keep
  every account within bounds if and only if the operation does not count, or credits no non-strict active
  account and debits no non-strict passive one (`LedgerRuns.CancelIsSafeIff`, and over reachable ledgers
  `ReachableLedgers.CancelIsSafeOnRunsIff`).
* `hold` has no guard on the status either. Its check does not see the legs of a cancelled operation, and
  sees those of a NEW one together with the NEW credits of others: it keeps every account within bounds if
  and only if the operation counts already or moves no account it touches out of bounds on its own
  (`LedgerRuns.HoldIsSafeIff`, `ReachableLedgers.HoldIsSafeOnRunsIff`; an example is
  `LedgerRuns.HoldingACancelledOperationCanOverdraw`).
* Concurrently, any net credit in flight to a non-strict account can let a debit through and then fail, even
  a credit that is valid by itself, since a second debit makes its own check fail
  (`ConcurrentCreation.CreditInFlightCanOverdraw`). Creations that lower an account keep it within bounds
  next to an operation, under every interleaving, if and only if that operation lowers the account too or
  the account is strict or unbounded (`ConcurrentCreation.ConcurrentlySafeIff`).
* A user is shown no more than the ledger counts after a posting, on every ledger that a run can reach, if
  and only if the posting does not debit the account or is shown while held (`ShownExactly.ShownSafelyIff`).
  A deposit fee must not exceed the amount, a withdrawal is always safe, and exchanges other than crypto for
  fiat can show too much (`ShownExactly.DepositShownSafelyIff`, `WithdrawalShownSafely`,
  `BaseShownSafelyIff`, `QuoteShownSafelyIff`).
* Cancelling the committed deposit of a paid application leaves the application on hold and its amount in
  the summary (`Applications.CancelledDepositStillCounts`). The payment form does not limit the decimals, so
  the summary is the sum of the deposits up to half a cent for each one, exact for whole cents.
* The limiters keep their bound if and only if the counting window or the timeouts are long enough
  (`RateLimit.RateBoundedIff`).
* Exchanging two adjacent characters inside the BBAN goes undetected for three pairs only, each a digit next
  to a letter: 1 and B, 2 and M, 3 and X (`Iban.TranspositionUndetectedIff`). Across the boundary after the
  check digits, characters of the same kind need a multiple of 96 decimal places between the ends
  (`Iban.TranspositionAcrossTheFront`), which no IBAN of a permitted length has.

## Model

| member | source | states |
|---|---|---|
| `Accounting.AssetSumByAccount` | django_banking/models/transactions/models.py:124-132 | the total of an operation in an asset is the sum of its legs account by account, over any set of accounts that covers them |
| `Accounting.BalancesSumToZero` | django_banking/models/accounts/models.py:67-88 | double entry: whatever rule decides which operations count, if those are balanced then the balances of all accounts of an asset sum to zero |
| `Accounting.CountedStrictInBounds` | django_banking/models/transactions/models.py:215-227 | once the counted operations keep the sign rule, a strict account is within its bound, whichever statuses are counted |
| `Accounting.SignOkIff` | django_banking/models/transactions/models.py:215-227 | a leg passes exactly when it neither takes from a strict active account nor gives to a strict passive one |
| `Postings.DepositMoves` | django_banking/models/transactions/managers.py:67-76 | net effect of a deposit on every account, for every mix of optional fee and rounding legs, coinciding accounts included |
| `Postings.WithdrawalMoves` | django_banking/models/transactions/managers.py:113-122 | net effect of a withdrawal on every account, for every mix of optional legs |
| `Postings.ExchangeMoves` | django_banking/models/transactions/managers.py:153-164 | net effect of the six to ten legs of an exchange on every account |
| `Postings.PaymentsBalanceIff` | django_banking/models/transactions/models.py:74-79 | a deposit or withdrawal passes the per-asset check exactly when the amount, the fee and the remains cancel in every asset, for accounts of any assets |
| `Postings.SameAssetPaymentsBalanceIff` | django_banking/models/transactions/models.py:74-79 | with fee and remains inside their assets that is exactly when both accounts hold the same asset |
| `Postings.ExchangesBalanceIff` | django_banking/models/transactions/models.py:74-79 | an exchange between accounts of any assets passes the per-asset check exactly when its amounts, fee and remains cancel in each of the at most seven assets |
| `Postings.SameAssetExchangesBalanceIff` | django_banking/models/transactions/managers.py:144-164 | with fee and remains inside their assets that is exactly when both sides keep their asset, or one amount is traded crosswise between two assets |
| `Postings.ExchangesBalance` | django_banking/models/transactions/models.py:74-79 | between matching accounts an exchange always passes the check |
| `LedgerModel.Ledger.CalculateBalance` | django_banking/models/accounts/models.py:67-88 | the aggregate over non-excluded statuses equals the balance used in every theorem |
| `LedgerModel.Ledger.AccountIsValid` | django_banking/models/accounts/models.py:48-65 | an active account must not be negative, a passive one not positive, a normal one is never refused |
| `LedgerModel.Ledger.LegIsValid` | django_banking/models/transactions/models.py:215-227 | refuses exactly negative legs on strict active and positive legs on strict passive accounts |
| `LedgerModel.Ledger.IsValid` | django_banking/models/transactions/models.py:69-84 | succeeds exactly when every asset sums to zero, every leg keeps the sign rule and every account touched is within bounds; a fault names a genuine cause |
| `LedgerModel.Ledger.HoldOperation` | django_banking/models/transactions/models.py:86-91 | sets HOLD exactly when valid counting NEW legs, and otherwise changes nothing |
| `LedgerModel.Ledger.Commit` | django_banking/models/transactions/models.py:93-99 | sets COMMITTED exactly when the operation is held and valid without NEW legs, and otherwise changes nothing |
| `LedgerModel.Ledger.Cancel` | django_banking/models/transactions/models.py:101-105 | sets CANCELLED from any status; every other row unchanged |
| `LedgerModel.Ledger.Reject` | django_banking/models/transactions/models.py:107-110 | sets DELETED and records the reason; every other row unchanged |
| `LedgerModel.Ledger.ValidateHoldOrDelete` | django_banking/models/transactions/managers.py:201-217 | leaves the operation held (or NEW) exactly when it is acceptable, and otherwise the table as it was before the creation |
| `LedgerModel.Ledger.CreateDeposit` | django_banking/models/transactions/managers.py:31-78 | all or nothing: one new operation with exactly the deposit's legs, every other row unchanged, or an exception and the old table; accepted exactly when the arguments are allowed and the operation acceptable |
| `LedgerModel.Ledger.CreateWithdrawal` | django_banking/models/transactions/managers.py:80-124 | all or nothing, as for a deposit, with a withdrawal's legs |
| `LedgerModel.Ledger.CreateExchange` | django_banking/models/transactions/managers.py:126-166 | all or nothing, with an exchange's legs; BUY or SELL by the sign of the base amount |
| `LedgerModel.Ledger.CreateRefund` | django_banking/models/transactions/managers.py:168-199 | all or nothing; refused unless the deposit is committed; posts on the accounts of its smallest and largest leg and records the deposit |
| `LedgerModel.Smallest` | django_banking/models/transactions/managers.py:184-185 | the first leg in ascending order of amount is a leg no other is below |
| `LedgerModel.Largest` | django_banking/models/transactions/managers.py:184-186 | the last leg in ascending order of amount is a leg no other is above |
| `LedgerModel.WhatIsAllowed` | django_banking/models/transactions/managers.py:55-58 | the argument checks of deposits, withdrawals and exchanges, with the name of the reference that a fiat deposit needs |
| `LedgerModel.ReferencesKept` | django_banking/models/transactions/managers.py:61-65 | the references given are stored as they are, none as an empty dictionary |
| `LedgerModel.RefundRefers` | django_banking/models/transactions/managers.py:188-194 | a refund refers to its deposit under `deposit`, every other reference is as given |
| `LedgerRuns.Perform` | django_banking/models/transactions/managers.py:31-217 | the class performs exactly the steps that the theorems about runs are about, refused calls included |
| `LedgerRuns.AcceptableIff` | django_banking/models/transactions/models.py:69-84 | a new operation is accepted exactly when it balances, keeps the sign rule, and every account it touches can take its net movement on top of everything counted |
| `LedgerRuns.AcceptedUnlessStrictnessBroken` | django_banking/models/transactions/models.py:69-84 | a balanced operation whose accounts end within bounds is accepted exactly when no leg takes from a strict active account or gives to a strict passive one |
| `LedgerRuns.RunWellPosted` | django_banking/models/transactions/managers.py:201-217 | every operation that survives any run balances and keeps the sign rule, whatever its status |
| `LedgerRuns.Conservation` | django_banking/models/transactions/models.py:69-110 | over every run of creations, holds, commits, cancels and rejects the balances of an asset sum to zero under every counting rule |
| `LedgerRuns.StrictAccountsAreSafe` | django_banking/models/transactions/models.py:215-227 | in every reachable state a strict account is within its bound for every choice of counted statuses |
| `LedgerRuns.NextSolvent` | django_banking/models/transactions/models.py:86-110 | one prudent step (held creations, commits, safe cancels and rejects) keeps every account within bounds |
| `LedgerRuns.NoOverdraft` | django_banking/models/accounts/models.py:48-88 | over every prudent run no active account is overdrawn and no passive one exceeds zero |
| `LedgerRuns.CommitEndsInBounds` | django_banking/models/transactions/models.py:93-99 | with arbitrary holds and cancels before it, a successful commit ends with every account it touches within bounds |
| `LedgerRuns.CancelIsSafeIff` | django_banking/models/transactions/models.py:101-110 | cancelling or rejecting an operation of any status keeps every table within bounds that is so if and only if it does not count or takes back no credit of a non-strict active account and no debit of a non-strict passive one |
| `LedgerRuns.HoldIsSafeIff` | django_banking/models/transactions/models.py:86-91 | holding an operation of any status keeps every table within bounds that is so if and only if it counts already or moves no account it touches out of bounds on its own |
| `LedgerRuns.HoldingACancelledOperationCanOverdraw` | django_banking/models/transactions/models.py:86-91 | the smallest instance: a cancelled withdrawal of one unit held again |
| `ReachableLedgers.CancelIsSafeOnRunsIff` | django_banking/models/transactions/models.py:101-110 | the same for every deposit, withdrawal and exchange, NEW, held, committed, cancelled or rejected, over the ledgers that runs of calls reach |
| `ReachableLedgers.HoldIsSafeOnRunsIff` | django_banking/models/transactions/models.py:86-91 | the same for holding it, over the ledgers that runs of calls reach |
| `FundedRuns.FundAll` | django_banking/models/transactions/managers.py:55-78 | for any legs a run of committed deposits gives every account exactly what it needs to bear them |
| `DisplayedBalance.BothBalancesConserved` | django_banking/models/accounts/queryset.py:18-49 | over every run both values of `include_new` and the displayed balances sum to zero per asset |
| `DisplayedBalance.PaymentsShown` | django_banking/models/accounts/queryset.py:24-28 | deposits show once committed, withdrawals from the hold on, and nothing NEW, cancelled or deleted shows |
| `DisplayedBalance.TradesShown` | django_banking/models/accounts/queryset.py:29-45 | purchases and sales show once committed, their paying side from the hold on, and never on token accounts |
| `DisplayedBalance.RefundsNeverShown` | django_banking/models/accounts/queryset.py:18-49 | writing a refund or a correction of any status moves no displayed balance |
| `DisplayedBalance.RefundRunsNeverShown` | django_banking/models/accounts/queryset.py:18-49 | a refund and any later changes of its status leave every displayed balance as it was |
| `DisplayedBalance.GapIsHeldCredits` | django_banking/models/accounts/queryset.py:18-49 | the counted balance of a user account is the displayed one plus exactly its held credits |
| `DisplayedBalance.NextUserSide` | django_banking/models/transactions/managers.py:31-199 | deposits with a fee within the amount, withdrawals and crypto-fiat exchanges on the user's own account, operations of any kind that do not touch it, and arbitrary status changes keep each operation on the user's side |
| `DisplayedBalance.DisplayedIsPessimistic` | django_banking/models/accounts/queryset.py:18-49 | over every such run, whatever happens on other accounts, a user is never shown more than the ledger counts, and the gap is the held credits |
| `DisplayedBalance.CommitShowsHeldCreditOnly` | django_banking/models/transactions/models.py:93-99 | committing a held debit leaves the displayed balance unchanged; a held credit raises it by itself |
| `DisplayedBalance.CancelRestoresDisplayed` | django_banking/models/transactions/models.py:101-105 | cancelling a held operation restores what was shown before its creation |
| `ShownExactly.UnshownDebitIsAccepted` | django_banking/models/transactions/managers.py:201-217 | a run of committed deposits after which a posting that debits the user and is not shown while held is accepted, and the user is shown more than is counted |
| `ShownExactly.ShownSafelyIff` | django_banking/models/accounts/queryset.py:18-49 | on every ledger that a run reaches, a deposit, a withdrawal or an exchange leaves the user shown at most what is counted if and only if it does not debit the account, or is shown while held, or can never be accepted |
| `ShownExactly.DepositShownSafelyIff` | django_banking/models/accounts/queryset.py:24-26 | a deposit does exactly when its fee does not exceed its amount |
| `ShownExactly.WithdrawalShownSafely` | django_banking/models/accounts/queryset.py:27-28 | a withdrawal always does |
| `ShownExactly.BaseShownSafelyIff` | django_banking/models/accounts/queryset.py:29-45 | an exchange does on the base account exactly when it buys or the base asset is crypto |
| `ShownExactly.QuoteShownSafelyIff` | django_banking/models/accounts/queryset.py:29-45 | and on the quote account exactly when a purchase is paid in fiat, and a sale brings at least its fee or is paid in crypto |
| `ConcurrentCreation.SeenBalance` | django_banking/models/accounts/models.py:67-88 | the balance one check reads is the sum over all calls in flight and all returned operations |
| `ConcurrentCreation.UninterruptedCallCreates` | django_banking/models/transactions/managers.py:146-217 | a call left to itself in the middle of any others leaves the table exactly as the sequential creation does |
| `ConcurrentCreation.StatusActions` | django_banking/models/transactions/models.py:93-110 | commits, cancels and rejects between the calls change the status as the sequential ledger does |
| `ConcurrentCreation.CheckPasses` | django_banking/models/transactions/managers.py:201-217 | when a debit passes its check, it and everything already cleared are within bounds together |
| `ConcurrentCreation.NextSafe` | django_banking/models/transactions/managers.py:146-166 | every action of the interleaved protocol keeps the cleared sum within bounds, under the condition on credits in flight |
| `ConcurrentCreation.ConcurrentSafety` | django_banking/models/transactions/managers.py:146-217 | any number of interleaved creations, commits and cancels: if no debit is checked while a credit to the account is in flight, checked debits with held and committed operations stay within bounds, and so does the balance of held and committed ones |
| `ConcurrentCreation.NoCreditsAreUndisturbed` | django_banking/models/transactions/managers.py:146-166 | the condition holds in particular whenever every operation that is inserted, cancelled or rejected lowers the account |
| `ConcurrentCreation.RunVetted` | django_banking/models/transactions/models.py:69-91 | under every interleaving each call past a leg has seen its legs balance and that leg's sign |
| `ConcurrentCreation.ConcurrentConservation` | django_banking/models/transactions/models.py:69-91 | under every interleaving held and committed operations conserve every asset |
| `ConcurrentCreation.StrictConcurrently` | django_banking/models/transactions/models.py:215-227 | under every interleaving they respect strict accounts, whatever credits are in flight |
| `ConcurrentCreation.BankIsNew` | django_banking/models/accounts/models.py:34 | the account that the debits of that run go to has a key of its own |
| `ConcurrentCreation.CreditInFlightCanOverdraw` | django_banking/models/transactions/managers.py:201-217 | for every net credit to a bounded non-strict account, valid or not, a run in which everything else inserted is a deposit that lowers the account, nothing is cancelled, and the account ends overdrawn |
| `ConcurrentCreation.ConcurrentlySafeIff` | django_banking/models/transactions/managers.py:146-217 | every interleaving of the operation with deposits, exchanges, or any operations that lower the account, with or without cancels, stays within bounds if and only if the operation lowers it too or the account is strict or unbounded |
| `Amounts.GrossAmountsAgree` | django_banking/models/transactions/queryset.py:107-135 | on a validated operation in one asset the positive-leg and the negative-leg formula give the same number |
| `Amounts.AmountMissingIff` | django_banking/models/transactions/queryset.py:107-135 | the amount is missing exactly where there is no leg of the sign that is summed, and for exchanges and corrections |
| `Amounts.TotalsFromFees` | django_banking/models/transactions/queryset.py:83-146 | the fee is the size of what the fee accounts net; the total adds it to a deposit's amount and takes it from a withdrawal's |
| `Amounts.WithdrawalTotals` | django_banking/models/transactions/queryset.py:83-146 | for a withdrawal with any fee and remains: `total_amount` is the principal exactly without remains, and `amount` is what left the user's account exactly when also the fee is not negative |
| `Amounts.DepositTotals` | django_banking/models/transactions/queryset.py:83-146 | for a deposit with any fee and remains: `amount` adds the fee once and `total_amount` twice; the total is what left the payment method exactly when there is no fee and no positive remains |
| `Amounts.OtherAmounts` | django_banking/models/transactions/queryset.py:83-146 | a refund shows the amount it moves, or none if that is zero, and neither fee nor total; exchanges and corrections show none |
| `Refunds.SelectionIsRightIff` | django_banking/models/transactions/managers.py:179-186 | however ties are sorted, the first leg is the payment method's and the last the user's if and only if fee and remains are below the amount |
| `Refunds.RefundPosts` | django_banking/models/transactions/managers.py:184-197 | the refund's legs debit the payment method and credit the user, and balance exactly when the assets agree |
| `Refunds.RefundReversesIff` | django_banking/models/transactions/managers.py:179-197 | the refund cancels the deposit on every account if and only if its amount is the fee less the deposit's amount and the fee equals the remains and goes to the account that bears them, or there are neither |
| `Refunds.FullRefundRepeats` | django_banking/models/transactions/managers.py:179-197 | a refund of the full amount never reverses the deposit, and repeats it when there are no fee and no remains |
| `Refunds.RepairedRefundReverses` | django_banking/models/transactions/managers.py:179-182 | with the two accounts exchanged, as the comment intends, only the fee and the remains are left of the deposit |
| `Applications.Investments.Apply` | jibrel/investment/views.py:158-167 | an application is created as a draft without a deposit |
| `Applications.Investments.Sign` | jibrel/investment/models.py:202-215 | only a draft turns into a pending application |
| `Applications.Investments.AddPayment` | jibrel/investment/models.py:135-174 | creates and commits the deposit and stores it with HOLD and the amount; a failure after the creation leaves the deposit cancelled and the application untouched; nothing happens to drafts and paid applications |
| `Applications.Investments.RefundDeposit` | jibrel/payments/admin/__init__.py:77-113 | refused exactly when not committed or refunded already; on success a live refund refers to the deposit and its applications are canceled; a failure leaves the refund cancelled |
| `Applications.PaymentAgrees` | jibrel/investment/models.py:155-174 | adding a payment, failures included, keeps applications and ledger in agreement |
| `Applications.RefundAgrees` | jibrel/payments/admin/__init__.py:83-111 | refunding, failures included, keeps the agreement |
| `Applications.OtherStepAgrees` | django_banking/models/transactions/models.py:86-110 | so does every other ledger step on operations that no application depends on |
| `Applications.Perform` | jibrel/investment/models.py:135-174 | the imperative code performs exactly the events that the theorems about runs are about |
| `Applications.PayableAndRefundable` | jibrel/payments/admin/__init__.py:83-92 | over agreed applications exactly the pending ones can be paid, and exactly the deposits of those on hold refunded |
| `Applications.PaymentComesTo` | jibrel/investment/models.py:155-174 | a payment the ledger takes puts the pending application on hold with its deposit and amount; any failure leaves it pending and unpaid |
| `Applications.RefundComesTo` | jibrel/payments/admin/__init__.py:94-113 | a refund the ledger takes cancels the application on hold; any failure leaves it on hold |
| `Applications.CanceledAre` | jibrel/payments/admin/__init__.py:106-108 | exactly the applications of the deposit that are no drafts are canceled |
| `Applications.PaymentRefers` | jibrel/investment/models.py:155-163 | the payment carries the reference code and the bank account |
| `Applications.PaymentStatusIs` | jibrel/investment/queryset.py:70-99 | a deposit counts as paid while it is held or committed, and as refunded while a live refund refers to it |
| `Applications.SummaryAdds` | jibrel/investment/views.py:175-191 | an application adds its amount to its user's total while on hold or completed |
| `Applications.ApplicationAndLedgerAgree` | jibrel/investment/queryset.py:70-99 | over every run: HOLD exactly when the deposit is committed and unrefunded; PAID, REFUND and NOT_PAID exactly for HOLD, CANCELED with a deposit, and no deposit |
| `Applications.AtMostOneRefund` | django_banking/models/transactions/models.py:140-149 | over every run a deposit has at most one live refund, so the lookup that expects one row never finds two |
| `Applications.SummaryIsUnrefundedDeposits` | jibrel/investment/views.py:175-191 | over every run the total shown to a user is the sum of the unrefunded deposits of the user's applications, up to half a cent each, and exactly so for whole cents |
| `Applications.RefundRepeatsPayment` | jibrel/payments/admin/__init__.py:94-100 | an application's payment moves its amount from the bank to the user, and the refund made from it moves the same amount the same way again |
| `Applications.CancelKeepsAgreementIff` | django_banking/models/transactions/models.py:101-105 | cancelling an operation keeps the agreement if and only if it is neither an application's deposit nor the live refund of one |
| `Applications.CancelledDepositStillCounts` | jibrel/investment/views.py:180-188 | once its deposit is cancelled an application on hold is unpaid and still counted in the summary |
| `Signing.Application.constructor` | jibrel/investment/views.py:158-167 | an application starts in draft with the agreement INITIAL and no agreement row |
| `Signing.Application.StartTask` | jibrel/investment/tasks.py:24-69 | the states saved by one run of the start task, for every outcome of its external calls |
| `Signing.Application.FinishTask` | jibrel/investment/tasks.py:73-103 | the states saved by one run of the finish task, for every outcome, a failing notification included |
| `Signing.SigningIsSafe` | jibrel/investment/models.py:180-215 | in every state that any run saves, the application is out of draft only with its stored envelope COMPLETED and has at most one agreement row; every save of a task raises the rank, or turns SUCCESS into ERROR |
| `Signing.StartComesTo` | jibrel/investment/tasks.py:24-69 | only a fresh draft is prepared, exactly when its external calls succeed |
| `Signing.FinishComesTo` | jibrel/investment/tasks.py:73-103 | a prepared draft becomes pending exactly when the envelope is completed, and its agreement SUCCESS exactly when the notification is sent as well |
| `Signing.SigningSucceeds` | jibrel/investment/tasks.py:24-103 | an application prepared and then completed ends up pending and agreed |
| `Signing.TasksSettle` | jibrel/investment/tasks.py:24-103 | however often they are delivered, the tasks save at most five times; a lost worker leaves PREPARING or VALIDATING for good |
| `Iban.TranslateParses` | django_banking/contrib/wire_transfer/iban.py:3-7 | the translated text of an alphanumeric string parses to the number in which a letter takes two decimal places |
| `Iban.AlphabetPositions` | django_banking/contrib/wire_transfer/iban.py:3 | each character of the literal alphabet is translated to its position in it |
| `Iban.OthersUntranslated` | django_banking/contrib/wire_transfer/iban.py:6-7 | a character outside the alphabet is left alone |
| `Iban.TranslateConcat` | django_banking/contrib/wire_transfer/iban.py:6-7 | texts are translated piece by piece |
| `Iban.ParseDigitsIff` | django_banking/contrib/wire_transfer/iban.py:15-19 | exactly digits in groups with single underscores between them parse, to the number of the digits |
| `Iban.ParseIntReads` | django_banking/contrib/wire_transfer/iban.py:15-19 | they may carry a sign and stand between white space |
| `Iban.ParseIntOnly` | django_banking/contrib/wire_transfer/iban.py:15-19 | and nothing else parses |
| `Iban.ValidOtherwise` | django_banking/contrib/wire_transfer/iban.py:15-19 | for any text, valid is that the signed number between the white space is one modulo 97 |
| `Iban.GeneratedOtherwise` | django_banking/contrib/wire_transfer/iban.py:10-12 | and the digits generated complete that number |
| `Iban.UpperPositions` | django_banking/contrib/wire_transfer/api/validators/iban.py:18 | small letters become the capitals at their position, the rest stays |
| `Iban.ValidIff` | django_banking/contrib/wire_transfer/iban.py:15-19 | an alphanumeric IBAN is valid exactly when the number of its rotation is one modulo 97 |
| `Iban.GeneratedDigits` | django_banking/contrib/wire_transfer/iban.py:10-12 | the result is always two digits from 02 to 98 that complete the number to one modulo 97 |
| `Iban.RoundTrip` | django_banking/contrib/wire_transfer/iban.py:6-19 | writing the generated digits at positions 2 and 3 gives a valid IBAN for every country and BBAN |
| `Iban.CheckDigitsUnique` | django_banking/contrib/wire_transfer/iban.py:10-19 | a valid IBAN with check digits from 02 to 98 carries the generated ones |
| `Iban.ValidatorAcceptsOnePair` | django_banking/contrib/wire_transfer/api/validators/iban.py:14-20 | the validator passes exactly one pair of check characters per country and BBAN, and then the country decides |
| `Iban.SubstitutionDetected` | django_banking/contrib/wire_transfer/iban.py:15-19 | replacing a digit by another digit or a letter by another letter in a valid IBAN of any length is detected |
| `Iban.TranspositionDetected` | django_banking/contrib/wire_transfer/iban.py:15-19 | so is exchanging two adjacent different characters of the same kind, inside the BBAN or the first four |
| `Iban.TranspositionAcrossTheFront` | django_banking/contrib/wire_transfer/iban.py:6-7 | exchanging the fourth and fifth character, of the same kind, goes undetected exactly when the decimal places between the ends are a multiple of 96 |
| `Iban.ShortTranspositionDetected` | django_banking/contrib/wire_transfer/iban.py:15-19 | so up to 48 characters it is always detected |
| `Iban.PowerIsOneIff` | django_banking/contrib/wire_transfer/iban.py:15-19 | ten has order 96 modulo 97 |
| `Iban.TranspositionUndetectedIff` | django_banking/contrib/wire_transfer/iban.py:15-19 | exchanging any two adjacent different characters of a valid IBAN, inside the BBAN or the first four, goes undetected exactly for a digit and its twin letter: 1B, 2M, 3X in either order |
| `Iban.MixedTranspositionIff` | django_banking/contrib/wire_transfer/iban.py:3-7 | a digit and a letter next to each other trade places without changing the number modulo 97, whatever stands around them, exactly for those three pairs |
| `Iban.MixedTranspositionCollides` | django_banking/contrib/wire_transfer/iban.py:3-7 | 1B and B1 even stand for the same number |
| `Fees.QuantizeIsTruncation` | django_banking/core/data.py:12-23 | the rounded fee and its remainder are the only split into a multiple of the unit and a smaller remainder of the same sign |
| `Fees.GetIff` | django_banking/models/fee/utils.py:19-22 | a lookup finds a row exactly when it is the only one, and tells none from several |
| `Fees.InForceIs` | django_banking/models/fee/utils.py:19-22 | a row for the asset comes before the row for all assets, also when there are several of it |
| `Fees.ChargeIs` | django_banking/models/fee/utils.py:14-24 | with one row in force the charge is its constant value, or its rate times the amount, truncated to the unit of the asset |
| `Fees.NoChargeIff` | django_banking/models/fee/utils.py:19-22 | there is none to charge exactly without a row, and the lookup is ambiguous exactly with several |
| `Fees.Units` | django_banking/core/data.py:14-17 | the unit is a tenth smaller with each decimal place of the asset |
| `Fees.PercentageWithinAmount` | django_banking/models/fee/utils.py:14-24 | a percentage from 0 to 1 in force is charged, never below zero and never above a non-negative amount |
| `Fees.SplittingIsNeverDearer` | django_banking/models/fee/models.py:44-49 | charging n non-negative parts separately never costs more than charging their sum, and at most n-1 units less |
| `Fees.ConstantFeeRepeats` | django_banking/models/fee/models.py:45-46 | a constant fee is charged once for each part |
| `RateLimit.Mailer.SendEmail` | jibrel/authentication/services.py:76-98 | a token is created exactly when the limiter lets the e-mail through |
| `RateLimit.ThrottledIff` | jibrel/core/limits.py:65-105 | with whole seconds truncated, what the limiter compares on every history it produced |
| `RateLimit.CountsTheRecent` | jibrel/core/limits.py:86-90 | the attempts counted are as many as the positions of e-mails in the window |
| `RateLimit.AttemptsLeft` | jibrel/core/limits.py:102-105 | the attempts left are the configured ones less those in the window |
| `RateLimit.SecondsLeft` | jibrel/core/limits.py:95-105 | the seconds left are the whole seconds until the time limit or the timeout after the last e-mail |
| `RateLimit.LetThroughIff` | jibrel/core/limits.py:65-105 | with fewer e-mails than allowed in the window the next one is let through as soon as less than a second of the timeout is left, otherwise of the time limit |
| `RateLimit.ConsecutiveSends` | jibrel/core/limits.py:85-105 | consecutive e-mails are at least the smaller of the two delays apart, less the truncated fraction of a second |
| `RateLimit.RateBoundedIff` | jibrel/core/limits.py:85-105 | over all histories every window of the time limit holds at most the configured number if and only if the counting window or the timeouts are long enough |
| `RateLimit.LongWindowsAreBounded` | jibrel/core/limits.py:201-221 | verification e-mails always keep the bound, reset e-mails whenever the token lives at least the time limit |
| `RateLimit.WholeSecondCondition` | jibrel/core/limits.py:201-221 | the exact condition on the settings on a whole-second clock, where the window is the half-open one of the time limit |
| `PasswordReset.Service.Validate` | jibrel/authentication/token_generator.py:39-54 | finds the single live token of a key and kind and marks it checked; reports whether it was checked before |
| `PasswordReset.Service.Request` | jibrel/authentication/services.py:123-130 | stores a fresh activation token unless the address is unknown or throttled |
| `PasswordReset.Service.Activate` | jibrel/authentication/services.py:144-148 | succeeds exactly on a live unchecked activation token, and then stores a completion token of the same key and user |
| `PasswordReset.Service.Complete` | jibrel/authentication/services.py:151-157 | succeeds exactly on a live unchecked completion token, and then sets that user's password and no other |
| `PasswordReset.RunCalls` | jibrel/authentication/services.py:123-157 | every sequential run keeps the invariant that ties tokens to the requests and activations behind them, and the stored passwords are the initial ones updated by the logged changes |
| `PasswordReset.ChangedBy` | jibrel/authentication/services.py:151-157 | a password that differs from the initial one was set by a logged change of a key of that user |
| `PasswordReset.ResetKeyUsedOnceAndInTime` | jibrel/authentication/services.py:123-157 | a key changes a password at most once, after exactly one request and one activation of that key, for the user it was issued to, within twice the lifetime |
| `PasswordReset.Perform` | jibrel/authentication/services.py:123-157 | the service performs exactly the calls that the theorems about runs are about |
| `PasswordReset.Activating` | jibrel/authentication/services.py:144-148 | activating succeeds up to the lifetime after the request, both ends included, and never later |
| `PasswordReset.Completing` | jibrel/authentication/services.py:151-157 | completing succeeds up to the lifetime after the activation, and never later or without one |
| `PasswordReset.ResetSucceedsIff` | jibrel/authentication/token_generator.py:39-54 | from the request of a known user to the new password, whatever calls on other keys come between: activation and completion succeed exactly within their lifetimes, and then that user's password is the new one |
| `Kyc.Registry.FirstByCreation` | jibrel/kyc/models.py:260-263 | the first approved submission by descending creation time is the latest-created one, or none |
| `Kyc.Registry.ChangeTransition` | jibrel/kyc/models.py:255-266 | saves the status, recomputes the cache of that profile, leaves others alone and keeps every cache right |
| `Kyc.Registry.Approve` | jibrel/kyc/models.py:247-249 | the submission becomes approved, other rows and profiles are unchanged and every cache stays right |
| `Kyc.Registry.Reject` | jibrel/kyc/models.py:251-253 | the submission becomes rejected, other rows and profiles are unchanged and every cache stays right |
| `Kyc.Registry.Submit` | jibrel/kyc/services.py:155-163 | only an unverified profile submits; it becomes pending and every cache stays right |
| `Kyc.Registry.Clone` | jibrel/kyc/models.py:319-325 | a copy is a new draft and changes no cache |
| `Kyc.Registry.DeleteDraft` | jibrel/kyc/admin/__init__.py:270-271 | only drafts are deleted, which changes no cache |
| `Kyc.RunCalls` | jibrel/kyc/models.py:247-266 | over every run `last_kyc` is the latest-created approved submission and the profile is VERIFIED exactly when one exists |
| `Kyc.CacheIsDetermined` | jibrel/kyc/models.py:260-265 | with distinct creation times the cache has one right value |
| `Kyc.SubmitKeepsCacheIff` | jibrel/kyc/views.py:190-193 | setting PENDING on submission keeps the cache right exactly when the profile was not verified |

## Left out

- `create_withdrawal` in the concurrent model: it is one database transaction, so its NEW legs are not visible to others; it is covered in sequential runs.
- Failing saves inside `hold`, `commit` and `_validate_hold_or_delete`, and operations loaded earlier and saved over newer rows: in a sequential run the second validation inside `hold` repeats the first, so the deletion after it is only reached in the concurrent model.
- The concurrent model works on values: it is a state machine over the rows, one action for each database transaction or balance query.
- The mutation of the caller's `references` dictionary by `create_refund`, and the `metadata` column.
- The order in which the database sorts equal amounts and lists legs: the refund theorems hold for every order; which of several faults of one operation is raised first is fixed by list order.
- Numeric overflow of the 16-digit columns and the 28-digit decimal context: amounts are exact integers.
- The creation of CORRECTION operations, card and cryptocurrency backends, exchange rates, prices and wallets.
- `get_user_accounts` and `for_customer`: creating missing accounts only adds rows with no legs.
- The transaction around `AddPaymentForm.save`, which rolls a failed payment back to the state before it; the model keeps the cancelled deposit that `add_payment` itself leaves.
- Editing the amount of an unpaid application and deleting one in the administration pages; both need no deposit.
- Stale application objects and concurrent payments, refunds or signing tasks on one application.
- `int` on digits, white space and signs outside ASCII, and the class `IbanValidator`, which skips the check for Omani banks.
- Exchanging the fourth and fifth character of an IBAN when one is a digit and the other a letter: the effect depends on the whole number between them.
- Rounding modes other than `ROUND_DOWN` in `Amount.quantize`.
- The limiter and the token table read two clocks (application and database); the model reads one, and check and insertion are not interleaved between two requests.
- The SMS, call and document upload limiters, limitation windows, offering statistics, subscriptions and personal agreements.
- User blocking, e-mail confirmation and the rest of authentication; changing a password while logged in.
- The personal data inside KYC submissions, document checks and notifications.
- HTTP views, serializers, admin pages, templates, DocuSign, Onfido, Twilio, Mailgun and storage: their outcomes are parameters and their guards are branches of the methods.
