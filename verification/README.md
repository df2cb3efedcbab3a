# Bank accounts and account reports, modelled in Dafny

This project models the application layer of a small event-sourced banking
system (`bankaccounts/application.py`):

- **`Reports`**, a process application that follows the bank-account event
  stream and keeps two singleton counter aggregates, *accounts opened* and
  *accounts closed*. Each counter lives at a fixed, well-known id and is
  created lazily with count 0 the first time it is asked for. An `Opened`
  event adds one to the opened counter. A `Closed` event takes one from the
  opened counter and adds one to the closed counter, and both updated counters
  are collected in the same processing step. Every other event kind is ignored.
  Here the policy is a pure function over an immutable repository
  (`map<Id, int>`), and draining the stream is a fold over `seq<Event>`.
- **`BankAccounts`**, the command layer. Each command loads an account from
  the repository (`map<Id, Account>`), forwards one request to the aggregate,
  and saves the aggregate. A missing id is reported as `AccountNotFound`.
  Deposits forward the amount, withdrawals its negation. A transfer loads both
  accounts, forwards `-amount` to the debit account and `+amount` to the
  credit account, and saves both in one batch.

The bank-account aggregate's own rules are not modelled. Whether it accepts
a request is a parameter, `accepts: (Account, Request) -> bool`. An accepted
request is appended to the account's list of requests, so the model records
exactly which signed amounts each account was asked to take.

Files:

- `results.dfy`: `Option`, `Result` and map lookup.
- `events.dfy`: identities, the upstream event kinds, event counting.
- `reports.dfy`: the reporting policy, get-or-create, commit, drain, and their lemmas.
- `reports_scenarios.dfy`: the scenarios from `tests/reports_test.py`.
- `bank_accounts.dfy`: the command layer and its lemmas.

The overdraft and closed-account rules live in the aggregate, not in
`application.py`, so here they are the abstract `accepts` parameter. The code
has no retry on conflicts, and neither does the model.

## Model

| member | source | states |
|---|---|---|
| Reports.CounterId | bankaccounts/application.py:99-116 | each singleton counter has its own fixed id, and the two ids differ |
| Reports.GetOrCreate | bankaccounts/application.py:99-116 | the result is the stored counter when one exists at the fixed id, and the repository is unchanged; otherwise it is a new counter with count 0 that is saved at once; no other entry changes |
| Reports.GetOrCreateIdempotent | bankaccounts/application.py:99-116 | a second get-or-create returns the same counter and repository, so it never resets the count |
| Reports.Policy | bankaccounts/application.py:73-97 | `Opened` collects the opened counter raised by 1; `Closed` collects both counters in one step, opened lowered by 1 and closed raised by 1; any other kind collects nothing and saves nothing |
| Reports.Process | bankaccounts/application.py:74-97 | after one committed step: `Opened` raises opened by exactly 1, leaves the opened counter stored and the closed entry as it was; `Closed` lowers opened by 1 and raises closed by 1, and both counters are then stored; any other kind changes nothing; no id other than the two counters is touched |
| Reports.ProcessKeepsTally | bankaccounts/application.py:79-97 | each step keeps opened + closed equal to the number of `Opened` events processed |
| Reports.DrainCounts | bankaccounts/application.py:79-97 | draining a stream moves opened by #Opened − #Closed and closed by #Closed |
| Reports.DrainKeepsTally | bankaccounts/application.py:79-97 | the opened + closed tally holds across a whole drained stream |
| Reports.DrainSplit | bankaccounts/application.py:73-97 | draining a stream in two parts, the second from the repository the first left, gives the same repository as draining it whole |
| Reports.DrainFromEmpty | bankaccounts/application.py:79-97 | from an empty repository, opened = #Opened − #Closed and closed = #Closed |
| ReportsScenarios.OpenAccounts | tests/reports_test.py:18-31 | after N accounts are opened, opened reads N, closed reads 0, and the opened counter is stored |
| ReportsScenarios.OpenedCounterPersists | bankaccounts/application.py:99-106 | once the opened counter is stored, no later step removes it |
| ReportsScenarios.OpenTenAccounts | tests/reports_test.py:21-31 | ten accounts opened: opened reads 10 and closed reads 0 |
| ReportsScenarios.OpenTenCloseOne | tests/reports_test.py:33-50 | ten accounts opened and the last one closed: opened reads 9, closed reads 1, and the closed counter is stored |
| ReportsScenarios.OpenThreeThousandAccounts | tests/reports_test.py:52-67 | 3000 accounts opened: opened reads 3000 |
| BankAccounts.GetAccount | bankaccounts/application.py:18-25 | the lookup fails exactly when the id is missing, and then with `AccountNotFound` of that id; otherwise it returns the stored account |
| BankAccounts.Save | bankaccounts/application.py:51 | a batch save either fails with a conflict on an id from the batch, writing nothing, or stores at each batch id the last entry for it and leaves every other account as it was; a batch of distinct accounts, each loaded at the version still stored, always succeeds |
| BankAccounts.SaveSameTwice | bankaccounts/application.py:47-51 | two copies of one account loaded at the same version cannot both be saved in one batch: the batch fails with a conflict |
| BankAccounts.Command | bankaccounts/application.py:31-39 | an unknown id fails with `AccountNotFound` before anything is saved; a known id succeeds exactly when the aggregate accepts the request; on success only that account changes, by exactly that request |
| BankAccounts.DepositFunds | bankaccounts/application.py:31-34 | the amount is forwarded unchanged to the credit account; no other account is touched; an unknown id fails with `AccountNotFound` |
| BankAccounts.WithdrawFunds | bankaccounts/application.py:36-39 | the negated amount is forwarded to the debit account; no other account is touched; an unknown id fails with `AccountNotFound` |
| BankAccounts.SetOverdraftLimitOf | bankaccounts/application.py:53-56 | the limit is forwarded unchanged to that account only; an unknown id fails with `AccountNotFound` |
| BankAccounts.CloseAccount | bankaccounts/application.py:62-65 | the close request is forwarded to that account only; an unknown id fails with `AccountNotFound` |
| BankAccounts.OpenAccount | bankaccounts/application.py:10-16 | a new account whose only request is its opening is stored under the new id, and no other account changes; an id that already has events fails with a conflict |
| BankAccounts.TransferFunds | bankaccounts/application.py:41-51 | an unknown debit id, then an unknown credit id, fails with `AccountNotFound`; for distinct accounts the transfer succeeds exactly when both aggregates accept, with −amount on the debit account, +amount on the credit account, and nothing else changed; a transfer from an account to itself fails |
| BankAccounts.TransferAllOrNothing | bankaccounts/application.py:41-51 | after a transfer the repository reflects both sides of it or neither |
| BankAccounts.TransferConservesNet | bankaccounts/application.py:41-51 | a transfer lowers the debit account's net by the amount, raises the credit account's by the amount, and conserves their sum |
| BankAccounts.DepositMovesNet | bankaccounts/application.py:31-34 | a deposit raises the account's net forwarded amount by the amount |
| BankAccounts.WithdrawMovesNet | bankaccounts/application.py:36-39 | a withdrawal lowers the account's net forwarded amount by the amount |
| BankAccounts.WithdrawIsNegatedDeposit | bankaccounts/application.py:31-39 | withdrawing an amount is exactly depositing its negation |
| BankAccounts.NetAmountAppend | bankaccounts/application.py:33 | recording one more transaction adds its amount to the account's net |
| BankAccounts.CommandKeepsOpenedFirst | bankaccounts/application.py:31-65 | deposit, withdrawal, overdraft-limit and close commands keep each stored account's history starting with the request that opened it |
| BankAccounts.TransferKeepsOpenedFirst | bankaccounts/application.py:41-51 | a transfer keeps each stored account's history starting with the request that opened it |
| BankAccounts.OpenKeepsOpenedFirst | bankaccounts/application.py:10-16 | opening an account keeps each stored account's history starting with the request that opened it |

## Left out

- The event-sourcing library's application, process-application, repository, event store, notification log, tracking positions and single-threaded runner are not modelled. Draining is a plain fold over the event stream, and exactly-once delivery is not modelled.
- BankAccounts.Save: the per-aggregate expected-version check is the library's documented behaviour, not code of this repository. The model keeps only what decides the command layer's outcomes: a save batch is all-or-nothing, and a second write at a stale version fails. Concurrent writers are not modelled.
- The aggregate module (`bankaccounts/aggregate.py`) is not part of this model. The bank account's overdraft and closed-account rules are the abstract `accepts` parameter. `increment_count(n)` and `decrement_count(n)` on the counter aggregates are assumed to add and subtract `n`. The tests' expected counts agree with that assumption.
- `get_balance` and `get_overdraft_limit` (bankaccounts/application.py:27-29, 58-60) are not modelled. Their values are computed inside the aggregate, and their lookup step is `BankAccounts.GetAccount`.
- BankAccounts.OpenAccount: the new id is a parameter instead of a random UUID, and the function returns the repository instead of the id, since the id is the caller's input.
- Ids are opaque numbers. The counters' fixed ids are two distinct constants, not UUIDs derived from a name.
- `Decimal` amounts are modelled as `int`, since this layer only forwards and negates them.
- Logging (`_log_info`) and the tests' printing are left out.
- The counters' event versions and recorded events are left out. A counter is reduced to its id and count.
- ReportsScenarios: the scenarios start from the `Opened`/`Closed` event stream, not from `BankAccounts.OpenAccount` and `BankAccounts.CloseAccount`. Which event each accepted request publishes is decided in `bankaccounts/aggregate.py`, which is not part of this model, so nothing links `BankAccounts.Request` to `Events.Event`.
- ReportsScenarios: the tests' per-account names and e-mail addresses are replaced by one fixed name and address. The policy never reads them.
- Concurrency, runner scheduling and retries are left out.
