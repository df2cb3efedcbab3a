/**
 * The `BankAccounts` application: commands that load a bank-account
 * aggregate from the repository, forward a request to it, and save it.
 *
 * The aggregate's business rules (overdraft limit, closed accounts) are not
 * part of this model: whether the aggregate accepts a request is the
 * parameter `accepts`, and an accepted request is recorded, in order, in the
 * account's list of requests.
 */
module BankAccounts {
  import opened Results
  import opened Events

  /** A request the application forwards to a bank-account aggregate. */
  datatype Request =
    | Open(fullName: string, emailAddress: string)
    | AppendTransaction(amount: int)
    | SetOverdraftLimit(overdraftLimit: int)
    | Close

  /** A bank-account aggregate, seen through the requests it has accepted. */
  datatype Account = Account(requests: seq<Request>)

  /** The aggregate's business rules: does it accept `r` in its current state? */
  type Rules = (Account, Request) -> bool

  /** The application's repository. */
  type Repository = map<Id, Account>

  datatype Error =
    | AccountNotFound(id: Id)        // the account id has no aggregate
    | Rejected(id: Id, request: Request) // the aggregate raised a business-rule error
    | Conflict(id: Id)               // a save whose expected version is stale

  /** An aggregate's version: one event per accepted request. */
  function Version(a: Account): nat
  {
    |a.requests|
  }

  /** The aggregate after it accepts `r`. */
  function Apply(a: Account, r: Request): (b: Account)
    ensures Version(b) == Version(a) + 1
  {
    Account(a.requests + [r])
  }

  /** The version stored for `id`; 0 when no aggregate is stored. */
  function StoredVersion(repo: Repository, id: Id): nat
  {
    if id in repo then Version(repo[id]) else 0
  }

  /** An aggregate to be saved, with the version it had when it was loaded. */
  datatype Pending = Pending(id: Id, account: Account, expected: nat)

  /** No two entries of the batch are for the same account. */
  predicate DistinctIds(batch: seq<Pending>)
  {
    forall i, j :: 0 <= i < j < |batch| ==> batch[i].id != batch[j].id
  }

  /** Every entry was loaded at the version the repository still holds. */
  predicate Current(repo: Repository, batch: seq<Pending>)
  {
    forall i :: 0 <= i < |batch| ==> StoredVersion(repo, batch[i].id) == batch[i].expected
  }

  /**
   * Saving a batch of aggregates as one unit: each entry is checked against
   * the version stored at that point and written; one stale entry fails the
   * whole batch and nothing is written.
   */
  function Save(repo: Repository, batch: seq<Pending>): (r: Result<Repository, Error>)
    ensures r.Ok? ==> r.value.Keys == repo.Keys + (set p | p in batch :: p.id)
    ensures r.Ok? ==> forall id :: id in repo && (forall i :: 0 <= i < |batch| ==> batch[i].id != id) ==>
      r.value[id] == repo[id]
    ensures r.Ok? ==> forall i :: 0 <= i < |batch| && LastFor(batch, i) ==> r.value[batch[i].id] == batch[i].account
    ensures r.Err? ==> r.error.Conflict? && exists i :: 0 <= i < |batch| && batch[i].id == r.error.id
    ensures DistinctIds(batch) && Current(repo, batch) ==> r.Ok?
    decreases |batch|
  {
    if |batch| == 0 then Ok(repo)
    else
      var p := batch[0];
      if StoredVersion(repo, p.id) != p.expected then Err(Conflict(p.id))
      else
        var r := Save(repo[p.id := p.account], batch[1..]);
        SaveStepCurrent(repo, batch);
        if r.Ok? then
          SaveStepKeys(repo, batch, r.value);
          SaveStepUntouched(repo, batch, r.value);
          SaveStepWrites(repo, batch, r.value);
          r
        else
          SaveStepConflict(batch, r.error.id);
          r
  }

  /** The entry for account `id` is the last one in the batch for that account. */
  predicate LastFor(batch: seq<Pending>, i: int)
    requires 0 <= i < |batch|
  {
    forall j :: i < j < |batch| ==> batch[j].id != batch[i].id
  }

  /** A conflict on an entry of the batch's tail is a conflict on an entry of the batch. */
  lemma SaveStepConflict(batch: seq<Pending>, id: Id)
    requires |batch| > 0
    requires exists k :: 0 <= k < |batch[1..]| && batch[1..][k].id == id
    ensures exists i :: 0 <= i < |batch| && batch[i].id == id
  {
    var k :| 0 <= k < |batch[1..]| && batch[1..][k].id == id;
    assert batch[k + 1].id == id;
  }

  /** Writing the first entry and then the tail covers every account of the batch. */
  lemma SaveStepKeys(repo: Repository, batch: seq<Pending>, after: Repository)
    requires |batch| > 0
    requires after.Keys == repo[batch[0].id := batch[0].account].Keys + (set p | p in batch[1..] :: p.id)
    ensures after.Keys == repo.Keys + (set p | p in batch :: p.id)
    ensures repo.Keys <= after.Keys
    ensures forall k :: 0 <= k < |batch| ==> batch[k].id in after
  {
    forall k | 0 <= k < |batch| ensures batch[k].id in after {
      if k > 0 { assert batch[1..][k - 1] == batch[k]; }
    }
    assert (set p | p in batch :: p.id) == {batch[0].id} + (set p | p in batch[1..] :: p.id) by {
      forall p | p in batch ensures p == batch[0] || p in batch[1..] {
        var k :| 0 <= k < |batch| && batch[k] == p;
        if k > 0 { assert batch[1..][k - 1] == p; }
      }
    }
  }

  /** An account with no entry in the batch keeps its stored value. */
  lemma SaveStepUntouched(repo: Repository, batch: seq<Pending>, after: Repository)
    requires |batch| > 0
    requires repo.Keys <= after.Keys && batch[0].id in after
    requires forall id :: id in repo[batch[0].id := batch[0].account] && (forall k :: 0 <= k < |batch[1..]| ==> batch[1..][k].id != id) ==>
      after[id] == repo[batch[0].id := batch[0].account][id]
    ensures forall id :: id in repo && (forall i :: 0 <= i < |batch| ==> batch[i].id != id) ==> after[id] == repo[id]
  {
    forall id | id in repo && (forall i :: 0 <= i < |batch| ==> batch[i].id != id) ensures after[id] == repo[id] {
      forall k | 0 <= k < |batch[1..]| ensures batch[1..][k].id != id {
        assert batch[1..][k] == batch[k + 1];
      }
    }
  }

  /** A batch of distinct, current entries stays so after its first entry is written. */
  lemma SaveStepCurrent(repo: Repository, batch: seq<Pending>)
    requires |batch| > 0
    ensures DistinctIds(batch) && Current(repo, batch) ==>
      && StoredVersion(repo, batch[0].id) == batch[0].expected
      && DistinctIds(batch[1..])
      && Current(repo[batch[0].id := batch[0].account], batch[1..])
  {
    if !(DistinctIds(batch) && Current(repo, batch)) {
      return;
    }
    var rest := batch[1..];
    forall k | 0 <= k < |rest|
      ensures StoredVersion(repo[batch[0].id := batch[0].account], rest[k].id) == rest[k].expected
    {
      assert rest[k] == batch[k + 1];
    }
    forall i, j | 0 <= i < j < |rest| ensures rest[i].id != rest[j].id {
      assert rest[i] == batch[i + 1] && rest[j] == batch[j + 1];
    }
  }

  /**
   * Writing the first entry and then the rest of the batch leaves, at each
   * account of the batch, the last entry for it.
   */
  lemma SaveStepWrites(repo: Repository, batch: seq<Pending>, after: Repository)
    requires |batch| > 0
    requires repo.Keys <= after.Keys
    requires forall k :: 0 <= k < |batch| ==> batch[k].id in after
    requires forall id :: id in repo[batch[0].id := batch[0].account] && (forall k :: 0 <= k < |batch[1..]| ==> batch[1..][k].id != id) ==>
      after[id] == repo[batch[0].id := batch[0].account][id]
    requires forall k :: 0 <= k < |batch[1..]| && LastFor(batch[1..], k) ==> after[batch[1..][k].id] == batch[1..][k].account
    ensures forall i :: 0 <= i < |batch| && LastFor(batch, i) ==> after[batch[i].id] == batch[i].account
  {
    var rest := batch[1..];
    forall i | 0 <= i < |batch| && LastFor(batch, i) ensures after[batch[i].id] == batch[i].account {
      if i == 0 {
        forall k | 0 <= k < |rest| ensures rest[k].id != batch[0].id {
          assert rest[k] == batch[k + 1];
        }
      } else {
        assert rest[i - 1] == batch[i];
        forall k | i - 1 < k < |rest| ensures rest[k].id != rest[i - 1].id {
          assert rest[k] == batch[k + 1];
        }
        assert LastFor(rest, i - 1);
      }
    }
  }

  /** `get_account`: a missing id is reported as `AccountNotFound`. */
  function GetAccount(repo: Repository, id: Id): (r: Result<Account, Error>)
    ensures r.Err? <==> id !in repo
    ensures r.Err? ==> r.error == AccountNotFound(id)
    ensures r.Ok? ==> r.value == repo[id]
  {
    if id in repo then Ok(repo[id]) else Err(AccountNotFound(id))
  }

  /**
   * `after` is `repo` with `request` recorded by the account `id` and every
   * other account as it was.
   */
  ghost predicate Forwarded(repo: Repository, after: Repository, id: Id, request: Request)
  {
    && id in repo
    && after.Keys == repo.Keys
    && after[id].requests == repo[id].requests + [request]
    && forall other :: other in repo && other != id ==> after[other] == repo[other]
  }

  /** A single up-to-date entry is written. */
  lemma SaveOne(repo: Repository, p: Pending)
    requires StoredVersion(repo, p.id) == p.expected
    ensures Save(repo, [p]) == Ok(repo[p.id := p.account])
  {
    assert [p][1..] == [];
  }

  /** Two up-to-date entries for different accounts are both written. */
  lemma SaveTwo(repo: Repository, p: Pending, q: Pending)
    requires p.id != q.id
    requires StoredVersion(repo, p.id) == p.expected
    requires StoredVersion(repo, q.id) == q.expected
    ensures Save(repo, [p, q]) == Ok(repo[p.id := p.account][q.id := q.account])
  {
    assert [p, q][1..] == [q];
    SaveOne(repo[p.id := p.account], q);
  }

  /**
   * Two entries for the same account loaded at the same version: the first
   * write makes the second stale, so the batch fails.
   */
  lemma SaveSameTwice(repo: Repository, id: Id, a: Account, b: Account, c: Account)
    requires StoredVersion(repo, id) == Version(a)
    requires Version(b) == Version(a) + 1
    ensures Save(repo, [Pending(id, b, Version(a)), Pending(id, c, Version(a))]) == Err(Conflict(id))
  {
  }

  /**
   * The shape shared by `deposit_funds`, `withdraw_funds`,
   * `set_overdraft_limit` and `close_account`: load the account, forward one
   * request to it, save it.
   */
  function Command(repo: Repository, accepts: Rules, id: Id, request: Request): (r: Result<Repository, Error>)
    ensures id !in repo ==> r == Err(AccountNotFound(id))
    ensures id in repo ==> (r.Ok? <==> accepts(repo[id], request))
    ensures id in repo && !accepts(repo[id], request) ==> r == Err(Rejected(id, request))
    ensures r.Ok? ==> Forwarded(repo, r.value, id, request)
  {
    match GetAccount(repo, id)
    case Err(e) => Err(e)
    case Ok(account) =>
      if !accepts(account, request) then Err(Rejected(id, request))
      else
        var p := Pending(id, Apply(account, request), Version(account));
        SaveOne(repo, p);
        Save(repo, [p])
  }

  /** `deposit_funds`: the amount is forwarded unchanged. */
  function DepositFunds(repo: Repository, accepts: Rules, creditId: Id, amount: int): (r: Result<Repository, Error>)
    ensures creditId !in repo ==> r == Err(AccountNotFound(creditId))
    ensures creditId in repo ==> (r.Ok? <==> accepts(repo[creditId], AppendTransaction(amount)))
    ensures r.Ok? ==> Forwarded(repo, r.value, creditId, AppendTransaction(amount))
  {
    Command(repo, accepts, creditId, AppendTransaction(amount))
  }

  /** `withdraw_funds`: the negated amount is forwarded. */
  function WithdrawFunds(repo: Repository, accepts: Rules, debitId: Id, amount: int): (r: Result<Repository, Error>)
    ensures debitId !in repo ==> r == Err(AccountNotFound(debitId))
    ensures debitId in repo ==> (r.Ok? <==> accepts(repo[debitId], AppendTransaction(-amount)))
    ensures r.Ok? ==> Forwarded(repo, r.value, debitId, AppendTransaction(-amount))
  {
    Command(repo, accepts, debitId, AppendTransaction(-amount))
  }

  /** `set_overdraft_limit`: the limit is forwarded unchanged. */
  function SetOverdraftLimitOf(repo: Repository, accepts: Rules, id: Id, limit: int): (r: Result<Repository, Error>)
    ensures id !in repo ==> r == Err(AccountNotFound(id))
    ensures id in repo ==> (r.Ok? <==> accepts(repo[id], SetOverdraftLimit(limit)))
    ensures r.Ok? ==> Forwarded(repo, r.value, id, SetOverdraftLimit(limit))
  {
    Command(repo, accepts, id, SetOverdraftLimit(limit))
  }

  /** `close_account`: the close request is forwarded. */
  function CloseAccount(repo: Repository, accepts: Rules, id: Id): (r: Result<Repository, Error>)
    ensures id !in repo ==> r == Err(AccountNotFound(id))
    ensures id in repo ==> (r.Ok? <==> accepts(repo[id], Close))
    ensures r.Ok? ==> Forwarded(repo, r.value, id, Close)
  {
    Command(repo, accepts, id, Close)
  }

  /**
   * `open_account`: a new aggregate created by the open request and saved at
   * version 0. The identity, generated at random in the system, is a
   * parameter; one that already has events makes the save fail.
   */
  function OpenAccount(repo: Repository, accepts: Rules, id: Id, fullName: string, emailAddress: string)
    : (r: Result<Repository, Error>)
    ensures !accepts(Account([]), Open(fullName, emailAddress)) ==> r == Err(Rejected(id, Open(fullName, emailAddress)))
    ensures accepts(Account([]), Open(fullName, emailAddress)) && StoredVersion(repo, id) > 0 ==> r == Err(Conflict(id))
    ensures r.Ok? <==> accepts(Account([]), Open(fullName, emailAddress)) && StoredVersion(repo, id) == 0
    ensures r.Ok? ==> r.value.Keys == repo.Keys + {id}
    ensures r.Ok? ==> r.value[id].requests == [Open(fullName, emailAddress)]
    ensures r.Ok? ==> forall other :: other in repo && other != id ==> r.value[other] == repo[other]
  {
    var request := Open(fullName, emailAddress);
    if !accepts(Account([]), request) then Err(Rejected(id, request))
    else
      var p := Pending(id, Apply(Account([]), request), 0);
      if StoredVersion(repo, id) != 0 then
        assert Save(repo, [p]) == Err(Conflict(id));
        Save(repo, [p])
      else
        SaveOne(repo, p);
        Save(repo, [p])
  }

  /**
   * `transfer_funds`: load the debit account, then the credit account,
   * forward the negated amount to the first and the amount to the second,
   * and save both in one batch.
   */
  function TransferFunds(repo: Repository, accepts: Rules, debitId: Id, creditId: Id, amount: int)
    : (r: Result<Repository, Error>)
    ensures debitId !in repo ==> r == Err(AccountNotFound(debitId))
    ensures debitId in repo && creditId !in repo ==> r == Err(AccountNotFound(creditId))
    ensures debitId != creditId ==>
      (r.Ok? <==> debitId in repo && creditId in repo
                  && accepts(repo[debitId], AppendTransaction(-amount))
                  && accepts(repo[creditId], AppendTransaction(amount)))
    ensures debitId == creditId ==> r.Err?
    ensures r.Ok? ==>
      && r.value.Keys == repo.Keys
      && r.value[debitId].requests == repo[debitId].requests + [AppendTransaction(-amount)]
      && r.value[creditId].requests == repo[creditId].requests + [AppendTransaction(amount)]
      && forall other :: other in repo && other != debitId && other != creditId ==> r.value[other] == repo[other]
  {
    match GetAccount(repo, debitId)
    case Err(e) => Err(e)
    case Ok(debit) =>
      match GetAccount(repo, creditId)
      case Err(e) => Err(e)
      case Ok(credit) =>
        var withdrawal := AppendTransaction(-amount);
        var deposit := AppendTransaction(amount);
        if !accepts(debit, withdrawal) then Err(Rejected(debitId, withdrawal))
        else if !accepts(credit, deposit) then Err(Rejected(creditId, deposit))
        else
          var p := Pending(debitId, Apply(debit, withdrawal), Version(debit));
          var q := Pending(creditId, Apply(credit, deposit), Version(credit));
          if debitId == creditId then
            SaveSameTwice(repo, debitId, debit, p.account, q.account);
            Save(repo, [p, q])
          else
            SaveTwo(repo, p, q);
            Save(repo, [p, q])
  }

  /** The net of the transaction amounts an account has accepted. */
  function NetAmount(requests: seq<Request>): int
  {
    if |requests| == 0 then 0
    else (if requests[0].AppendTransaction? then requests[0].amount else 0) + NetAmount(requests[1..])
  }

  lemma {:induction false} NetAmountAppend(requests: seq<Request>, r: Request)
    ensures NetAmount(requests + [r]) == NetAmount(requests) + (if r.AppendTransaction? then r.amount else 0)
    decreases |requests|
  {
    if |requests| == 0 {
      assert requests + [r] == [r];
      assert [r][1..] == [];
    } else {
      assert (requests + [r])[1..] == requests[1..] + [r];
      NetAmountAppend(requests[1..], r);
    }
  }

  /** A deposit raises the account's net by the amount; nothing else moves. */
  lemma DepositMovesNet(repo: Repository, accepts: Rules, id: Id, amount: int)
    requires DepositFunds(repo, accepts, id, amount).Ok?
    ensures NetAmount(DepositFunds(repo, accepts, id, amount).value[id].requests) == NetAmount(repo[id].requests) + amount
  {
    NetAmountAppend(repo[id].requests, AppendTransaction(amount));
  }

  /** A withdrawal lowers the account's net by the amount. */
  lemma WithdrawMovesNet(repo: Repository, accepts: Rules, id: Id, amount: int)
    requires WithdrawFunds(repo, accepts, id, amount).Ok?
    ensures NetAmount(WithdrawFunds(repo, accepts, id, amount).value[id].requests) == NetAmount(repo[id].requests) - amount
  {
    NetAmountAppend(repo[id].requests, AppendTransaction(-amount));
  }

  /** Withdrawing an amount is depositing its negation. */
  lemma WithdrawIsNegatedDeposit(repo: Repository, accepts: Rules, id: Id, amount: int)
    ensures WithdrawFunds(repo, accepts, id, amount) == DepositFunds(repo, accepts, id, -amount)
  {
  }

  /**
   * A transfer moves the amount from the debit account to the credit
   * account: the debit net falls by it, the credit net rises by it, and the
   * two together are conserved.
   */
  lemma TransferConservesNet(repo: Repository, accepts: Rules, debitId: Id, creditId: Id, amount: int)
    requires TransferFunds(repo, accepts, debitId, creditId, amount).Ok?
    ensures var after := TransferFunds(repo, accepts, debitId, creditId, amount).value;
      && NetAmount(after[debitId].requests) == NetAmount(repo[debitId].requests) - amount
      && NetAmount(after[creditId].requests) == NetAmount(repo[creditId].requests) + amount
      && NetAmount(after[debitId].requests) + NetAmount(after[creditId].requests)
         == NetAmount(repo[debitId].requests) + NetAmount(repo[creditId].requests)
  {
    NetAmountAppend(repo[debitId].requests, AppendTransaction(-amount));
    NetAmountAppend(repo[creditId].requests, AppendTransaction(amount));
  }

  /** The repository a caller sees once a command has returned. */
  function Stored(repo: Repository, r: Result<Repository, Error>): Repository
  {
    if r.Ok? then r.value else repo
  }

  /**
   * Transfer atomicity: afterwards the repository reflects both sides of
   * the transfer, or neither.
   */
  lemma TransferAllOrNothing(repo: Repository, accepts: Rules, debitId: Id, creditId: Id, amount: int)
    ensures var after := Stored(repo, TransferFunds(repo, accepts, debitId, creditId, amount));
      || after == repo
      || (&& debitId in repo && creditId in repo && debitId != creditId
          && after[debitId].requests == repo[debitId].requests + [AppendTransaction(-amount)]
          && after[creditId].requests == repo[creditId].requests + [AppendTransaction(amount)])
  {
  }

  /** Every stored account's history begins with the request that opened it. */
  ghost predicate OpenedFirst(repo: Repository)
  {
    forall id :: id in repo ==> |repo[id].requests| > 0 && repo[id].requests[0].Open?
  }

  /** A single-account command keeps each stored account's opening request first. */
  lemma CommandKeepsOpenedFirst(repo: Repository, accepts: Rules, id: Id, request: Request)
    requires OpenedFirst(repo)
    ensures OpenedFirst(Stored(repo, Command(repo, accepts, id, request)))
  {
  }

  /** A transfer keeps each stored account's opening request first. */
  lemma TransferKeepsOpenedFirst(repo: Repository, accepts: Rules, debitId: Id, creditId: Id, amount: int)
    requires OpenedFirst(repo)
    ensures OpenedFirst(Stored(repo, TransferFunds(repo, accepts, debitId, creditId, amount)))
  {
  }

  /** Opening an account keeps each stored account's opening request first. */
  lemma OpenKeepsOpenedFirst(repo: Repository, accepts: Rules, id: Id, fullName: string, emailAddress: string)
    requires OpenedFirst(repo)
    ensures OpenedFirst(Stored(repo, OpenAccount(repo, accepts, id, fullName, emailAddress)))
  {
  }
}
