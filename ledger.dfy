/**
 * The ledger server: one shared map from serialized public key to account,
 * updated in place by the handlers. Each handler runs as one atomic step and
 * is proved to do exactly what the matching function of `Store` or
 * `Transfers` describes.
 */
module Server {
  import opened Wrappers
  import opened Bytes
  import opened Protos
  import opened Crypto
  import opened Message
  import opened Authorizer
  import opened Store
  import opened Transfers

  class Ledger {
    var accounts: Accounts

    ghost predicate Valid()
      reads this
    {
      KeyedById(accounts)
    }

    /** `Ledger::default()`: an empty store. */
    constructor ()
      ensures Valid() && accounts == map[]
    {
      accounts := map[];
    }

    method FreezeAccount(id: seq<u8>) returns (r: Result<FreezeAccountResponse>)
      requires Valid()
      modifies this
      ensures Valid()
      ensures Effect(accounts, r) == Freeze(old(accounts), id)
    {
      if id !in accounts {
        return Err(NotFound("Account not found"));
      }
      var account := accounts[id];
      if account.isFrozen {
        return Ok(FreezeAccountResponse(false, "Account is already frozen"));
      }
      accounts := accounts[id := account.(isFrozen := true)];
      r := Ok(FreezeAccountResponse(true, "Account has been frozen"));
      ToggleKeepsKeyedById(old(accounts), id);
    }

    method UnfreezeAccount(id: seq<u8>) returns (r: Result<UnfreezeAccountResponse>)
      requires Valid()
      modifies this
      ensures Valid()
      ensures Effect(accounts, r) == Unfreeze(old(accounts), id)
    {
      if id !in accounts {
        return Err(NotFound("Account not found"));
      }
      var account := accounts[id];
      if !account.isFrozen {
        return Ok(UnfreezeAccountResponse(false, "Account is not frozen"));
      }
      accounts := accounts[id := account.(isFrozen := false)];
      r := Ok(UnfreezeAccountResponse(true, "Account has been unfrozen"));
      ToggleKeepsKeyedById(old(accounts), id);
    }

    /** `keys` stands for the freshly generated keypair. */
    method CreateAccount(req: CreateAccountReq, keys: Keypair) returns (resp: CreateAccountResponse)
      requires Valid()
      modifies this
      ensures Valid()
      ensures Effect(accounts, resp) == Create(old(accounts), req, keys)
    {
      var account := Account(keys.publicKey, req.name, req.balance, false);
      accounts := accounts[account.id := account];
      resp := CreateAccountResponse(Some(account), keys.secretKey);
    }

    method GetAccount(id: seq<u8>) returns (r: Result<Account>)
      ensures r == Lookup(accounts, id)
    {
      if id in accounts {
        r := Ok(accounts[id]);
      } else {
        r := Err(NotFound("Account not found"));
      }
    }

    /** Builds the canonical message piece by piece and hashes it; never fails. */
    method CreateTransferMessageHash(c: Primitives, t: Transfer) returns (r: Result<seq<u8>>)
      ensures r == Ok(MessageHash(c, t))
    {
      var message: seq<u8> := [];
      message := message + t.fromAccount;
      message := message + t.toAccount;
      message := message + LE8(t.amount);
      assert message == CanonicalMessage(t.fromAccount, t.toAccount, t.amount);
      r := Ok(c.sha256(message));
    }

    /** Writes the source balance, then the destination balance, from the snapshots. */
    method UpdateBalances(t: Transfer, fromSnap: Account, toSnap: Account) returns (r: Outcome<TransferError>)
      requires Valid()
      modifies this
      ensures Valid()
      ensures Effect(accounts, r) == ApplyBalances(old(accounts), t, fromSnap, toSnap)
    {
      ApplyBalancesKeepsKeyedById(accounts, t, fromSnap, toSnap);
      var newFrom := CheckedSub(fromSnap.balance, t.amount);
      if newFrom.None? {
        return Fail(TransferError(InsufficientBalance, "Insufficient balance"));
      }
      var newTo := CheckedAdd(toSnap.balance, t.amount);
      if newTo.None? {
        return Fail(TransferError(BalanceOverflow, "Balance overflow"));
      }
      if t.fromAccount !in accounts {
        return Fail(TransferError(AccountNotFound, "From account not found"));
      }
      accounts := accounts[t.fromAccount := accounts[t.fromAccount].(balance := newFrom.value)];
      if t.toAccount !in accounts {
        return Fail(TransferError(AccountNotFound, "To account not found"));
      }
      accounts := accounts[t.toAccount := accounts[t.toAccount].(balance := newTo.value)];
      r := Pass;
    }

    method CreateTransfer(c: Primitives, t: Transfer) returns (r: Result<TransferResult>)
      requires Valid()
      modifies this
      ensures Valid()
      ensures Effect(accounts, r) == TransferOutcome(c, old(accounts), t)
    {
      var hashed := CreateTransferMessageHash(c, t);
      // hashing never fails, so the `?` on its result never returns early
      var hash := hashed.value;
      var fromLookup := GetAccount(t.fromAccount);
      if fromLookup.Err? {
        return Err(fromLookup.status);
      }
      var toLookup := GetAccount(t.toAccount);
      if toLookup.Err? {
        return Err(toLookup.status);
      }
      var from, to := fromLookup.value, toLookup.value;
      var checked := VerifyTransferConditions(c, t, from, to, hash);
      if checked.Fail? {
        return Ok(TransferResult(Some(checked.error)));
      }
      var updated := UpdateBalances(t, from, to);
      if updated.Fail? {
        return Ok(TransferResult(Some(updated.error)));
      }
      r := Ok(TransferResult(None));
    }
  }
}
