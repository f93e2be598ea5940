/**
 * The account store as values: the map from serialized public key to account
 * record, and what each handler does to it. `Server.Ledger` performs these
 * steps in place; the lemmas here relate several of them.
 */
module Store {
  import opened Wrappers
  import opened Bytes
  import opened Protos
  import opened Crypto

  type Accounts = map<seq<u8>, Account>

  /** The map after a handler ran, and what the handler returned. */
  datatype Effect<+T> = Effect(accounts: Accounts, reply: T)

  /** Every record is stored under its own id, as `create_account` inserts it. */
  ghost predicate KeyedById(m: Accounts)
  {
    forall k :: k in m ==> m[k].id == k
  }

  /** `get_account`: the stored record, or a not-found status. */
  function Lookup(m: Accounts, id: seq<u8>): (r: Result<Account>)
    ensures r.Ok? <==> id in m
    ensures r.Ok? ==> r.value == m[id]
    ensures r.Err? ==> r.status == NotFound("Account not found")
  {
    if id in m then Ok(m[id]) else Err(NotFound("Account not found"))
  }

  /** `freeze_account`. */
  function Freeze(m: Accounts, id: seq<u8>): (r: Effect<Result<FreezeAccountResponse>>)
    ensures r.reply.Err? <==> id !in m
    ensures r.reply.Err? ==> r.reply.status == NotFound("Account not found")
    ensures r.reply.Ok? ==> (r.reply.value.success <==> !m[id].isFrozen)
    ensures r.accounts.Keys == m.Keys
    ensures forall k :: k in m && k != id ==> r.accounts[k] == m[k]
    ensures id in m ==> r.accounts[id] == m[id].(isFrozen := true)
  {
    if id !in m then
      Effect(m, Err(NotFound("Account not found")))
    else if m[id].isFrozen then
      Effect(m, Ok(FreezeAccountResponse(false, "Account is already frozen")))
    else
      Effect(m[id := m[id].(isFrozen := true)], Ok(FreezeAccountResponse(true, "Account has been frozen")))
  }

  /** `unfreeze_account`. */
  function Unfreeze(m: Accounts, id: seq<u8>): (r: Effect<Result<UnfreezeAccountResponse>>)
    ensures r.reply.Err? <==> id !in m
    ensures r.reply.Err? ==> r.reply.status == NotFound("Account not found")
    ensures r.reply.Ok? ==> (r.reply.value.success <==> m[id].isFrozen)
    ensures r.accounts.Keys == m.Keys
    ensures forall k :: k in m && k != id ==> r.accounts[k] == m[k]
    ensures id in m ==> r.accounts[id] == m[id].(isFrozen := false)
  {
    if id !in m then
      Effect(m, Err(NotFound("Account not found")))
    else if !m[id].isFrozen then
      Effect(m, Ok(UnfreezeAccountResponse(false, "Account is not frozen")))
    else
      Effect(m[id := m[id].(isFrozen := false)], Ok(UnfreezeAccountResponse(true, "Account has been unfrozen")))
  }

  /** `create_account`: the new record replaces whatever was stored under the key. */
  function Create(m: Accounts, req: CreateAccountReq, keys: Keypair): (r: Effect<CreateAccountResponse>)
    ensures r.accounts.Keys == m.Keys + {keys.publicKey}
    ensures r.accounts[keys.publicKey] == Account(keys.publicKey, req.name, req.balance, false)
    ensures forall k :: k in m && k != keys.publicKey ==> r.accounts[k] == m[k]
    ensures r.reply.account == Some(r.accounts[keys.publicKey])
    ensures r.reply.privateKey == keys.secretKey
  {
    var account := Account(keys.publicKey, req.name, req.balance, false);
    Effect(m[account.id := account], CreateAccountResponse(Some(account), keys.secretKey))
  }

  /**
   * `update_balances`, given the snapshots `fromSnap` and `toSnap` read before
   * the lock was taken. New balances are computed from the snapshots, not from
   * the map; the source record is written first, then the destination record.
   */
  function ApplyBalances(m: Accounts, t: Transfer, fromSnap: Account, toSnap: Account)
    : (r: Effect<Outcome<TransferError>>)
    ensures t.amount > fromSnap.balance ==>
      r == Effect(m, Fail(TransferError(InsufficientBalance, "Insufficient balance")))
    ensures t.amount <= fromSnap.balance && toSnap.balance + t.amount > U64_MAX ==>
      r == Effect(m, Fail(TransferError(BalanceOverflow, "Balance overflow")))
    ensures t.amount <= fromSnap.balance && toSnap.balance + t.amount <= U64_MAX && t.fromAccount !in m ==>
      r == Effect(m, Fail(TransferError(AccountNotFound, "From account not found")))
    ensures r.reply.Pass? <==>
      t.amount <= fromSnap.balance && toSnap.balance + t.amount <= U64_MAX && t.fromAccount in m && t.toAccount in m
    ensures r.accounts.Keys == m.Keys
    ensures forall k :: k in m && k != t.fromAccount && k != t.toAccount ==> r.accounts[k] == m[k]
    ensures forall k :: k in m ==> r.accounts[k] == m[k].(balance := r.accounts[k].balance)
    ensures r.reply.Pass? ==> r.accounts[t.toAccount].balance == toSnap.balance + t.amount
    ensures r.reply.Pass? && t.fromAccount != t.toAccount ==>
      r.accounts[t.fromAccount].balance == fromSnap.balance - t.amount
  {
    match CheckedSub(fromSnap.balance, t.amount)
    case None => Effect(m, Fail(TransferError(InsufficientBalance, "Insufficient balance")))
    case Some(newFrom) =>
      match CheckedAdd(toSnap.balance, t.amount)
      case None => Effect(m, Fail(TransferError(BalanceOverflow, "Balance overflow")))
      case Some(newTo) =>
        if t.fromAccount !in m then
          Effect(m, Fail(TransferError(AccountNotFound, "From account not found")))
        else
          var debited := m[t.fromAccount := m[t.fromAccount].(balance := newFrom)];
          if t.toAccount !in debited then
            Effect(debited, Fail(TransferError(AccountNotFound, "To account not found")))
          else
            Effect(debited[t.toAccount := debited[t.toAccount].(balance := newTo)], Pass)
  }

  // ----- Total supply -----

  /** The sum of all balances in the store. */
  ghost function Total(m: Accounts): int
    decreases |m.Keys|
  {
    if m == map[] then 0
    else
      var k :| k in m;
      m[k].balance + Total(m - {k})
  }

  /** Any account may be taken out of the sum first, not only the chosen one. */
  lemma {:induction false} TotalRemove(m: Accounts, k: seq<u8>)
    requires k in m
    ensures Total(m) == m[k].balance + Total(m - {k})
    decreases |m.Keys|
  {
    var j :| j in m && Total(m) == m[j].balance + Total(m - {j});
    if j != k {
      TotalRemove(m - {j}, k);
      TotalRemove(m - {k}, j);
      assert m - {j} - {k} == m - {k} - {j};
    }
  }

  /** Replacing or adding one record changes the total by the difference of the balances. */
  lemma {:induction false} TotalUpdate(m: Accounts, k: seq<u8>, a: Account)
    ensures Total(m[k := a]) == Total(m) + a.balance - (if k in m then m[k].balance else 0)
  {
    TotalRemove(m[k := a], k);
    if k in m {
      TotalRemove(m, k);
      assert m[k := a] - {k} == m - {k};
    } else {
      assert m[k := a] - {k} == m;
    }
  }

  /** Freezing and unfreezing never change the total supply. */
  lemma {:induction false} ToggleKeepsTotal(m: Accounts, id: seq<u8>)
    ensures Total(Freeze(m, id).accounts) == Total(m)
    ensures Total(Unfreeze(m, id).accounts) == Total(m)
  {
    if id in m {
      TotalUpdate(m, id, m[id].(isFrozen := true));
      TotalUpdate(m, id, m[id].(isFrozen := false));
    }
  }

  /** Creation adds the new balance and, when it overwrites, destroys the old one. */
  lemma {:induction false} CreateChangesTotal(m: Accounts, req: CreateAccountReq, keys: Keypair)
    ensures Total(Create(m, req, keys).accounts)
         == Total(m) + req.balance - (if keys.publicKey in m then m[keys.publicKey].balance else 0)
  {
    TotalUpdate(m, keys.publicKey, Account(keys.publicKey, req.name, req.balance, false));
  }

  // ----- Lemmas relating several steps -----

  /** A second freeze reports `success = false` and changes nothing. */
  lemma FreezeIdempotent(m: Accounts, id: seq<u8>)
    ensures var once := Freeze(m, id);
            var twice := Freeze(once.accounts, id);
            twice.accounts == once.accounts && (twice.reply.Ok? ==> !twice.reply.value.success)
  {
  }

  /** A second unfreeze reports `success = false` and changes nothing. */
  lemma UnfreezeIdempotent(m: Accounts, id: seq<u8>)
    ensures var once := Unfreeze(m, id);
            var twice := Unfreeze(once.accounts, id);
            twice.accounts == once.accounts && (twice.reply.Ok? ==> !twice.reply.value.success)
  {
  }

  /** A reported no-op really is one: `success = false` leaves the map as it was. */
  lemma UnsuccessfulToggleChangesNothing(m: Accounts, id: seq<u8>)
    ensures Freeze(m, id).reply.Ok? && !Freeze(m, id).reply.value.success ==> Freeze(m, id).accounts == m
    ensures Unfreeze(m, id).reply.Ok? && !Unfreeze(m, id).reply.value.success ==> Unfreeze(m, id).accounts == m
    ensures Freeze(m, id).reply.Err? ==> Freeze(m, id).accounts == m
    ensures Unfreeze(m, id).reply.Err? ==> Unfreeze(m, id).accounts == m
  {
  }

  /** Unfreezing after a successful freeze restores the store exactly. */
  lemma UnfreezeUndoesFreeze(m: Accounts, id: seq<u8>)
    requires Freeze(m, id).reply == Ok(FreezeAccountResponse(true, "Account has been frozen"))
    ensures Unfreeze(Freeze(m, id).accounts, id) == Effect(m, Ok(UnfreezeAccountResponse(true, "Account has been unfrozen")))
  {
  }

  /** A lookup right after creation returns exactly the created record. */
  lemma CreateThenLookup(m: Accounts, req: CreateAccountReq, keys: Keypair)
    ensures Lookup(Create(m, req, keys).accounts, keys.publicKey)
         == Ok(Account(keys.publicKey, req.name, req.balance, false))
  {
  }

  /**
   * No conflict check: creating under an existing key replaces the record,
   * so an existing frozen account comes back unfrozen with the new balance.
   */
  lemma CreateOverwritesExisting(m: Accounts, req: CreateAccountReq, keys: Keypair)
    requires keys.publicKey in m
    ensures Create(m, req, keys).accounts.Keys == m.Keys
    ensures !Create(m, req, keys).accounts[keys.publicKey].isFrozen
    ensures Create(m, req, keys).accounts[keys.publicKey].balance == req.balance
  {
  }

  /** Freezing and unfreezing keep each record stored under its own id. */
  lemma ToggleKeepsKeyedById(m: Accounts, id: seq<u8>)
    requires KeyedById(m)
    ensures KeyedById(Freeze(m, id).accounts)
    ensures KeyedById(Unfreeze(m, id).accounts)
  {
  }

  /** Creation stores the new record under its own id. */
  lemma CreateKeepsKeyedById(m: Accounts, req: CreateAccountReq, keys: Keypair)
    requires KeyedById(m)
    ensures KeyedById(Create(m, req, keys).accounts)
  {
  }

  /** The balance update only rewrites balances, so ids stay with their keys. */
  lemma ApplyBalancesKeepsKeyedById(m: Accounts, t: Transfer, fromSnap: Account, toSnap: Account)
    requires KeyedById(m)
    ensures KeyedById(ApplyBalances(m, t, fromSnap, toSnap).accounts)
  {
  }

  /**
   * Partial application: if the destination key is missing when the balances
   * are written, the source has already been debited and stays debited.
   */
  lemma MissingDestinationLeavesDebit(m: Accounts, t: Transfer, fromSnap: Account, toSnap: Account)
    requires t.amount <= fromSnap.balance && toSnap.balance + t.amount <= U64_MAX
    requires t.fromAccount in m && t.toAccount !in m
    ensures ApplyBalances(m, t, fromSnap, toSnap).reply == Fail(TransferError(AccountNotFound, "To account not found"))
    ensures ApplyBalances(m, t, fromSnap, toSnap).accounts[t.fromAccount].balance == fromSnap.balance - t.amount
  {
  }

  /**
   * Time-of-check/time-of-use: balances are computed from snapshots read
   * before the lock. If a second request for the same transfer was validated
   * against the same snapshots, both report success but only one transfer's
   * worth of money moves: the second write repeats the first.
   */
  lemma StaleSnapshotLosesUpdate(m: Accounts, t: Transfer)
    requires t.fromAccount in m && t.toAccount in m && t.fromAccount != t.toAccount
    requires ApplyBalances(m, t, m[t.fromAccount], m[t.toAccount]).reply.Pass?
    ensures var first := ApplyBalances(m, t, m[t.fromAccount], m[t.toAccount]).accounts;
            ApplyBalances(first, t, m[t.fromAccount], m[t.toAccount]) == Effect(first, Pass)
  {
  }

  /**
   * Stale snapshots can destroy money. A→B is applied; then C→B is applied
   * with the snapshot of B read before the first transfer. B is set from
   * that snapshot, so the first credit is lost while A stays debited, and
   * the total falls by the first amount.
   */
  lemma {:induction false} StaleSnapshotDestroysMoney(m: Accounts, t1: Transfer, t2: Transfer)
    requires t1.toAccount == t2.toAccount
    requires t1.fromAccount != t1.toAccount && t2.fromAccount != t2.toAccount && t1.fromAccount != t2.fromAccount
    requires t1.fromAccount in m && t2.fromAccount in m && t1.toAccount in m
    requires ApplyBalances(m, t1, m[t1.fromAccount], m[t1.toAccount]).reply.Pass?
    requires ApplyBalances(ApplyBalances(m, t1, m[t1.fromAccount], m[t1.toAccount]).accounts,
                           t2, m[t2.fromAccount], m[t2.toAccount]).reply.Pass?
    ensures var m1 := ApplyBalances(m, t1, m[t1.fromAccount], m[t1.toAccount]).accounts;
            var m2 := ApplyBalances(m1, t2, m[t2.fromAccount], m[t2.toAccount]).accounts;
            && m2[t1.fromAccount].balance == m[t1.fromAccount].balance - t1.amount
            && m2[t2.fromAccount].balance == m[t2.fromAccount].balance - t2.amount
            && m2[t1.toAccount].balance == m[t1.toAccount].balance + t2.amount
            && Total(m2) == Total(m) - t1.amount
  {
    var a, b, c := t1.fromAccount, t1.toAccount, t2.fromAccount;
    var m1 := ApplyBalances(m, t1, m[a], m[b]).accounts;
    var m2 := ApplyBalances(m1, t2, m[c], m[b]).accounts;
    var debitedA := m[a := m1[a]];
    assert m1 == debitedA[b := m1[b]];
    var debitedC := m1[c := m2[c]];
    assert m2 == debitedC[b := m2[b]];
    TotalUpdate(m, a, m1[a]);
    TotalUpdate(debitedA, b, m1[b]);
    TotalUpdate(m1, c, m2[c]);
    TotalUpdate(debitedC, b, m2[b]);
  }
}
