/**
 * `create_transfer` as one atomic step on the store: hash the canonical
 * message, look up both accounts (RPC-level not-found otherwise), run the
 * authorization chain on those records, then update the balances.
 */
module Transfers {
  import opened Wrappers
  import opened Bytes
  import opened Protos
  import opened Crypto
  import opened Message
  import opened Authorizer
  import opened Store

  function TransferOutcome(c: Primitives, m: Accounts, t: Transfer): (r: Effect<Result<TransferResult>>)
    ensures r.reply.Err? <==> t.fromAccount !in m || t.toAccount !in m
    ensures r.reply.Err? ==> r.reply.status == NotFound("Account not found")
    ensures r.accounts.Keys == m.Keys
    ensures r.reply.Ok? && r.reply.value.error.Some? ==> r.accounts == m
  {
    var hash := MessageHash(c, t);
    match Lookup(m, t.fromAccount)
    case Err(status) => Effect(m, Err(status))
    case Ok(from) =>
      match Lookup(m, t.toAccount)
      case Err(status) => Effect(m, Err(status))
      case Ok(to) =>
        match VerifyTransferConditions(c, t, from, to, hash)
        case Fail(e) => Effect(m, Ok(TransferResult(Some(e))))
        case Pass =>
          var applied := ApplyBalances(m, t, from, to);
          Effect(applied.accounts, Ok(TransferResult(
            match applied.reply
            case Fail(e) => Some(e)
            case Pass => None)))
  }

  /** The reply of a transfer that went through: no status error, no transfer error. */
  const Applied: Result<TransferResult> := Ok(TransferResult(None))

  /** A reply carrying the transfer error with code `code`. */
  predicate RejectedWith(reply: Result<TransferResult>, code: Code)
  {
    reply.Ok? && reply.value.error.Some? && reply.value.error.value.code == code
  }

  /** An unknown source or destination is an RPC-level not-found, not a transfer error. */
  lemma UnknownAccountIsNotFound(c: Primitives, m: Accounts, t: Transfer)
    requires t.fromAccount !in m || t.toAccount !in m
    ensures TransferOutcome(c, m, t) == Effect(m, Err(NotFound("Account not found")))
  {
  }

  /** A frozen source is rejected whatever the destination, signature, balances or primitives. */
  lemma FrozenSourceRejected(c: Primitives, m: Accounts, t: Transfer)
    requires t.fromAccount in m && t.toAccount in m
    requires m[t.fromAccount].isFrozen
    ensures TransferOutcome(c, m, t)
         == Effect(m, Ok(TransferResult(Some(TransferError(FrozenAccount, "From account is frozen")))))
  {
  }

  /** A frozen destination is rejected before any signature check. */
  lemma FrozenDestinationRejected(c: Primitives, m: Accounts, t: Transfer)
    requires t.fromAccount in m && t.toAccount in m
    requires !m[t.fromAccount].isFrozen && m[t.toAccount].isFrozen
    ensures TransferOutcome(c, m, t)
         == Effect(m, Ok(TransferResult(Some(TransferError(FrozenAccount, "To account is frozen")))))
  {
  }

  /**
   * With both accounts unfrozen, a signature that fails any of the four stages
   * is rejected as `InvalidSignature` and nothing changes, even when the
   * balances would permit the transfer. The key used is the one the request
   * names, because each record is stored under its own id.
   */
  lemma BadSignatureRejected(c: Primitives, m: Accounts, t: Transfer)
    requires KeyedById(m)
    requires t.fromAccount in m && t.toAccount in m
    requires !m[t.fromAccount].isFrozen && !m[t.toAccount].isFrozen
    requires !SignatureAccepted(c, t.fromAccount, MessageHash(c, t), t.signature)
    ensures RejectedWith(TransferOutcome(c, m, t).reply, InvalidSignature)
    ensures TransferOutcome(c, m, t).accounts == m
  {
  }

  /** The balances are only examined after authorization succeeds. */
  lemma InsufficientBalanceRejected(c: Primitives, m: Accounts, t: Transfer)
    requires t.fromAccount in m && t.toAccount in m
    requires VerifyTransferConditions(c, t, m[t.fromAccount], m[t.toAccount], MessageHash(c, t)).Pass?
    requires t.amount > m[t.fromAccount].balance
    ensures TransferOutcome(c, m, t)
         == Effect(m, Ok(TransferResult(Some(TransferError(InsufficientBalance, "Insufficient balance")))))
  {
  }

  /** Overflow of the destination is checked only once the source can pay. */
  lemma BalanceOverflowRejected(c: Primitives, m: Accounts, t: Transfer)
    requires t.fromAccount in m && t.toAccount in m
    requires VerifyTransferConditions(c, t, m[t.fromAccount], m[t.toAccount], MessageHash(c, t)).Pass?
    requires t.amount <= m[t.fromAccount].balance
    requires m[t.toAccount].balance + t.amount > U64_MAX
    ensures TransferOutcome(c, m, t)
         == Effect(m, Ok(TransferResult(Some(TransferError(BalanceOverflow, "Balance overflow")))))
  {
  }

  /**
   * Every failure is classified: a transfer error is always one of the four
   * codes below. Inside one atomic step both accounts were just found, so the
   * `AccountNotFound` paths of the balance update cannot be reached, and
   * `Unknown` is never produced.
   */
  lemma FailuresClassified(c: Primitives, m: Accounts, t: Transfer)
    ensures var reply := TransferOutcome(c, m, t).reply;
            reply.Ok? && reply.value.error.Some? ==>
              reply.value.error.value.code in {FrozenAccount, InvalidSignature, InsufficientBalance, BalanceOverflow}
  {
  }

  /** A transfer is applied exactly when every check of the chain passes. */
  lemma AppliedIff(c: Primitives, m: Accounts, t: Transfer)
    ensures TransferOutcome(c, m, t).reply == Applied <==>
      && t.fromAccount in m && t.toAccount in m
      && VerifyTransferConditions(c, t, m[t.fromAccount], m[t.toAccount], MessageHash(c, t)).Pass?
      && t.amount <= m[t.fromAccount].balance
      && m[t.toAccount].balance + t.amount <= U64_MAX
  {
  }

  /**
   * Conservation between two distinct accounts: the source loses exactly the
   * amount, the destination gains exactly the amount, every other record and
   * every other field is unchanged.
   */
  lemma TransferConserves(c: Primitives, m: Accounts, t: Transfer)
    requires t.fromAccount != t.toAccount
    requires TransferOutcome(c, m, t).reply == Applied
    ensures var m' := TransferOutcome(c, m, t).accounts;
            && t.fromAccount in m && t.toAccount in m
            && m'[t.fromAccount] == m[t.fromAccount].(balance := m[t.fromAccount].balance - t.amount)
            && m'[t.toAccount] == m[t.toAccount].(balance := m[t.toAccount].balance + t.amount)
            && m'[t.fromAccount].balance + m'[t.toAccount].balance == m[t.fromAccount].balance + m[t.toAccount].balance
            && (forall k :: k in m && k != t.fromAccount && k != t.toAccount ==> m'[k] == m[k])
  {
  }

  /**
   * A transfer from an account to itself mints money: the destination write
   * replaces the source write, so the balance ends at old balance + amount.
   */
  lemma SelfTransferMints(c: Primitives, m: Accounts, t: Transfer)
    requires t.fromAccount == t.toAccount
    requires TransferOutcome(c, m, t).reply == Applied
    ensures t.fromAccount in m
    ensures TransferOutcome(c, m, t).accounts[t.fromAccount]
         == m[t.fromAccount].(balance := m[t.fromAccount].balance + t.amount)
    ensures forall k :: k in m && k != t.fromAccount ==> TransferOutcome(c, m, t).accounts[k] == m[k]
  {
  }

  /** Such a self-transfer is reachable: 100 sent to oneself leaves 200. */
  lemma SelfTransferExample()
    ensures var c := Primitives(k => true, h => true, s => true, (h, s, k) => true, msg => msg);
            var id: seq<u8> := [2];
            var m := map[id := Account(id, "a", 100, false)];
            var t := Transfer(id, id, 100, []);
            TransferOutcome(c, m, t) == Effect(map[id := Account(id, "a", 200, false)], Applied)
  {
  }

  /**
   * No replay protection: once a transfer has been applied, the very same
   * signed request passes authorization again, and is applied again whenever
   * the new balances still allow it.
   */
  lemma ReplayAccepted(c: Primitives, m: Accounts, t: Transfer)
    requires TransferOutcome(c, m, t).reply == Applied
    ensures var m' := TransferOutcome(c, m, t).accounts;
            && t.fromAccount in m' && t.toAccount in m'
            && VerifyTransferConditions(c, t, m'[t.fromAccount], m'[t.toAccount], MessageHash(c, t)).Pass?
            && (t.amount <= m'[t.fromAccount].balance && m'[t.toAccount].balance + t.amount <= U64_MAX
                ==> TransferOutcome(c, m', t).reply == Applied)
  {
  }

  /** After freezing either party, every transfer between them is refused and changes nothing. */
  lemma FreezeBlocksTransfers(c: Primitives, m: Accounts, t: Transfer, id: seq<u8>)
    requires t.fromAccount in m && t.toAccount in m
    requires id == t.fromAccount || id == t.toAccount
    ensures var frozen := Freeze(m, id).accounts;
            && RejectedWith(TransferOutcome(c, frozen, t).reply, FrozenAccount)
            && TransferOutcome(c, frozen, t).accounts == frozen
  {
  }

  /**
   * A worked case: A holds 100, B holds 0, A sends 40 with an accepted
   * signature; afterwards A holds 60 and B holds 40.
   */
  lemma TransferExample(c: Primitives, a: seq<u8>, b: seq<u8>, signature: seq<u8>)
    requires a != b
    requires SignatureAccepted(c, a, MessageHash(c, Transfer(a, b, 40, signature)), signature)
    ensures var m := map[a := Account(a, "A", 100, false), b := Account(b, "B", 0, false)];
            TransferOutcome(c, m, Transfer(a, b, 40, signature))
              == Effect(map[a := Account(a, "A", 60, false), b := Account(b, "B", 40, false)], Applied)
  {
  }

  /**
   * Total supply: a refused transfer keeps it, an applied transfer between two
   * distinct accounts keeps it, and an applied self-transfer raises it by the amount.
   */
  lemma {:induction false} TransferTotal(c: Primitives, m: Accounts, t: Transfer)
    ensures var r := TransferOutcome(c, m, t);
            Total(r.accounts) == Total(m) + (if r.reply == Applied && t.fromAccount == t.toAccount then t.amount else 0)
  {
    var r := TransferOutcome(c, m, t);
    if r.reply == Applied {
      AppliedIff(c, m, t);
      var from, to := t.fromAccount, t.toAccount;
      var debited := m[from := r.accounts[from]];
      assert r.accounts == debited[to := r.accounts[to]];
      TotalUpdate(m, from, r.accounts[from]);
      TotalUpdate(debited, to, r.accounts[to]);
      if from != to {
        TransferConserves(c, m, t);
      } else {
        SelfTransferMints(c, m, t);
      }
    }
  }

  /** Every transfer keeps each record stored under its own id. */
  lemma TransferKeepsKeyedById(c: Primitives, m: Accounts, t: Transfer)
    requires KeyedById(m)
    ensures KeyedById(TransferOutcome(c, m, t).accounts)
  {
  }
}
