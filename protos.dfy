/**
 * The records the ledger service exchanges (the `m10.ledger` protobuf package),
 * written out as values: accounts, transfer requests, transfer errors and the
 * request/response records of each handler.
 */
module Protos {
  import opened Wrappers
  import opened Bytes

  /** An account record; `id` is the serialized public key that also keys the store. */
  datatype Account = Account(id: seq<u8>, name: string, balance: u64, isFrozen: bool)

  /** A transfer request. There is no nonce: the four fields are all the request carries. */
  datatype Transfer = Transfer(fromAccount: seq<u8>, toAccount: seq<u8>, amount: u64, signature: seq<u8>)

  /** `transfer_error::Code`. */
  datatype Code = Unknown | AccountNotFound | FrozenAccount | InvalidSignature | InsufficientBalance | BalanceOverflow

  datatype TransferError = TransferError(code: Code, message: string)

  /** A transfer outcome: `error == None` means the transfer was applied. */
  datatype TransferResult = TransferResult(error: Option<TransferError>)

  datatype CreateAccountReq = CreateAccountReq(name: string, balance: u64)

  datatype CreateAccountResponse = CreateAccountResponse(account: Option<Account>, privateKey: seq<u8>)

  datatype FreezeAccountResponse = FreezeAccountResponse(success: bool, message: string)

  datatype UnfreezeAccountResponse = UnfreezeAccountResponse(success: bool, message: string)

  /** The RPC-level error status; the handlers only ever produce `not_found`. */
  datatype Status = NotFound(message: string)

  /** A handler's return value `Result<Response<T>, Status>`. */
  datatype Result<+T> = Ok(value: T) | Err(status: Status)
}
