/**
 * The on-chain program's instruction set and its custom error codes
 * (contract/src/instruction.rs). Arguments arrive Borsh-encoded; the
 * decoding itself is not modelled, only the decoded values.
 */
module Instruction {
  import opened Wrappers
  import opened Identity

  /** One byte of account or instruction data. */
  type byte = b: int | 0 <= b < 256

  /** A fixed `[u8; 128]` instruction argument. */
  type Bytes128 = s: seq<byte> | |s| == 128 witness seq(128, _ => 0)

  /** The program's custom errors, numbered from 0 in declaration order. */
  datatype Errors =
    | MissingBaseAccounts
    | Account0MustBeSigner
    | Account1MustBeProgramID
    | FailedToDeserialiseInstruction
    | BadTableAccount
    | BadSeatAccount
    | FailedToDeserialiseTableData
    | EntryAlreadyExists
    | EntryDoesntExist
    | NotAllowed
    | Error

  /** The code an error becomes under `ProgramError::Custom(error as u32)`. */
  function ErrorCode(e: Errors): (code: nat)
    ensures code <= 10
    ensures ErrorOfCode(code) == Some(e)
  {
    match e
    case MissingBaseAccounts => 0
    case Account0MustBeSigner => 1
    case Account1MustBeProgramID => 2
    case FailedToDeserialiseInstruction => 3
    case BadTableAccount => 4
    case BadSeatAccount => 5
    case FailedToDeserialiseTableData => 6
    case EntryAlreadyExists => 7
    case EntryDoesntExist => 8
    case NotAllowed => 9
    case Error => 10
  }

  /** Reading a custom error code back, as a client decoding a failed transaction would. */
  function ErrorOfCode(code: nat): Option<Errors>
  {
    if code == 0 then Some(MissingBaseAccounts)
    else if code == 1 then Some(Account0MustBeSigner)
    else if code == 2 then Some(Account1MustBeProgramID)
    else if code == 3 then Some(FailedToDeserialiseInstruction)
    else if code == 4 then Some(BadTableAccount)
    else if code == 5 then Some(BadSeatAccount)
    else if code == 6 then Some(FailedToDeserialiseTableData)
    else if code == 7 then Some(EntryAlreadyExists)
    else if code == 8 then Some(EntryDoesntExist)
    else if code == 9 then Some(NotAllowed)
    else if code == 10 then Some(Error)
    else None
  }

  /** Distinct errors are reported with distinct codes, and every code up to 10 names an error. */
  lemma ErrorCodesDistinct(a: Errors, b: Errors, code: nat)
    ensures ErrorCode(a) == ErrorCode(b) <==> a == b
    ensures code <= 10 <==> ErrorOfCode(code).Some?
  {
    if ErrorCode(a) == ErrorCode(b) {
      assert Some(a) == ErrorOfCode(ErrorCode(a)) == ErrorOfCode(ErrorCode(b)) == Some(b);
    }
  }

  datatype InitTableArgs = InitTableArgs(channelsLen: nat, serversLen: nat, authority: PublicKey, closed: bool)

  datatype RoundNetInstruction =
    | InitTable(initArgs: InitTableArgs)
    | DeleteTable
    | AddBootstrap(bootstrap: Bytes128)
    | RemoveBootstrap(bootstrap: Bytes128)
    | AddChannel(channel: Bytes128)
    | RemoveChannel(channel: Bytes128)
    | AddSeat(channelKey: PublicKey)
    | RemoveSeat
}
