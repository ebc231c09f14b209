/**
 * The program entry point's validation and dispatch
 * (contract/src/processor.rs:266-311), and the list instructions'
 * choice of table slice (contract/src/processor.rs:138-184).
 */
module Processor {
  import opened Wrappers
  import opened Identity
  import opened Instruction
  import opened TableBuffer

  /** What the entry point reads of an account: its key and whether it signed. */
  datatype AccountInfo = AccountInfo(key: PublicKey, isSigner: bool)

  /** The signing user, the program account, and every account after them. */
  datatype Context = Context(user: AccountInfo, program: AccountInfo, others: seq<AccountInfo>)

  /** The eight handler functions of processor.rs. */
  datatype Handler =
    | InitTableHandler
    | DeleteTableHandler
    | AddBootstrapHandler
    | RemoveBootstrapHandler
    | AddChannelHandler
    | RemoveChannelHandler
    | AddSeatHandler
    | RemoveSeatHandler

  /** A validated call: the handler chosen, the context it gets, and the decoded instruction. */
  datatype Call = Call(handler: Handler, context: Context, instruction: RoundNetInstruction)

  /** The handler `process_instruction` dispatches each instruction variant to. */
  function HandlerOf(ins: RoundNetInstruction): Handler
  {
    match ins
    case InitTable(_) => InitTableHandler
    case DeleteTable => DeleteTableHandler
    case AddBootstrap(_) => AddBootstrapHandler
    case RemoveBootstrap(_) => RemoveBootstrapHandler
    case AddChannel(_) => AddChannelHandler
    case RemoveChannel(_) => RemoveChannelHandler
    case AddSeat(_) => AddSeatHandler
    case RemoveSeat => RemoveSeatHandler
  }

  /** The variant each handler serves: the inverse of the dispatch. */
  predicate Serves(h: Handler, ins: RoundNetInstruction)
  {
    match h
    case InitTableHandler => ins.InitTable?
    case DeleteTableHandler => ins.DeleteTable?
    case AddBootstrapHandler => ins.AddBootstrap?
    case RemoveBootstrapHandler => ins.RemoveBootstrap?
    case AddChannelHandler => ins.AddChannel?
    case RemoveChannelHandler => ins.RemoveChannel?
    case AddSeatHandler => ins.AddSeat?
    case RemoveSeatHandler => ins.RemoveSeat?
  }

  /** Every instruction goes to exactly one handler, and that handler serves its variant. */
  lemma DispatchIsExact(ins: RoundNetInstruction, h: Handler)
    ensures Serves(h, ins) <==> h == HandlerOf(ins)
  {
  }

  /**
   * `process_instruction`. `decoded` is the Borsh decoding of the input
   * bytes (None when it fails). The checks run in order: at least two
   * accounts, a signing first account, the program as second account, a
   * decodable instruction; the first that fails decides the error.
   */
  method ProcessInstruction(programId: PublicKey, accounts: seq<AccountInfo>, decoded: Option<RoundNetInstruction>)
    returns (r: Result<Call, Errors>)
    ensures r == Failure(MissingBaseAccounts) <==> |accounts| < 2
    ensures r == Failure(Account0MustBeSigner) <==> |accounts| >= 2 && !accounts[0].isSigner
    ensures r == Failure(Account1MustBeProgramID) <==>
      |accounts| >= 2 && accounts[0].isSigner && accounts[1].key != programId
    ensures r == Failure(FailedToDeserialiseInstruction) <==>
      |accounts| >= 2 && accounts[0].isSigner && accounts[1].key == programId && decoded.None?
    ensures r.Success? <==>
      |accounts| >= 2 && accounts[0].isSigner && accounts[1].key == programId && decoded.Some?
    ensures r.Success? ==>
      decoded.Some? && |accounts| >= 2
      && r.value.context == Context(accounts[0], accounts[1], accounts[2..])
      && r.value.instruction == decoded.value
      && r.value.handler == HandlerOf(decoded.value)
      && Serves(r.value.handler, decoded.value)
  {
    if |accounts| < 2 {
      return Failure(MissingBaseAccounts);
    }
    var userAcc := accounts[0];
    if !userAcc.isSigner {
      return Failure(Account0MustBeSigner);
    }
    var programAcc := accounts[1];
    if programAcc.key != programId {
      return Failure(Account1MustBeProgramID);
    }
    var context := Context(userAcc, programAcc, accounts[2..]);
    if decoded.None? {
      return Failure(FailedToDeserialiseInstruction);
    }
    var instruction := decoded.value;
    r := Success(Call(HandlerOf(instruction), context, instruction));
  }

  const SERVERS_START: nat := 0
  const CHANNELS_START: nat := 512
  const CHANNELS_END: nat := 1024

  predicate IsListInstruction(ins: RoundNetInstruction)
  {
    ins.AddBootstrap? || ins.RemoveBootstrap? || ins.AddChannel? || ins.RemoveChannel?
  }

  /** Bootstrap servers live in bytes 0..512 of the table data, channels in 512..1024. */
  function SliceOf(ins: RoundNetInstruction): (bounds: (nat, nat))
    requires IsListInstruction(ins)
    ensures bounds.1 - bounds.0 == 512 && bounds.1 <= CHANNELS_END
    ensures bounds.0 == CHANNELS_START <==> ins.AddChannel? || ins.RemoveChannel?
  {
    if ins.AddBootstrap? || ins.RemoveBootstrap? then (SERVERS_START, CHANNELS_START)
    else (CHANNELS_START, CHANNELS_END)
  }

  /** The entry argument of a list instruction. */
  function ListArg(ins: RoundNetInstruction): Bytes128
    requires IsListInstruction(ins)
  {
    match ins
    case AddBootstrap(b) => b
    case RemoveBootstrap(b) => b
    case AddChannel(c) => c
    case RemoveChannel(c) => c
  }

  /**
   * The list handlers past their table-account check: `str_buf_add` or
   * `str_buf_rm` on the instruction's slice of the table data. The other
   * list and the bytes after it are never touched.
   */
  method ApplyListInstruction(data: array<byte>, ins: RoundNetInstruction) returns (r: Result<(), Errors>)
    requires IsListInstruction(ins) && data.Length >= CHANNELS_END
    requires ValidUtf8(data[SliceOf(ins).0..SliceOf(ins).1]) && ValidUtf8(ListArg(ins))
    modifies data
    ensures var (lo, hi) := SliceOf(ins);
      data[..lo] == old(data[..lo]) && data[hi..] == old(data[hi..])
    ensures var (lo, hi) := SliceOf(ins);
      var outcome := if ins.AddBootstrap? || ins.AddChannel?
        then StrBufAdded(old(data[lo..hi]), ListArg(ins))
        else StrBufRemoved(old(data[lo..hi]), ListArg(ins));
      (outcome.Failure? ==> r == Failure(outcome.error) && data[..] == old(data[..]))
      && (outcome.Success? ==> r == Success(()) && data[lo..hi] == outcome.value)
  {
    var (lo, hi) := SliceOf(ins);
    ghost var before := data[..];
    if ins.AddBootstrap? || ins.AddChannel? {
      r := StrBufAdd(data, lo, hi, ListArg(ins));
    } else {
      r := StrBufRm(data, lo, hi, ListArg(ins));
    }
    assert before[..lo] == old(data[..lo]) && before[hi..] == old(data[hi..]);
  }
}
