/**
 * The counter program: one account record holding a `u32` counter, and the
 * instruction handler that loads it from the first account's data buffer,
 * adds one and stores it back in place.
 */
module Counter {
  import opened Primitives
  import opened Borsh
  import opened Runtime

  /** The stored record: how many times the program has been invoked on the account. */
  datatype Account = Account(counter: u32)

  /** Derived Borsh serialization: the record's only field, little-endian. */
  function Serialize(a: Account): (bytes: seq<u8>)
    ensures |bytes| == 4 && LeValue(bytes) == a.counter as nat
  {
    ToLeBytes(a.counter)
  }

  /**
   * Derived `try_from_slice`: read one Account from the front of the slice,
   * then reject the slice if any byte is left over.
   */
  function TryFromSlice(v: seq<u8>): (r: Result<Account, IoError>)
    ensures r.Ok? <==> |v| == 4
    ensures r.Ok? ==> Serialize(r.value) == v
    ensures |v| < 4 ==> r == Err(UnexpectedLength)
    ensures |v| > 4 ==> r == Err(NotAllBytesRead)
  {
    match DeserializeU32(v)
    case Err(e) => Err(e)
    case Ok((counter, rest)) =>
      if |rest| == 0 then Ok(Account(counter)) else Err(NotAllBytesRead)
  }

  /** `counter += 1` in a build without overflow checks: adds one modulo 2^32. */
  function WrappingIncrement(x: u32): (r: u32)
    ensures x < U32_MAX ==> r as int == x as int + 1
    ensures x == U32_MAX ==> r == 0
  {
    ((x as int + 1) % 0x1_0000_0000) as u32
  }

  /** What one invocation does to the first account's buffer: its result and the new bytes. */
  datatype Effect = Effect(result: ProgramResult, data: seq<u8>)

  /**
   * The handler's work on the first account's data, as a function of the old
   * bytes: decode, increment, write the encoding back into the same buffer.
   * Each error is returned before anything is written.
   */
  function Step(data: seq<u8>): (e: Effect)
    ensures |e.data| == |data|
    ensures e.result.Ok? <==> |data| == 4
    ensures e.result.Err? ==> e.data == data
    ensures |data| < 4 ==> e.result == Err(BorshIoError(UnexpectedLength))
    ensures |data| > 4 ==> e.result == Err(BorshIoError(NotAllBytesRead))
    ensures e.result.Ok? ==>
      TryFromSlice(e.data) == Ok(Account(WrappingIncrement(TryFromSlice(data).value.counter)))
  {
    match TryFromSlice(data)
    case Err(err) => Effect(Err(BorshIoError(err)), data)
    case Ok(greeting) =>
      var updated := greeting.(counter := WrappingIncrement(greeting.counter));
      var (written, bytes) := WriteAll(data, Serialize(updated));
      match written
      case Err(err) => Effect(Err(BorshIoError(err)), bytes)
      case Ok(_) =>
        assert bytes == Serialize(updated);
        SerializeInjective(updated, TryFromSlice(bytes).value);
        Effect(Ok(()), bytes)
  }

  /** Two records with the same encoding are the same record. */
  lemma SerializeInjective(a: Account, b: Account)
    requires Serialize(a) == Serialize(b)
    ensures a == b
  {
  }

  /**
   * `process_instruction`: take the first account, decode its data, add one to
   * the counter and overwrite the data in place. The program id, the account's
   * owner and the instruction data are not consulted (the ownership check is
   * disabled). Only the first account's buffer may change.
   */
  method ProcessInstruction(programId: Pubkey, accounts: seq<AccountInfo>, instructionData: seq<u8>)
    returns (r: ProgramResult)
    modifies if accounts == [] then {} else {accounts[0].data}
    ensures accounts == [] ==> r == Err(NotEnoughAccountKeys)
    ensures accounts != [] ==> r == Step(old(accounts[0].data[..])).result
    ensures accounts != [] ==> accounts[0].data[..] == Step(old(accounts[0].data[..])).data
    ensures forall i :: 0 <= i < |accounts| && accounts[i].data != accounts[0].data ==>
      accounts[i].data[..] == old(accounts[i].data[..])
  {
    var next := NextAccountInfo(accounts);
    if next.Err? {
      return Err(next.error);
    }
    var account := next.value.0;
    var decoded := TryFromSlice(account.data[..]);
    if decoded.Err? {
      return Err(BorshIoError(decoded.error));
    }
    var greeting := decoded.value;
    greeting := greeting.(counter := WrappingIncrement(greeting.counter));
    var written := WriteAllToSlice(account.data, Serialize(greeting));
    match written
    case Err(err) => r := Err(BorshIoError(err));
    case Ok(_) => r := Ok(());
  }
}
