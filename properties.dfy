/** Properties of the counter program that relate several calls or several operations. */
module CounterProperties {
  import opened Primitives
  import opened Borsh
  import opened Runtime
  import opened Counter

  /** Decoding the encoding of any record gives that record back. */
  lemma DecodeEncode(a: Account)
    ensures TryFromSlice(Serialize(a)) == Ok(a)
  {
  }

  /** A buffer holding counter `c` holds `c + 1` (mod 2^32) after one successful call. */
  lemma StepIncrements(data: seq<u8>, c: u32)
    requires TryFromSlice(data) == Ok(Account(c))
    ensures Step(data).result == Ok(())
    ensures TryFromSlice(Step(data).data) == Ok(Account(WrappingIncrement(c)))
  {
  }

  /** The largest counter wraps around to zero without an error. */
  lemma StepWrapsAtMax()
    ensures Step([0xFF, 0xFF, 0xFF, 0xFF]) == Effect(Ok(()), [0, 0, 0, 0])
  {
  }

  /** The final write of the handler never fails: decoding already fixed the length at four. */
  lemma StepWriteNeverFails(data: seq<u8>)
    ensures Step(data).result != Err(BorshIoError(WriteZero))
  {
  }

  /** The buffer after `n` invocations in a row. */
  function Repeat(n: nat, data: seq<u8>): seq<u8>
  {
    if n == 0 then data else Repeat(n - 1, Step(data).data)
  }

  /** The counter stored in a four-byte buffer. */
  function CounterOf(data: seq<u8>): u32
    requires |data| == 4
  {
    TryFromSlice(data).value.counter
  }

  /** `x` incremented `n` times with wrap-around. */
  function IncrementTimes(x: u32, n: nat): u32
    decreases n
  {
    if n == 0 then x else IncrementTimes(WrappingIncrement(x), n - 1)
  }

  /** `n` invocations in a row each succeed and increment the stored counter `n` times. */
  lemma {:induction false} RepeatIncrements(n: nat, data: seq<u8>)
    requires |data| == 4
    ensures |Repeat(n, data)| == 4
    ensures CounterOf(Repeat(n, data)) == IncrementTimes(CounterOf(data), n)
  {
    if n > 0 {
      RepeatIncrements(n - 1, Step(data).data);
    }
  }

  /** Incrementing `n` times with wrap-around adds `n` modulo 2^32. */
  lemma {:induction false} IncrementTimesAdds(x: u32, n: nat)
    decreases n
    ensures IncrementTimes(x, n) as int == (x as int + n) % 0x1_0000_0000
  {
    if n > 0 {
      IncrementTimesAdds(WrappingIncrement(x), n - 1);
      var m := 0x1_0000_0000;
      if x == U32_MAX {
        assert x as int + n == m + (n - 1);
      }
    }
  }

  /** Invocations are not idempotent: a second call always changes a four-byte buffer again. */
  lemma StepNotIdempotent(data: seq<u8>)
    requires |data| == 4
    ensures Step(Step(data).data).data != Step(data).data
  {
  }

  /** From a zeroed buffer, two calls give `[1, 0, 0, 0]` and then `[2, 0, 0, 0]`. */
  lemma ZeroThenOneThenTwo()
    ensures Step([0, 0, 0, 0]) == Effect(Ok(()), [1, 0, 0, 0])
    ensures Step([1, 0, 0, 0]) == Effect(Ok(()), [2, 0, 0, 0])
  {
  }

  /**
   * The sanity scenario: a fresh account with a zeroed four-byte buffer is
   * invoked twice; both calls succeed and the decoded counter reads 0, then 1, then 2.
   */
  method SanityScenario() returns (before: u32, first: ProgramResult, afterOne: u32,
                                   second: ProgramResult, afterTwo: u32)
    ensures before == 0 && afterOne == 1 && afterTwo == 2
    ensures first == Ok(()) && second == Ok(())
  {
    var programId := Pubkey([]);
    var account := new AccountInfo(Pubkey([]), [0, 0, 0, 0]);
    var accounts := [account];
    ZeroThenOneThenTwo();
    before := TryFromSlice(account.data[..]).value.counter;
    first := ProcessInstruction(programId, accounts, []);
    afterOne := TryFromSlice(account.data[..]).value.counter;
    second := ProcessInstruction(programId, accounts, []);
    afterTwo := TryFromSlice(account.data[..]).value.counter;
  }

  /**
   * With the ownership check disabled, the outcome depends on the first
   * account's bytes alone: two invocations that start from the same bytes,
   * under different program ids, owners and instruction data, return the same
   * result and leave the same bytes.
   */
  method OutcomeIgnoresOwnerAndProgramId(data: seq<u8>, ownerA: Pubkey, ownerB: Pubkey,
                                         programA: Pubkey, programB: Pubkey,
                                         instructionA: seq<u8>, instructionB: seq<u8>)
    returns (resultA: ProgramResult, afterA: seq<u8>, resultB: ProgramResult, afterB: seq<u8>)
    ensures resultA == resultB && afterA == afterB
  {
    var accountA := new AccountInfo(ownerA, data);
    var accountB := new AccountInfo(ownerB, data);
    resultA := ProcessInstruction(programA, [accountA], instructionA);
    afterA := accountA.data[..];
    resultB := ProcessInstruction(programB, [accountB], instructionB);
    afterB := accountB.data[..];
  }
}
