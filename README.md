# Counter program model

A Dafny model of a minimal on-chain counter program for the Solana runtime.
The program keeps one record, `Account { counter: u32 }`, in the data buffer
of an account. Each invocation of its only instruction handler,
`process_instruction`, does four things:

1. takes the first account of the account list;
2. decodes the account's data as the Borsh encoding of the record, which is
   the counter as four little-endian bytes;
3. adds one to the counter;
4. writes the new encoding back over the same buffer, in place.

Files and modules:

- `primitives.dfy` (`Primitives`): `u8`, `u32` and Rust's `Result`.
- `borsh.dfy` (`Borsh`): the `u32` little-endian codec. It has a reference
  meaning (`LeValue`), `to_le_bytes` / `from_le_bytes`, the slice reader
  (`DeserializeU32`) and the slice writer. The writer is given as a function
  (`WriteAll`) and as an in-place method on an array (`WriteAllToSlice`).
- `runtime.dfy` (`Runtime`): the pieces of the host interface that the handler
  uses. These are `Pubkey`, `ProgramError`, the `AccountInfo` class (its data
  buffer is an `array<u8>` of fixed length) and `next_account_info`.
- `counter.dfy` (`Counter`): the record and its derived codec, the increment,
  the handler's effect on the first buffer as a function (`Step`) and the
  handler itself as a method (`ProcessInstruction`).
- `properties.dfy` (`CounterProperties`): round trips, wrap-around, repeated
  calls, non-idempotence, the recorded two-call scenario, and independence from
  the program id and the owner.

Modelling decisions:

- **Overflow.** The increment wraps modulo 2^32. This is the behaviour of a
  release build without overflow checks. `0xFFFF_FFFF` becomes `0` and no
  error is raised.
- **Decode length.** `try_from_slice` reads the `u32` and then rejects any
  leftover bytes. So decoding succeeds on exactly four bytes, not on "at least
  four". Fewer bytes give `UnexpectedLength`; more give `NotAllBytesRead`.
- **Write.** Serialization writes into the existing slice through `write_all`
  on `&mut [u8]`. That copies as many bytes as fit and fails with `WriteZero`
  if some do not fit. The slice is never resized. This failure is part of the
  model. `StepWriteNeverFails` proves it cannot happen in the handler, because
  decoding has already fixed the length at four.
- **Aliasing.** Two entries of the account list may share one data buffer.
  `ProcessInstruction` promises that a later account's bytes are unchanged
  only when its buffer is a different array from the first account's.
- The program id, the account owner and the instruction data are parameters
  that the handler never reads. The ownership check is disabled in the source,
  and the model has none.

## Model

| member | source | states |
|---|---|---|
| Borsh.ToLeBytes | program/src/lib.rs:13-17 | the encoding of a `u32` field is exactly four bytes whose little-endian value is the field |
| Borsh.FromLeBytes | program/src/lib.rs:13-17 | four bytes decode to their little-endian value, which always fits in a `u32` |
| Borsh.LeValueInjective | program/src/lib.rs:13-17 | two byte strings of equal length with the same little-endian value are equal, so the encoding is unique |
| Borsh.FromToLeBytes | program/src/lib.rs:13-17 | decoding the encoding of any `u32` gives it back |
| Borsh.ToFromLeBytes | program/src/lib.rs:13-17 | encoding the decoded value of any four bytes reproduces them byte for byte |
| Borsh.DeserializeU32 | program/src/lib.rs:34 | reading a `u32` from a slice succeeds iff at least four bytes remain; on success the slice is the value's encoding followed by the rest; otherwise the error is UnexpectedLength |
| Borsh.WriteAll | program/src/lib.rs:36 | writing into a slice keeps its length, succeeds iff the bytes fit, overwrites exactly the front of the slice and leaves the tail; if they do not fit it writes what fits and fails with WriteZero |
| Borsh.WriteAllToSlice | program/src/lib.rs:36 | the in-place write on the data array leaves the array and the result exactly as WriteAll describes |
| Runtime.AccountInfo.constructor | program/src/lib.rs:58-67 | a new account handle has the given owner and a fresh data buffer holding the given bytes |
| Runtime.NextAccountInfo | program/src/lib.rs:26-27 | taking the next account fails with NotEnoughAccountKeys iff the list is empty; otherwise it yields the first account and the rest |
| Counter.Serialize | program/src/lib.rs:13-17 | the record encodes to four bytes whose little-endian value is its counter |
| Counter.TryFromSlice | program/src/lib.rs:34 | decoding succeeds iff the buffer is exactly four bytes, and then re-encoding the record gives the buffer back; a short buffer gives UnexpectedLength and a long one NotAllBytesRead |
| Counter.SerializeInjective | program/src/lib.rs:13-17 | two records with the same encoding are equal |
| Counter.WrappingIncrement | program/src/lib.rs:35 | `counter += 1` adds one below `u32::MAX` and wraps `u32::MAX` to zero |
| Counter.Step | program/src/lib.rs:34-37 | the handler's effect on the first buffer keeps its length; it succeeds iff the buffer is four bytes and then stores the incremented counter; every error leaves the bytes untouched, with UnexpectedLength for short and NotAllBytesRead for long buffers |
| Counter.ProcessInstruction | program/src/lib.rs:21-38 | an empty account list fails with NotEnoughAccountKeys and writes nothing; otherwise the result and the first account's new bytes are those of Step on its old bytes; only the first account's buffer may change, so program id, owner and instruction data have no effect |
| CounterProperties.DecodeEncode | program/src/lib.rs:13-17 | decoding the encoding of any record gives that record back |
| CounterProperties.StepIncrements | program/src/lib.rs:34-36 | a buffer that decodes to counter `c` is accepted, and afterwards it decodes to `c + 1` modulo 2^32 |
| CounterProperties.StepWrapsAtMax | program/src/lib.rs:35 | the buffer `[FF, FF, FF, FF]` succeeds and becomes `[0, 0, 0, 0]` |
| CounterProperties.StepWriteNeverFails | program/src/lib.rs:36 | the handler never fails at the write step |
| CounterProperties.RepeatIncrements | program/src/lib.rs:80-96 | calls add up: `n` invocations in a row on a four-byte buffer keep it four bytes and increment its counter `n` times, which IncrementTimesAdds shows is adding `n` modulo 2^32 |
| CounterProperties.IncrementTimesAdds | program/src/lib.rs:35 | incrementing `n` times with wrap-around adds `n` modulo 2^32 |
| CounterProperties.StepNotIdempotent | program/src/lib.rs:80-96 | a second invocation always changes a four-byte buffer again |
| CounterProperties.ZeroThenOneThenTwo | program/src/lib.rs:54 | from a zeroed buffer one call gives `[1, 0, 0, 0]` and a second gives `[2, 0, 0, 0]`, both successfully |
| CounterProperties.SanityScenario | program/src/lib.rs:46-97 | on a fresh zeroed four-byte account two calls succeed and the decoded counter reads 0, then 1, then 2 |
| CounterProperties.OutcomeIgnoresOwnerAndProgramId | program/src/lib.rs:29-32 | starting from the same bytes, invocations under different program ids, owners and instruction data give the same result and the same bytes |

## Left out

- The `entrypoint!` registration (program/src/lib.rs:19): it only hands the handler to the host runtime.
- The `msg!` import (program/src/lib.rs:8): logging is not used by live code.
- `AccountInfo` fields other than the data buffer and the owner (key, lamports, signer and writable flags, executable flag, rent epoch): the handler never reads them.
- `RefCell` borrow tracking on the data buffer: the read borrow ends before the write borrow starts, so the buffer is a plain array here.
- Resizing account data: the buffer is an array of fixed length, as the handler never reallocates it.
- Borsh as a general library: only the `u32` little-endian encoding used by the record is modelled.
- The mapping from `io::Error` to `ProgramError`: the model keeps the error kind (`BorshIoError(UnexpectedLength)` and so on) and not the message text that the library puts in the error.
- Counter.WrappingIncrement: models the release build, which wraps; a build with overflow checks would panic on `u32::MAX` instead, and that panic is not modelled.
- The disabled ownership check (program/src/lib.rs:29-32): the model reflects its absence and does not offer it as an option.
- The host's rollback of account changes after a failed call: it is never needed, because every error exit comes before the write.
- `Pubkey` values are byte strings of any length: the 32-byte size of a real key plays no part in the handler.
