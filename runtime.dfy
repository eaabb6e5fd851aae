/**
 * The pieces of the host runtime's program interface that the counter program
 * touches: account handles, the account iterator and the error type.
 */
module Runtime {
  import opened Primitives
  import Borsh

  /** An account address or program identifier. */
  datatype Pubkey = Pubkey(bytes: seq<u8>)

  /** The program errors this handler can return. */
  datatype ProgramError =
    | NotEnoughAccountKeys            // the account list ran out
    | BorshIoError(cause: Borsh.IoError)  // a decode or encode of account data failed

  type ProgramResult = Result<(), ProgramError>

  /**
   * An account handle. Its data buffer keeps its length; only its bytes can be
   * overwritten. Two handles in one account list may share the same buffer.
   */
  class AccountInfo {
    const owner: Pubkey
    const data: array<u8>

    constructor (owner: Pubkey, init: seq<u8>)
      ensures this.owner == owner && fresh(data) && data[..] == init
    {
      this.owner := owner;
      data := new u8[|init|](i requires 0 <= i < |init| => init[i]);
    }
  }

  /** `next_account_info`: the next handle and the rest of the list, or NotEnoughAccountKeys. */
  function NextAccountInfo(accounts: seq<AccountInfo>): (r: Result<(AccountInfo, seq<AccountInfo>), ProgramError>)
    ensures r.Err? <==> accounts == []
    ensures r.Err? ==> r.error == NotEnoughAccountKeys
    ensures r.Ok? ==> accounts == [r.value.0] + r.value.1
  {
    if |accounts| == 0 then Err(NotEnoughAccountKeys) else Ok((accounts[0], accounts[1..]))
  }
}
