/**
 The runtime values the account table works with: fixed-width integers,
 32-byte addresses, the stored account record, the per-call account meta and
 the per-call account view handed to a program entry point.
 */
module Solana {

  /** An unsigned byte. */
  type U8 = x: int | 0 <= x < 0x100

  /** An unsigned 64-bit integer (lamport counts, epochs). */
  type U64 = x: int | 0 <= x < 0x1_0000_0000_0000_0000

  /** A 32-byte public key naming an account. */
  type Pubkey = s: seq<U8> | |s| == 32 witness seq(32, _ => 0)

  datatype Option<+T> = None | Some(value: T)

  datatype Result<+R, +E> = Success(value: R) | Failure(error: E)

  /** The all-zero key, `Pubkey::default()`. */
  function DefaultPubkey(): Pubkey
  {
    seq(32, _ => 0)
  }

  /**
   A key whose first byte is `tag` and whose other bytes are zero. The
   well-known program IDs below are such placeholder keys: only their
   distinctness matters to the account table.
   */
  function TaggedKey(tag: U8): (k: Pubkey)
    ensures k[0] == tag
  {
    [tag] + seq(31, _ => 0)
  }

  const SystemProgramId: Pubkey := TaggedKey(1)
  const BpfLoaderId: Pubkey := TaggedKey(2)
  const SplTokenId: Pubkey := TaggedKey(3)
  const OpenbookId: Pubkey := TaggedKey(4)

  /** `Epoch::default()`. */
  const DefaultEpoch: U64 := 0

  /** A stored account record (`solana_sdk::account::Account`). */
  datatype Account = Account(
    lamports: U64,
    data: seq<U8>,
    owner: Pubkey,
    executable: bool,
    rentEpoch: U64)

  /** An address requested by an instruction, with its access flags. */
  datatype AccountMeta = AccountMeta(pubkey: Pubkey, isSigner: bool, isWritable: bool)

  /**
   The per-call view of one account handed to the program entry point. The
   program may change `lamports` and `data`; the other fields are read-only
   for it.
   */
  datatype AccountInfo = AccountInfo(
    key: Pubkey,
    isSigner: bool,
    isWritable: bool,
    lamports: U64,
    data: seq<U8>,
    owner: Pubkey,
    executable: bool,
    rentEpoch: U64)
}
