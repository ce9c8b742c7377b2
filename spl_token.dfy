/**
 The logical records of the SPL Token program that the table's builders
 seed: a token account and a mint, their derived `Default` values and their
 packed lengths. The byte layout itself belongs to SPL Token's `Pack`
 codec, which the builders take as a parameter.
 */
module SplToken {
  import opened Solana

  /** Packed length of a token account (`spl_token::state::Account::LEN`). */
  const TokenAccountLen: nat := 165

  /** Packed length of a mint (`spl_token::state::Mint::LEN`). */
  const MintLen: nat := 82

  datatype AccountState = Uninitialized | Initialized | Frozen

  datatype TokenAccount = TokenAccount(
    mint: Pubkey,
    owner: Pubkey,
    amount: U64,
    delegate: Option<Pubkey>,
    state: AccountState,
    isNative: Option<U64>,
    delegatedAmount: U64,
    closeAuthority: Option<Pubkey>)

  datatype Mint = Mint(
    mintAuthority: Option<Pubkey>,
    supply: U64,
    decimals: U8,
    isInitialized: bool,
    freezeAuthority: Option<Pubkey>)

  /** `TokenAccount::default()`: zero keys and amounts, no options, uninitialized. */
  function DefaultTokenAccount(): TokenAccount
  {
    TokenAccount(DefaultPubkey(), DefaultPubkey(), 0, None, Uninitialized, None, 0, None)
  }

  /** `Mint::default()`: no authorities, zero supply and decimals, uninitialized. */
  function DefaultMint(): Mint
  {
    Mint(None, 0, 0, false, None)
  }

  /**
   The token account the harness seeds: the default record marked
   initialized, with the given mint and owner and nothing else set.
   */
  function InitializedTokenAccount(owner: Pubkey, mint: Pubkey): (t: TokenAccount)
    ensures t.state == Initialized && t.mint == mint && t.owner == owner
    ensures t.amount == 0 && t.delegate == None && t.isNative == None
    ensures t.delegatedAmount == 0 && t.closeAuthority == None
  {
    DefaultTokenAccount().(state := Initialized, mint := mint, owner := owner)
  }

  /** The mint the harness seeds: the default record marked initialized. */
  function InitializedMint(): (m: Mint)
    ensures m.isInitialized
    ensures m.mintAuthority == None && m.freezeAuthority == None
    ensures m.supply == 0 && m.decimals == 0
  {
    DefaultMint().(isInitialized := true)
  }
}
