# Fuzz-harness account table (openbook-v2)

This project models `AccountsState`, the openbook-v2 fuzz harness's in-memory
account table, and proves properties of the model. The table maps a 32-byte
address to an account record: lamports, data bytes, owner, executable flag
and rent epoch. The fuzz driver uses it in three steps:

1. It seeds records with `insert` and the `add_*` builders.
2. It projects the account metas of one instruction into an ordered list of
   per-call views with `account_infos`.
3. It runs the program under test on those views, then folds changed
   lamports and data back into the table with `update`.

Files:

- `solana.dfy` (module `Solana`): the runtime values. These are `U8`, `U64`,
  `Pubkey`, the stored `Account`, the request `AccountMeta` and the per-call
  view `AccountInfo`, plus the well-known program IDs.
- `spl_token.dfy` (module `SplToken`): the logical SPL Token records that the
  builders seed (`TokenAccount`, `Mint`) and their packed lengths.
- `accounts_state.dfy` (module `Harness`): the class `AccountsState` with a
  field `accounts: map<Pubkey, Account>`. It also holds the specification of
  write-back (`WriteBack`), the canned records the builders insert, and the
  lemmas.

Design points:

- `insert` and the builders are methods that reassign the map field.
  Each `&mut Self` result is an out-parameter `chain` equal to `this`.
- `account_infos` only reads the table, so it is a class function
  (`reads this`). Its missing-key `unwrap()` panic is modelled as an explicit
  error result, `Failure(MissingAccount(k))`. Here `k` is the first
  requested key that has no record, because the Rust iterator stops at the
  first failed lookup.
- `update` is a method whose loop follows the source's `for_each`. It is
  proved equal to the fold `WriteBack`. Its missing-key panic is a
  `requires`: the panic aborts the whole harness run, so the table's state
  after a partial update is never observed.
- External collaborators become parameters:
  - `Rent::default().minimum_balance` is `minimumBalance: nat -> U64`.
  - `size_of::<T>()` is `size: nat`.
  - SPL Token's `Pack::pack` is `pack: TokenAccount -> seq<U8>` or
    `pack: Mint -> seq<U8>`. Each builder requires that `pack` fills the
    fixed-length buffer, which is the codec's own contract. Given that
    buffer length, the source's `unwrap()` on `pack` cannot fail.

## Model

| member | source | states |
|---|---|---|
| `Harness.AccountsState.constructor` | programs/openbook-v2/fuzz/src/accounts_state.rs:14-16 | `new()` creates an empty table |
| `Harness.AccountsState.Default` | programs/openbook-v2/fuzz/src/accounts_state.rs:18-20 | `default()` is the same as `new()`: an empty table |
| `Harness.AccountsState.Insert` | programs/openbook-v2/fuzz/src/accounts_state.rs:22-24 | after `insert(k, a)` the record at `k` is `a`, replacing any earlier record without error; the key set grows by `k` alone and every other key keeps its record |
| `Harness.AccountsState.AccountInfos` | programs/openbook-v2/fuzz/src/accounts_state.rs:26-47 | the projection succeeds exactly when every meta's key is stored; on success it returns one view per meta, in the same order, and view i carries meta i's key and signer/writable flags together with the stored lamports, data, owner, executable flag and rent epoch of that key; on failure it names a missing key, which is the first meta whose key is absent, and no record is created; the table is only read |
| `Harness.WriteBackOne` | programs/openbook-v2/fuzz/src/accounts_state.rs:51-57 | folding one view back keeps the key set, sets that key's lamports and data to the view's, keeps its owner, executable flag and rent epoch, and leaves every other record unchanged |
| `Harness.WriteBack` | programs/openbook-v2/fuzz/src/accounts_state.rs:49-58 | folding a list of views back in order keeps the set of keys and every record's owner, executable flag and rent epoch, whatever the views carry in those fields |
| `Harness.AccountsState.Update` | programs/openbook-v2/fuzz/src/accounts_state.rs:49-59 | `update(infos)`, given that every info's key is stored, leaves the table equal to `WriteBack` of the old table and `infos` |
| `Harness.WriteBackLastWins` | programs/openbook-v2/fuzz/src/accounts_state.rs:49-58 | after write-back, a key's record is its old record with the lamports and data of the last view carrying that key |
| `Harness.WriteBackUntouched` | programs/openbook-v2/fuzz/src/accounts_state.rs:49-58 | after write-back, a key that no view names keeps its old record |
| `Harness.WriteBackUnchanged` | programs/openbook-v2/fuzz/src/accounts_state.rs:51-57 | views whose lamports and data agree with the stored record leave the table identical |
| `Harness.WriteBackOneGuardUnobservable` | programs/openbook-v2/fuzz/src/accounts_state.rs:54-57 | the "only when lamports or data differ" guard has no observable effect: it gives the same table as an unconditional write of both fields |
| `Harness.ProjectThenUpdateIsIdentity` | programs/openbook-v2/fuzz/src/accounts_state.rs:31-58 | when a projection succeeds, writing its unmodified views back leaves the table identical |
| `Harness.ProgramAccount` | programs/openbook-v2/fuzz/src/accounts_state.rs:64 | the program record has 0 lamports, empty data, owner the BPF loader, executable set and the default rent epoch |
| `Harness.AccountsState.AddProgram` | programs/openbook-v2/fuzz/src/accounts_state.rs:61-67 | `add_program(k)` inserts the program record at `k`, leaves the rest of the table unchanged and returns the same table for chaining |
| `Harness.SystemAccount` | programs/openbook-v2/fuzz/src/accounts_state.rs:72-78 | the wallet record holds the given lamports, has empty data and is owned by the system program; it is not executable and has the default rent epoch |
| `Harness.AccountsState.AddAccountWithLamports` | programs/openbook-v2/fuzz/src/accounts_state.rs:69-81 | `add_account_with_lamports(k, l)` inserts that wallet record at `k`, leaves the rest of the table unchanged and returns the same table |
| `Harness.RentExemptAccount` | programs/openbook-v2/fuzz/src/accounts_state.rs:90-98 | a record built this way holds exactly the minimum balance for its own data length; it is not executable and has the default rent epoch |
| `SplToken.InitializedTokenAccount` | programs/openbook-v2/fuzz/src/accounts_state.rs:85-88 | the seeded token record is initialized and has the given mint and owner; every other field keeps its default (zero amount, no delegate, not native, zero delegated amount, no close authority) |
| `Harness.AccountsState.AddTokenAccount` | programs/openbook-v2/fuzz/src/accounts_state.rs:83-101 | `add_token_account(k, owner, mint)` inserts, at `k`, the packed initialized token record; its data is `TokenAccountLen` bytes long, its lamports are the minimum balance for that length and it is owned by SPL Token |
| `SplToken.InitializedMint` | programs/openbook-v2/fuzz/src/accounts_state.rs:105-106 | the seeded mint is initialized; it has no authorities, zero supply and zero decimals |
| `Harness.AccountsState.AddMint` | programs/openbook-v2/fuzz/src/accounts_state.rs:103-119 | `add_mint(k)` inserts, at `k`, the packed initialized mint; its data is `MintLen` bytes long, its lamports are the minimum balance for that length and it is owned by SPL Token |
| `Harness.OpenbookAccount` | programs/openbook-v2/fuzz/src/accounts_state.rs:122-131 | the openbook record's data is 8 + size bytes, all zero, and its lamports are the minimum balance for that length; it is owned by openbook-v2, is not executable and has the default rent epoch |
| `Harness.AccountsState.AddOpenbookAccount` | programs/openbook-v2/fuzz/src/accounts_state.rs:121-134 | `add_openbook_account::<T>(k)` inserts that zero-filled record at `k`, leaves the rest of the table unchanged and returns the same table |

## Left out

- Arena allocation (`bumpalo::Bump`), the `AccountInfo` lifetimes and the `RefCell` borrows are left out. A view is a plain value that holds a copy of the record's fields. A program's changes to a view are modelled by handing `Update` views with new lamports or data. Aliasing between a view and the arena is not modelled.
- SPL Token's packed byte layouts are not part of this model. `Pack::pack` is a parameter, so decoding the stored bytes back into a token record is not stated here.
- `Rent::default().minimum_balance` is a parameter. Its formula (a floating-point product) is not part of this model.
- `std::mem::size_of::<T>()` is a parameter. The generic type `T` is not modelled.
- `HashMap` hashing and iteration order are left out. The table is a Dafny `map`, whose keys have no order.
- The real bytes of the system program, BPF loader, SPL Token and openbook-v2 IDs are left out. They are placeholder keys that differ from each other.
- `Harness.AccountsState.Update`: a key with no record panics in the source. Here that is a precondition, and partial writes before the panic are not modelled.
- The program entry point that receives the views and the fuzz driver loop are not part of this model.
