/**
 The fuzz harness's in-memory account table. The driver seeds records with
 `Insert` and the `Add*` builders, projects the metas of one instruction into
 per-call views with `AccountInfos`, lets the program under test change the
 views, and folds the changed lamports and data back with `Update`.
 */
module Harness {
  import opened Solana
  import opened SplToken

  type Accounts = map<Pubkey, Account>

  /** Why a projection aborts: a requested key has no stored record. */
  datatype Panic = MissingAccount(pubkey: Pubkey)

  /** `info` is the view of `account` requested through `meta`. */
  predicate IsViewOf(info: AccountInfo, meta: AccountMeta, account: Account)
  {
    && info.key == meta.pubkey
    && info.isSigner == meta.isSigner
    && info.isWritable == meta.isWritable
    && info.lamports == account.lamports
    && info.data == account.data
    && info.owner == account.owner
    && info.executable == account.executable
    && info.rentEpoch == account.rentEpoch
  }

  /** Owner, executable flag and rent epoch: the fields write-back never touches. */
  predicate SameFixedFields(a: Account, b: Account)
  {
    a.owner == b.owner && a.executable == b.executable && a.rentEpoch == b.rentEpoch
  }

  predicate AllKeysIn(infos: seq<AccountInfo>, m: Accounts)
  {
    forall i :: 0 <= i < |infos| ==> infos[i].key in m
  }

  /**
   Folds one view back into the table: the stored lamports and data are
   replaced by the view's, and only when either differs.
   */
  function WriteBackOne(m: Accounts, info: AccountInfo): (r: Accounts)
    requires info.key in m
    ensures r.Keys == m.Keys
    ensures r[info.key].lamports == info.lamports && r[info.key].data == info.data
    ensures SameFixedFields(r[info.key], m[info.key])
    ensures forall k :: k in m && k != info.key ==> r[k] == m[k]
  {
    var account := m[info.key];
    if info.lamports != account.lamports || info.data != account.data then
      m[info.key := account.(data := info.data, lamports := info.lamports)]
    else
      m
  }

  /**
   The table after folding `infos` back in order: the effect of `update`.
   The set of keys and every record's fixed fields are kept.
   */
  function WriteBack(m: Accounts, infos: seq<AccountInfo>): (r: Accounts)
    requires AllKeysIn(infos, m)
    ensures r.Keys == m.Keys
    ensures forall k :: k in m ==> SameFixedFields(r[k], m[k])
    decreases |infos|
  {
    if infos == [] then m
    else WriteBackOne(WriteBack(m, infos[..|infos| - 1]), infos[|infos| - 1])
  }

  /** A key that no view names keeps its record. */
  lemma {:induction false} WriteBackUntouched(m: Accounts, infos: seq<AccountInfo>, k: Pubkey)
    requires AllKeysIn(infos, m)
    requires k in m
    requires forall i :: 0 <= i < |infos| ==> infos[i].key != k
    ensures WriteBack(m, infos)[k] == m[k]
    decreases |infos|
  {
    if infos != [] {
      WriteBackUntouched(m, infos[..|infos| - 1], k);
    }
  }

  /**
   The last view naming a key decides that key's stored lamports and data;
   the rest of the record is what was stored before.
   */
  lemma {:induction false} WriteBackLastWins(m: Accounts, infos: seq<AccountInfo>, j: nat)
    requires AllKeysIn(infos, m)
    requires j < |infos|
    requires forall i :: j < i < |infos| ==> infos[i].key != infos[j].key
    ensures WriteBack(m, infos)[infos[j].key] ==
              m[infos[j].key].(lamports := infos[j].lamports, data := infos[j].data)
    decreases |infos|
  {
    var n := |infos| - 1;
    if j < n {
      var prefix := infos[..n];
      assert prefix[j] == infos[j];
      WriteBackLastWins(m, prefix, j);
    }
  }

  /**
   Views that agree with the table on lamports and data leave it exactly as
   it was: the guarded write never fires.
   */
  lemma {:induction false} WriteBackUnchanged(m: Accounts, infos: seq<AccountInfo>)
    requires AllKeysIn(infos, m)
    requires forall i :: 0 <= i < |infos| ==>
               infos[i].lamports == m[infos[i].key].lamports && infos[i].data == m[infos[i].key].data
    ensures WriteBack(m, infos) == m
    decreases |infos|
  {
    if infos != [] {
      WriteBackUnchanged(m, infos[..|infos| - 1]);
    }
  }

  /**
   The guard in write-back has no effect on the table: writing
   unconditionally gives the same result.
   */
  lemma WriteBackOneGuardUnobservable(m: Accounts, info: AccountInfo)
    requires info.key in m
    ensures WriteBackOne(m, info) == m[info.key := m[info.key].(data := info.data, lamports := info.lamports)]
  {
  }

  /** A program account: no lamports, no data, owned by the BPF loader, executable. */
  function ProgramAccount(): (a: Account)
    ensures a.lamports == 0 && a.data == [] && a.executable
    ensures a.owner == BpfLoaderId && a.rentEpoch == DefaultEpoch
  {
    Account(0, [], BpfLoaderId, true, DefaultEpoch)
  }

  /** A plain wallet: the given lamports, no data, owned by the system program. */
  function SystemAccount(lamports: U64): (a: Account)
    ensures a.lamports == lamports && a.data == [] && !a.executable
    ensures a.owner == SystemProgramId && a.rentEpoch == DefaultEpoch
  {
    Account(lamports, [], SystemProgramId, false, DefaultEpoch)
  }

  /**
   A record of `data` owned by `owner`, not executable, holding exactly the
   rent-exempt minimum for its data length.
   */
  function RentExemptAccount(minimumBalance: nat -> U64, data: seq<U8>, owner: Pubkey): (a: Account)
    ensures a.lamports == minimumBalance(|a.data|) && a.data == data
    ensures a.owner == owner && !a.executable && a.rentEpoch == DefaultEpoch
  {
    Account(minimumBalance(|data|), data, owner, false, DefaultEpoch)
  }

  /**
   A zero-filled openbook account for a type of in-memory size `size`: an
   8-byte discriminator plus the type's bytes, all zero.
   */
  function OpenbookAccount(minimumBalance: nat -> U64, size: nat): (a: Account)
    ensures |a.data| == 8 + size && forall i :: 0 <= i < |a.data| ==> a.data[i] == 0
    ensures a.lamports == minimumBalance(8 + size)
    ensures a.owner == OpenbookId && !a.executable && a.rentEpoch == DefaultEpoch
  {
    RentExemptAccount(minimumBalance, seq(8 + size, _ => 0), OpenbookId)
  }

  /** The account table: a map from address to account record. */
  class AccountsState {
    var accounts: Accounts

    /** `AccountsState::new()`: an empty table. */
    constructor ()
      ensures accounts == map[]
    {
      accounts := map[];
    }

    /** `AccountsState::default()`: the same as `new()`. */
    constructor Default()
      ensures accounts == map[]
    {
      accounts := map[];
    }

    /** Stores `account` at `pubkey`, silently replacing any earlier record. */
    method Insert(pubkey: Pubkey, account: Account)
      modifies this
      ensures pubkey in accounts && accounts[pubkey] == account
      ensures accounts.Keys == old(accounts).Keys + {pubkey}
      ensures forall k :: k in old(accounts) && k != pubkey ==> accounts[k] == old(accounts)[k]
    {
      accounts := accounts[pubkey := account];
    }

    /**
     The per-call views of `metas`, in the order of `metas`. The first meta
     whose key has no record aborts the whole projection; no record is ever
     created for it.
     */
    function AccountInfos(metas: seq<AccountMeta>): (r: Result<seq<AccountInfo>, Panic>)
      reads this
      ensures r.Success? <==> forall i :: 0 <= i < |metas| ==> metas[i].pubkey in accounts
      ensures r.Success? ==>
                && |r.value| == |metas|
                && forall i :: 0 <= i < |metas| ==>
                     metas[i].pubkey in accounts && IsViewOf(r.value[i], metas[i], accounts[metas[i].pubkey])
      ensures r.Failure? ==>
                && r.error.pubkey !in accounts
                && exists i :: 0 <= i < |metas| && metas[i].pubkey == r.error.pubkey &&
                     forall j :: 0 <= j < i ==> metas[j].pubkey in accounts
      decreases |metas|
    {
      if metas == [] then Success([])
      else
        var meta := metas[0];
        if meta.pubkey !in accounts then Failure(MissingAccount(meta.pubkey))
        else
          var account := accounts[meta.pubkey];
          var info := AccountInfo(meta.pubkey, meta.isSigner, meta.isWritable,
                                  account.lamports, account.data, account.owner,
                                  account.executable, account.rentEpoch);
          match AccountInfos(metas[1..])
          case Failure(e) =>
            var rest := metas[1..];
            var i :| && 0 <= i < |rest| && rest[i].pubkey == e.pubkey
                     && (forall j :: 0 <= j < i ==> rest[j].pubkey in accounts);
            assert metas[i + 1].pubkey == e.pubkey;
            assert forall j :: 0 <= j < i + 1 ==> metas[j].pubkey in accounts by {
              forall j | 0 <= j < i + 1 ensures metas[j].pubkey in accounts {
                if j > 0 { assert metas[j] == rest[j - 1]; }
              }
            }
            Failure(e)
          case Success(rest) => Success([info] + rest)
    }

    /**
     Folds the lamports and data of `infos` back into the table, in order,
     writing a record only when either differs from what is stored.
     */
    method Update(infos: seq<AccountInfo>)
      requires AllKeysIn(infos, accounts)
      modifies this
      ensures accounts == WriteBack(old(accounts), infos)
    {
      for n := 0 to |infos|
        invariant AllKeysIn(infos, old(accounts))
        invariant accounts == WriteBack(old(accounts), infos[..n])
      {
        var info := infos[n];
        assert infos[..n + 1][..n] == infos[..n];
        var account := accounts[info.key];
        if info.lamports != account.lamports || info.data != account.data {
          accounts := accounts[info.key := account.(data := info.data, lamports := info.lamports)];
        }
      }
      assert infos[..|infos|] == infos;
    }

    /** Seeds an executable program account at `pubkey`. */
    method AddProgram(pubkey: Pubkey) returns (chain: AccountsState)
      modifies this
      ensures chain == this
      ensures accounts == old(accounts)[pubkey := ProgramAccount()]
    {
      Insert(pubkey, ProgramAccount());
      chain := this;
    }

    /** Seeds a system-owned wallet holding `lamports` at `pubkey`. */
    method AddAccountWithLamports(pubkey: Pubkey, lamports: U64) returns (chain: AccountsState)
      modifies this
      ensures chain == this
      ensures accounts == old(accounts)[pubkey := SystemAccount(lamports)]
    {
      Insert(pubkey, SystemAccount(lamports));
      chain := this;
    }

    /**
     Seeds an initialized SPL token account of `mint` owned by `owner`. Its
     data is `pack` of the logical record, which fills a buffer of
     `TokenAccountLen` bytes.
     */
    method AddTokenAccount(minimumBalance: nat -> U64, pack: TokenAccount -> seq<U8>,
                           pubkey: Pubkey, owner: Pubkey, mint: Pubkey)
      returns (chain: AccountsState)
      requires |pack(InitializedTokenAccount(owner, mint))| == TokenAccountLen
      modifies this
      ensures chain == this
      ensures accounts == old(accounts)[pubkey :=
                RentExemptAccount(minimumBalance, pack(InitializedTokenAccount(owner, mint)), SplTokenId)]
      ensures |accounts[pubkey].data| == TokenAccountLen
      ensures accounts[pubkey].lamports == minimumBalance(TokenAccountLen)
    {
      var data := pack(InitializedTokenAccount(owner, mint));
      Insert(pubkey, RentExemptAccount(minimumBalance, data, SplTokenId));
      chain := this;
    }

    /** Seeds an initialized SPL mint; its data is `pack` of the logical record. */
    method AddMint(minimumBalance: nat -> U64, pack: Mint -> seq<U8>, pubkey: Pubkey)
      returns (chain: AccountsState)
      requires |pack(InitializedMint())| == MintLen
      modifies this
      ensures chain == this
      ensures accounts == old(accounts)[pubkey := RentExemptAccount(minimumBalance, pack(InitializedMint()), SplTokenId)]
      ensures |accounts[pubkey].data| == MintLen
      ensures accounts[pubkey].lamports == minimumBalance(MintLen)
    {
      var data := pack(InitializedMint());
      Insert(pubkey, RentExemptAccount(minimumBalance, data, SplTokenId));
      chain := this;
    }

    /**
     Seeds a zero-filled openbook account at `pubkey` for a type whose
     in-memory size is `size`.
     */
    method AddOpenbookAccount(minimumBalance: nat -> U64, size: nat, pubkey: Pubkey)
      returns (chain: AccountsState)
      modifies this
      ensures chain == this
      ensures accounts == old(accounts)[pubkey := OpenbookAccount(minimumBalance, size)]
    {
      Insert(pubkey, OpenbookAccount(minimumBalance, size));
      chain := this;
    }
  }

  /**
   Projecting and writing back the untouched views leaves the table as it
   was.
   */
  lemma ProjectThenUpdateIsIdentity(s: AccountsState, metas: seq<AccountMeta>)
    requires s.AccountInfos(metas).Success?
    ensures AllKeysIn(s.AccountInfos(metas).value, s.accounts)
    ensures WriteBack(s.accounts, s.AccountInfos(metas).value) == s.accounts
  {
    var infos := s.AccountInfos(metas).value;
    assert forall i :: 0 <= i < |infos| ==> infos[i].key == metas[i].pubkey;
    WriteBackUnchanged(s.accounts, infos);
  }
}
