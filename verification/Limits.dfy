/** Who is involved in a transaction and how many rows that makes, and the counts a response may contain. */
module Limits {
  import opened Common
  import opened Tables
  import opened RowBuilding

  const MAX_TXS_PER_BLOCK := 100
  const MAX_SIGNERS := 10
  const MAX_INVOLVERS := 250
  const MAX_TOKEN_CONTRACTS := 20

  /** The counts ValidateBasic of a block range response allows for one transaction. */
  predicate WithinLimits(tx: BlockTx) {
    && |InvolversOf(tx, SignerKind)| <= MAX_SIGNERS
    && |InvolversOf(tx, NormalKind)| <= MAX_INVOLVERS
    && |InvolversOf(tx, Erc20Kind)| <= MAX_INVOLVERS
    && |InvolversOf(tx, NftKind)| <= MAX_INVOLVERS
    && ContractsWithinLimits(ContractsOf(tx, Erc20Kind))
    && ContractsWithinLimits(ContractsOf(tx, NftKind))
  }

  predicate ContractsWithinLimits(byContract: map<string, seq<string>>) {
    && |byContract| <= MAX_TOKEN_CONTRACTS
    && forall c :: c in byContract ==> |byContract[c]| <= MAX_INVOLVERS
  }

  predicate BlockWithinLimits(block: Block) {
    |block.txs| <= MAX_TXS_PER_BLOCK && forall i :: 0 <= i < |block.txs| ==> WithinLimits(block.txs[i])
  }

  // ---- one transaction

  /** Some entry of the list converts to the address. */
  predicate Lists(convert: Converter, list: seq<string>, a: string) {
    exists entry :: entry in list && convert(entry) == Address(a)
  }

  /** The address is among the holders of a token contract that is valid itself. */
  predicate HoldsToken(convert: Converter, byContract: map<string, seq<string>>, contract: string, a: string) {
    contract in byContract && convert(contract).Address? && Lists(convert, byContract[contract], a)
  }

  predicate HoldsSome(convert: Converter, byContract: map<string, seq<string>>, a: string) {
    exists contract :: contract in byContract && HoldsToken(convert, byContract, contract, a)
  }

  lemma ListsIff(convert: Converter, list: seq<string>, a: string)
    ensures a in ListAddresses(convert, list) <==> Lists(convert, list, a)
  {
    if entry :| entry in list && convert(entry) == Address(a) {
      var i :| 0 <= i < |list| && list[i] == entry;
      assert convert(list[i]).Address?;
    }
  }

  lemma HoldsIff(convert: Converter, tx: BlockTx, a: string, kind: Kind, contract: string)
    requires kind in TOKEN_KINDS
    ensures Holds(convert, tx, Holding(a, kind, contract))
       <==> kind in tx.contracts && HoldsToken(convert, tx.contracts[kind], contract, a)
  {
    if contract in ContractsOf(tx, kind) {
      ListsIff(convert, ContractsOf(tx, kind)[contract], a);
    }
  }

  lemma TokenRoleIff(convert: Converter, tx: BlockTx, a: string, kind: Kind)
    ensures (exists contract :: a in HoldersOf(convert, tx, kind, contract))
       <==> kind in tx.contracts && HoldsSome(convert, tx.contracts[kind], a)
  {
    if contract :| a in HoldersOf(convert, tx, kind, contract) {
      ListsIff(convert, tx.contracts[kind][contract], a);
      assert HoldsToken(convert, tx.contracts[kind], contract, a);
    }
    if kind in tx.contracts && HoldsSome(convert, tx.contracts[kind], a) {
      var contract :| contract in tx.contracts[kind] && HoldsToken(convert, tx.contracts[kind], contract, a);
      ListsIff(convert, tx.contracts[kind][contract], a);
      assert a in HoldersOf(convert, tx, kind, contract);
    }
  }

  /** Who plays which role, entry by entry: invalid entries count for nothing, and so do all holders below an invalid
      contract. */
  lemma PlaysRoleIff(convert: Converter, tx: BlockTx, a: string, kind: Kind)
    ensures PlaysRole(convert, tx, Fact(a, kind))
       <==> || (kind in tx.involvers && Lists(convert, tx.involvers[kind], a))
            || (kind in {Erc20Kind, NftKind} && kind in tx.contracts && HoldsSome(convert, tx.contracts[kind], a))
  {
    ListsIff(convert, InvolversOf(tx, kind), a);
    TokenRoleIff(convert, tx, a, kind);
  }

  /** Listed as one of the four kinds, or holding under one of the contracts. */
  function AddressesOf(convert: Converter, tx: BlockTx): set<string> {
    ListAddresses(convert, InvolversOf(tx, SignerKind)) + ListAddresses(convert, InvolversOf(tx, NormalKind))
    + ListAddresses(convert, InvolversOf(tx, Erc20Kind)) + ListAddresses(convert, InvolversOf(tx, NftKind))
    + HoldersIn(convert, tx, Erc20Kind, ContractsOf(tx, Erc20Kind).Keys)
    + HoldersIn(convert, tx, NftKind, ContractsOf(tx, NftKind).Keys)
  }

  lemma AddressesAreInvolved(convert: Converter, tx: BlockTx, a: string)
    ensures a in AddressesOf(convert, tx) <==> Involved(convert, tx, a)
  {
    if Involved(convert, tx, a) {
      var kind :| PlaysRole(convert, tx, Fact(a, kind));
      match kind case SignerKind => case NormalKind => case Erc20Kind => case NftKind =>
    }
    if a in AddressesOf(convert, tx) {
      assert PlaysRole(convert, tx, Fact(a, SignerKind)) || PlaysRole(convert, tx, Fact(a, NormalKind))
          || PlaysRole(convert, tx, Fact(a, Erc20Kind)) || PlaysRole(convert, tx, Fact(a, NftKind));
    }
  }

  lemma {:induction false} ListAddressesBound(convert: Converter, list: seq<string>)
    ensures |ListAddresses(convert, list)| <= |list|
  {
    if list == [] {
      assert ListAddresses(convert, list) == {};
    } else {
      var n := |list| - 1;
      ListAddressesBound(convert, list[..n]);
      ListGrows(convert, list, n);
      assert list[..n + 1] == list;
    }
  }

  lemma {:induction false} HoldersBound(convert: Converter, tx: BlockTx, kind: Kind, contracts: set<string>)
    requires contracts <= ContractsOf(tx, kind).Keys
    requires forall c :: c in ContractsOf(tx, kind) ==> |ContractsOf(tx, kind)[c]| <= MAX_INVOLVERS
    ensures |HoldersIn(convert, tx, kind, contracts)| <= MAX_INVOLVERS * |contracts|
    decreases |contracts|
  {
    if contracts == {} {
      assert HoldersIn(convert, tx, kind, contracts) == {};
    } else {
      var c :| c in contracts;
      HoldersBound(convert, tx, kind, contracts - {c});
      OneMoreContract(convert, tx, kind, contracts - {c}, c);
      assert contracts - {c} + {c} == contracts;
      UnionCardinality(HoldersIn(convert, tx, kind, contracts - {c}), HoldersOf(convert, tx, kind, c));
      ListAddressesBound(convert, ContractsOf(tx, kind)[c]);
    }
  }

  lemma InvolvedBound(convert: Converter, tx: BlockTx)
    requires WithinLimits(tx)
    ensures |AddressesOf(convert, tx)| <= 10760  // 10 + 3 * 250 + 2 * 20 * 250
  {
    ListAddressesBound(convert, InvolversOf(tx, SignerKind));
    ListAddressesBound(convert, InvolversOf(tx, NormalKind));
    ListAddressesBound(convert, InvolversOf(tx, Erc20Kind));
    ListAddressesBound(convert, InvolversOf(tx, NftKind));
    HoldersBound(convert, tx, Erc20Kind, ContractsOf(tx, Erc20Kind).Keys);
    HoldersBound(convert, tx, NftKind, ContractsOf(tx, NftKind).Keys);
    SixSets(ListAddresses(convert, InvolversOf(tx, SignerKind)), ListAddresses(convert, InvolversOf(tx, NormalKind)),
            ListAddresses(convert, InvolversOf(tx, Erc20Kind)), ListAddresses(convert, InvolversOf(tx, NftKind)),
            HoldersIn(convert, tx, Erc20Kind, ContractsOf(tx, Erc20Kind).Keys),
            HoldersIn(convert, tx, NftKind, ContractsOf(tx, NftKind).Keys));
  }

  lemma SixSets(a: set<string>, b: set<string>, c: set<string>, d: set<string>, e: set<string>, f: set<string>)
    ensures |a + b + c + d + e + f| <= |a| + |b| + |c| + |d| + |e| + |f|
  {
    UnionCardinality(a + b + c + d + e, f);
    UnionCardinality(a + b + c + d, e);
    UnionCardinality(a + b + c, d);
    UnionCardinality(a + b, c);
    UnionCardinality(a, b);
  }

  // ---- a block

  function AddressSets(convert: Converter, txs: seq<BlockTx>): seq<set<string>> {
    seq(|txs|, i requires 0 <= i < |txs| => AddressesOf(convert, txs[i]))
  }

  function Total(sets: seq<set<string>>): nat {
    if sets == [] then 0 else Total(sets[..|sets| - 1]) + |sets[|sets| - 1]|
  }

  /** An address that several transactions involve is counted several times. */
  function References(convert: Converter, txs: seq<BlockTx>): nat {
    Total(AddressSets(convert, txs))
  }

  lemma SplitCardinality(whole: set<string>, part: set<string>)
    ensures |whole| <= |whole - part| + |part|
  {
    UnionCardinality(whole - part, part);
    SubsetCardinality(whole, whole - part + part);
  }

  lemma OneMoreSet(sets: seq<set<string>>, n: nat)
    requires 0 < n <= |sets|
    ensures Total(sets[..n]) == Total(sets[..n - 1]) + |sets[n - 1]|
  {
    assert sets[..n][..n - 1] == sets[..n - 1];
  }

  lemma {:induction false} UnionWithinTotal(sets: seq<set<string>>, addresses: set<string>)
    requires forall a :: a in addresses ==> exists i :: 0 <= i < |sets| && a in sets[i]
    ensures |addresses| <= Total(sets)
  {
    if sets == [] {
      assert addresses == {};
    } else {
      var init, last := sets[..|sets| - 1], sets[|sets| - 1];
      forall a | a in addresses - last ensures exists i :: 0 <= i < |init| && a in init[i] {
        var i :| 0 <= i < |sets| && a in sets[i];
        assert a in init[i];
      }
      UnionWithinTotal(init, addresses - last);
      SplitCardinality(addresses, last);
    }
  }

  function RowAddresses(refs: seq<RefRow>): set<string> {
    set row | row in refs :: row.key.address
  }

  lemma {:induction false} OneRowPerAddress(refs: seq<RefRow>, t: TxKey)
    requires DistinctKeys(refs) && forall row :: row in refs ==> row.key.Tx() == t
    ensures |RowAddresses(refs)| == |refs|
  {
    if refs != [] {
      var init, last := refs[..|refs| - 1], refs[|refs| - 1];
      OneRowPerAddress(init, t);
      assert refs == init + [last];
      assert last.key.address !in RowAddresses(init) by {
        assert forall i :: 0 <= i < |init| ==> init[i] == refs[i] && init[i].key != last.key && init[i] in refs;
      }
      assert RowAddresses(refs) == RowAddresses(init) + {last.key.address};
    }
  }

  lemma RefRowsOfTxCounted(convert: Converter, chainId: string, height: int, tx: BlockTx, refs: seq<RefRow>)
    requires RefRowsOfTx(convert, chainId, height, tx, refs)
    ensures |refs| == |AddressesOf(convert, tx)|
  {
    OneRowPerAddress(refs, TxKey(chainId, height, tx.hash));
    forall a ensures a in RowAddresses(refs) <==> a in AddressesOf(convert, tx) {
      AddressesAreInvolved(convert, tx, a);
      if Involved(convert, tx, a) {
        assert RefRow(RefKey(chainId, a, height, tx.hash), RoleFlags(convert, tx, a)) in refs;
      }
    }
    assert RowAddresses(refs) == AddressesOf(convert, tx);
  }

  /** For every transaction, any list of its reference rows has as many rows as the set has members. */
  ghost predicate Sized(convert: Converter, chainId: string, height: int, txs: seq<BlockTx>, sets: seq<set<string>>) {
    && |sets| == |txs|
    && forall i, refs {:trigger RefRowsOfTx(convert, chainId, height, txs[i], refs)} ::
      0 <= i < |txs| && RefRowsOfTx(convert, chainId, height, txs[i], refs) ==> |refs| == |sets[i]|
  }

  lemma {:induction false} RefRowsSoFar(convert: Converter, chainId: string, height: int, txs: seq<BlockTx>, n: nat,
                                        refs: seq<RefRow>, sets: seq<set<string>>)
    requires n <= |txs| && AreRefRows(convert, chainId, height, txs, n, refs)
    requires Sized(convert, chainId, height, txs, sets)
    ensures |refs| == Total(sets[..n])
  {
    if n == 0 {
      assert sets[..0] == [];
    } else {
      var k :| 0 <= k <= |refs| && LastRefsFrom(convert, chainId, height, txs, n, refs, k);
      RefRowsSoFar(convert, chainId, height, txs, n - 1, refs[..k], sets);
      OneMoreSet(sets, n);
    }
  }

  /** The reference rows of a block are as many as its transactions have involved addresses in all. */
  lemma RefRowsCounted(convert: Converter, chainId: string, height: int, txs: seq<BlockTx>, refs: seq<RefRow>)
    requires AreRefRows(convert, chainId, height, txs, |txs|, refs)
    ensures |refs| == References(convert, txs)
  {
    var sets := AddressSets(convert, txs);
    forall i, some | 0 <= i < |txs| && RefRowsOfTx(convert, chainId, height, txs[i], some) ensures |some| == |sets[i]| {
      RefRowsOfTxCounted(convert, chainId, height, txs[i], some);
    }
    RefRowsSoFar(convert, chainId, height, txs, |txs|, refs, sets);
    assert sets[..|txs|] == sets;
  }

  lemma {:induction false} RecentRowsCounted(convert: Converter, chainId: string, block: Block, n: nat)
    requires n <= |block.txs|
    ensures |RecentRows(convert, chainId, block, n)| <= n
  {
    if n > 0 {
      RecentRowsCounted(convert, chainId, block, n - 1);
    }
  }

  lemma {:induction false} OneRowPerAccount(chainId: string, rows: seq<AccountInsert>)
    requires forall i, j :: 0 <= i < j < |rows| ==> rows[i].key != rows[j].key
    requires forall i :: 0 <= i < |rows| ==> rows[i].key.chainId == chainId
    ensures |AccountAddresses(rows)| == |rows|
  {
    if rows != [] {
      var init, last := rows[..|rows| - 1], rows[|rows| - 1];
      OneRowPerAccount(chainId, init);
      assert last.key.address !in AccountAddresses(init) by {
        assert forall i :: 0 <= i < |init| ==> init[i] == rows[i] && init[i].key != last.key;
      }
      assert AccountAddresses(rows) == AccountAddresses(init) + {last.key.address};
    }
  }

  function AccountAddresses(rows: seq<AccountInsert>): set<string> {
    set i | 0 <= i < |rows| :: rows[i].key.address
  }

  /** An account has no more than one row, however many transactions involve it. */
  lemma AccountRowsCounted(convert: Converter, chainId: string, txs: seq<BlockTx>, rows: seq<AccountInsert>)
    requires AreAccountRows(convert, chainId, txs, rows)
    ensures |rows| <= References(convert, txs)
  {
    var sets := AddressSets(convert, txs);
    forall j | 0 <= j < |rows|
      ensures rows[j].key.chainId == chainId && exists i :: 0 <= i < |sets| && rows[j].key.address in sets[i]
    {
      assert HasAccountRow(rows, rows[j].key);
      var i :| 0 <= i < |txs| && Involved(convert, txs[i], rows[j].key.address);
      AddressesAreInvolved(convert, txs[i], rows[j].key.address);
      assert rows[j].key.address in sets[i];
    }
    OneRowPerAccount(chainId, rows);
    UnionWithinTotal(sets, AccountAddresses(rows));
  }
}
