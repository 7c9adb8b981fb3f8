/** What a delivered block's content says of it: its flags in a response, and what becomes of its rows. */
module Deliveries {
  import opened Common
  import opened Tables
  import opened Batches
  import opened Statements
  import opened Collector
  import opened RowBuilding
  import opened Limits
  import opened BlockIndexing
  import opened Acceptance
  import opened RecentStore
  import opened QueryService

  /** A block of a response, as the rounds see it. */
  ghost function Delivered(convert: Converter, chainId: string, block: Block): RawBlock {
    RawBlock(Some(block.height), block.txs == [], Acceptable(convert, chainId, block))
  }

  /** The block's transaction on the tables: with no failing call it commits exactly if the block was delivered as
      valid, and leaves nothing behind otherwise. */
  method StoreBlock(store: Store, convert: Converter, chainId: string, block: Block) returns (committed: bool)
    requires AtRest(store.State()) && chainId in store.keepSetting
    modifies store
    ensures committed == Delivered(convert, chainId, block).valid
    ensures AtRest(store.State())
    ensures !committed ==> store.State() == old(store.State())
  {
    ghost var before := store.State();
    var result := BuildRows(convert, chainId, block);
    CommitsIffAcceptable(convert, chainId, block, result, before);
    if result.Failure? {
      return false;
    }
    var transaction := Transaction(StatementsOf(result.value), true);
    committed := store.RunTransaction(transaction);
    assert Run(before, [transaction]) == RunOne(before, transaction) by {
      assert [transaction][..0] == [];
    }
    RunKeeps(before, [transaction]);
  }

  /** A block counts as empty exactly if there is nothing to store of it. */
  lemma EmptyBringsNoRows(convert: Converter, chainId: string, block: Block, rows: Rows)
    requires AreRowsOf(convert, chainId, block, rows)
    ensures Delivered(convert, chainId, block).empty <==> rows.transactions == []
    ensures Delivered(convert, chainId, block).empty ==> rows == Rows([], [], [], [])
  {
    if rows.transactions == [] {
      if rows.accounts != [] {
        assert HasAccountRow(rows.accounts, rows.accounts[0].key);
      }
    }
  }

  // ---- blocks that are delivered in vain

  function HashOf(c: char): string { seq(64, i => c) }

  /** Lists one hash twice, signed by the same account both times. */
  function RepeatedHash(height: int): Block {
    var tx := BlockTx(HashOf('A'), "cosmos", ["/send"], "", true, map[SignerKind := ["rol1signers"]], map[]);
    Block(height, 1, [tx, tx])
  }

  const CAPITAL_CONTRACT := "0xABABABABABABABABABABABABABABABABABABABAB"

  /** Token contract addresses are stored as they come, and then checked for capital letters. */
  function CapitalContract(height: int): Block {
    Block(height, 1, [BlockTx(HashOf('B'), "wasm", ["/call"], "", true, map[],
                              map[Erc20Kind := map[CAPITAL_CONTRACT := ["rol1holders"]]])])
  }

  lemma RepeatedHashIsBad(convert: Converter, chainId: string, height: int)
    requires convert("rol1signers").Address? && Normalized(chainId) && height >= 1
    ensures WellFormed(chainId, RepeatedHash(height))
    ensures !BlockOf(Delivered(convert, chainId, RepeatedHash(height))).Good()
  {
    var block, a := RepeatedHash(height), convert("rol1signers").address;
    var list := InvolversOf(block.txs[0], SignerKind);
    assert list[0] == "rol1signers";
    assert a in ListAddresses(convert, list);
    assert PlaysRole(convert, block.txs[0], Fact(a, SignerKind));
    assert Involved(convert, block.txs[0], a);
    RepeatedHashRefused(convert, chainId, block, 0, 1);
  }

  lemma CapitalContractIsBad(convert: Converter, chainId: string, height: int)
    requires convert(CAPITAL_CONTRACT).Address? && convert("rol1holders").Address? && Normalized(chainId) && height >= 1
    ensures WellFormed(chainId, CapitalContract(height))
    ensures !BlockOf(Delivered(convert, chainId, CapitalContract(height))).Good()
  {
    var block, a := CapitalContract(height), convert("rol1holders").address;
    var list := ContractsOf(block.txs[0], Erc20Kind)[CAPITAL_CONTRACT];
    assert list[0] == "rol1holders";
    assert a in HoldersOf(convert, block.txs[0], Erc20Kind, CAPITAL_CONTRACT);
    CapitalContractRefused(convert, chainId, block, 0, Holding(a, Erc20Kind, CAPITAL_CONTRACT), 2);
  }

  /** One signer, whose entry the conversion turns into the empty address. */
  function UnencodableSigner(height: int, entry: string): Block {
    Block(height, 1, [BlockTx(HashOf('C'), "evm", ["/call"], "", true, map[SignerKind := [entry]], map[])])
  }

  /** A message type may hold any character. */
  function NulInText(height: int): Block {
    Block(height, 1, [BlockTx(HashOf('D'), "cosmos", ["/send\0"], "", true, map[], map[])])
  }

  lemma EmptyAddressIsBad(convert: Converter, chainId: string, height: int, entry: string)
    requires convert(entry) == Address("")
    ensures !BlockOf(Delivered(convert, chainId, UnencodableSigner(height, entry))).Good()
  {
    var block := UnencodableSigner(height, entry);
    var list := InvolversOf(block.txs[0], SignerKind);
    assert list[0] == entry;
    assert PlaysRole(convert, block.txs[0], Fact("", SignerKind));
    assert Involved(convert, block.txs[0], "");
    assert !Normalized("");
  }

  lemma NulIsBad(convert: Converter, chainId: string, height: int)
    requires Normalized(chainId) && height >= 1
    ensures WellFormed(chainId, NulInText(height))
    ensures !BlockOf(Delivered(convert, chainId, NulInText(height))).Good()
  {
    var text := "/send\0";
    assert text[5] == '\0';
    assert !Storable(text) && text in NulInText(height).txs[0].messageTypes;
    assert !StorableTx(NulInText(height).txs[0]);
  }

  // ---- a block with too many references for one statement

  function Letter(n: nat): (c: char)
    requires n < 26
    ensures 'a' <= c <= 'z' && c as int - 'a' as int == n
  {
    ('a' as int + n) as char
  }

  function Account(n: nat): string
    requires n < 676
  {
    "rol1account" + [Letter(n / 26), Letter(n % 26)]
  }

  function Accounts(from: nat, count: nat): seq<string>
    requires from + count <= 676
  {
    seq(count, i requires 0 <= i < count => Account(from + i))
  }

  const CROWD := 500

  function CrowdedTx(i: nat): BlockTx
    requires i < 26
  {
    BlockTx(HashOf(('A' as int + i) as char), "cosmos", ["/send"], "", true,
            map[NormalKind := Accounts(0, 250), Erc20Kind := Accounts(250, 250)], map[])
  }

  /** 26 transactions, each involving the same 500 accounts. */
  function Crowded(height: int): Block {
    Block(height, 1, seq(26, i requires 0 <= i < 26 => CrowdedTx(i)))
  }

  predicate KeepsAccounts(convert: Converter) {
    forall n: nat :: n < CROWD ==> convert(Account(n)) == Address(Account(n))
  }

  function Crowd(n: nat): set<string>
    requires n <= CROWD
  {
    set i: nat | i < n :: Account(i)
  }

  lemma AccountsDiffer(m: nat, n: nat)
    requires m < 676 && n < 676 && Account(m) == Account(n)
    ensures m == n
  {
    assert Letter(m / 26) == Account(m)[11] == Account(n)[11] == Letter(n / 26);
    assert Letter(m % 26) == Account(m)[12] == Account(n)[12] == Letter(n % 26);
  }

  lemma AccountIsNormal(n: nat)
    requires n < 676
    ensures Normalized(Account(n)) && Storable(Account(n))
  {
    var a := Account(n);
    assert a == "rol1account" + [Letter(n / 26), Letter(n % 26)];
    assert a[11] == Letter(n / 26) && a[12] == Letter(n % 26) && a[..11] == "rol1account";
  }

  lemma NotYetInCrowd(n: nat)
    requires n < CROWD
    ensures Account(n) !in Crowd(n)
  {
    forall i: nat | i < n ensures Account(i) != Account(n) {
      if Account(i) == Account(n) {
        AccountsDiffer(i, n);
      }
    }
  }

  lemma {:induction false} CrowdSize(n: nat)
    requires n <= CROWD
    ensures |Crowd(n)| == n
  {
    if n == 0 {
      assert Crowd(0) == {};
    } else {
      CrowdSize(n - 1);
      NotYetInCrowd(n - 1);
      assert Crowd(n) == Crowd(n - 1) + {Account(n - 1)};
    }
  }

  function AccountSet(from: nat, count: nat): set<string>
    requires from + count <= CROWD
  {
    set n: nat | from <= n < from + count :: Account(n)
  }

  lemma ListedAccounts(convert: Converter, from: nat, count: nat)
    requires KeepsAccounts(convert) && from + count <= CROWD
    ensures ListAddresses(convert, Accounts(from, count)) == AccountSet(from, count)
    ensures !ListBroken(convert, Accounts(from, count))
  {
    var list := Accounts(from, count);
    assert forall i :: 0 <= i < count ==> list[i] == Account(from + i) && convert(list[i]) == Address(list[i]);
    forall n: nat | from <= n < from + count ensures Account(n) in ListAddresses(convert, list) {
      assert list[n - from] == Account(n);
    }
  }

  lemma CrowdInvolved(convert: Converter, i: nat)
    requires KeepsAccounts(convert) && i < 26
    ensures !TxBroken(convert, CrowdedTx(i)) && WithinLimits(CrowdedTx(i))
    ensures AddressesOf(convert, CrowdedTx(i)) == Crowd(CROWD)
  {
    var tx := CrowdedTx(i);
    ListedAccounts(convert, 0, 250);
    ListedAccounts(convert, 250, 250);
    assert InvolversOf(tx, NormalKind) == Accounts(0, 250) && InvolversOf(tx, Erc20Kind) == Accounts(250, 250);
    assert InvolversOf(tx, SignerKind) == [] && InvolversOf(tx, NftKind) == [];
    assert ContractsOf(tx, Erc20Kind) == map[] && ContractsOf(tx, NftKind) == map[];
    assert Crowd(CROWD) == AccountSet(0, 250) + AccountSet(250, 250);
  }

  lemma {:induction false} TotalAtLeast(sets: seq<set<string>>, size: nat)
    requires forall i :: 0 <= i < |sets| ==> |sets[i]| >= size
    ensures Total(sets) >= |sets| * size
  {
    if sets != [] {
      TotalAtLeast(sets[..|sets| - 1], size);
    }
  }

  lemma CrowdedReferences(convert: Converter, height: int)
    requires KeepsAccounts(convert)
    ensures References(convert, Crowded(height).txs) >= 26 * CROWD
  {
    var sets := AddressSets(convert, Crowded(height).txs);
    forall i | 0 <= i < |sets| ensures |sets[i]| >= CROWD {
      CrowdInvolved(convert, i);
      CrowdSize(CROWD);
    }
    TotalAtLeast(sets, CROWD);
  }

  /** Every limit of the response validation and every check of the records is met, no entry fails to convert and no
      text is a problem, yet the block is no good: its references do not fit one statement. */
  lemma CrowdedIsBad(convert: Converter, chainId: string, height: int)
    requires KeepsAccounts(convert) && Normalized(chainId) && height >= 1
    ensures var block := Crowded(height);
            && BlockWithinLimits(block) && WellFormed(chainId, block) && !BlockBroken(convert, block)
            && HashesApart(convert, block.txs, |block.txs|)
            && AddressesNormal(convert, block.txs) && ContractsNormal(convert, block.txs)
            && TextsStorable(convert, block.txs)
            && !BlockOf(Delivered(convert, chainId, block)).Good()
  {
    var block := Crowded(height);
    CrowdedReferences(convert, height);
    CrowdedHashes(convert, height);
    CrowdedRecords(convert, chainId, height);
  }

  lemma CrowdedHashes(convert: Converter, height: int)
    ensures HashesApart(convert, Crowded(height).txs, 26)
  {
    var txs := Crowded(height).txs;
    forall i, j | 0 <= i < j < 26 ensures Upper(txs[i].hash) != Upper(txs[j].hash) {
      assert Upper(txs[i].hash)[0] == ('A' as int + i) as char;
      assert Upper(txs[j].hash)[0] == ('A' as int + j) as char;
    }
  }

  lemma CrowdedTexts(convert: Converter, i: nat)
    requires KeepsAccounts(convert) && i < 26
    ensures StorableTx(CrowdedTx(i)) && HashFits("cosmos", CrowdedTx(i).hash)
    ensures forall a :: Involved(convert, CrowdedTx(i), a) ==> Normalized(a) && Storable(a)
    ensures forall h :: !Holds(convert, CrowdedTx(i), h)
  {
    forall a | Involved(convert, CrowdedTx(i), a) ensures Normalized(a) && Storable(a) {
      CrowdInvolved(convert, i);
      AddressesAreInvolved(convert, CrowdedTx(i), a);
      var n: nat :| n < CROWD && a == Account(n);
      AccountIsNormal(n);
    }
  }

  lemma CrowdedRecords(convert: Converter, chainId: string, height: int)
    requires KeepsAccounts(convert) && Normalized(chainId) && height >= 1
    ensures var block := Crowded(height);
            && BlockWithinLimits(block) && WellFormed(chainId, block) && !BlockBroken(convert, block)
            && AddressesNormal(convert, block.txs) && ContractsNormal(convert, block.txs)
            && TextsStorable(convert, block.txs)
  {
    var block := Crowded(height);
    forall i | 0 <= i < 26
      ensures block.txs[i] == CrowdedTx(i) && !TxBroken(convert, block.txs[i]) && WithinLimits(block.txs[i])
      ensures StorableTx(block.txs[i]) && HashFits(block.txs[i].txType, block.txs[i].hash)
      ensures forall a :: Involved(convert, block.txs[i], a) ==> Normalized(a) && Storable(a)
      ensures forall h :: !Holds(convert, block.txs[i], h)
    {
      CrowdInvolved(convert, i);
      CrowdedTexts(convert, i);
    }
  }
}
