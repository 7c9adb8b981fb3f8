/** insertBlockInformation: the rows built for one block. Go walks its maps in any order; here every walk over
    a map or over the four involver kinds picks its next key freely. */
module RowBuilding {
  import opened Common
  import opened Tables

  /** unsafeAnyAddressToBech32Address: an error, an entry to be ignored, or the bech32 address. As the code stands it
      never reports an error: where it means to, it wraps a nil error, and hands on the empty address, which the
      checks of the account records refuse. */
  datatype Conversion = Broken | Invalid | Address(address: string)

  type Converter = string -> Conversion

  datatype Kind = SignerKind | Erc20Kind | NftKind | NormalKind

  datatype BlockTx = BlockTx(
    hash: string,
    txType: string,
    messageTypes: seq<string>,
    rest: string,
    valueParses: bool,
    involvers: map<Kind, seq<string>>,
    contracts: map<Kind, map<string, seq<string>>>)

  datatype Block = Block(height: int, epoch: int, txs: seq<BlockTx>) {
    /** The epoch week, by which the transaction table is partitioned. */
    function Week(): int { epoch / 604800 }
  }

  function TransactionDetails(block: Block, tx: BlockTx): Details {
    Details(block.epoch, tx.messageTypes, tx.txType, tx.rest)
  }

  /** recent_account_transaction has no column for the type. */
  function RecentDetails(block: Block, tx: BlockTx): Details {
    Details(block.epoch, tx.messageTypes, "", tx.rest)
  }

  datatype Rows = Rows(
    transactions: seq<TransactionInsert>,
    accounts: seq<AccountInsert>,
    recent: seq<RecentInsert>,
    refs: seq<RefRow>)

  const ALL_KINDS := {SignerKind, Erc20Kind, NftKind, NormalKind}
  const TOKEN_KINDS := {Erc20Kind, NftKind}

  // ---- what a block says

  /** The transaction involves the address in this role. */
  datatype Fact = Fact(address: string, kind: Kind)

  /** The address holds a balance on the token contract. */
  datatype Holding = Holding(address: string, kind: Kind, contract: string)

  function InvolversOf(tx: BlockTx, kind: Kind): seq<string> {
    if kind in tx.involvers then tx.involvers[kind] else []
  }

  function ContractsOf(tx: BlockTx, kind: Kind): map<string, seq<string>> {
    if kind in tx.contracts then tx.contracts[kind] else map[]
  }

  predicate ListBroken(convert: Converter, list: seq<string>) {
    exists i :: 0 <= i < |list| && convert(list[i]).Broken?
  }

  function ListAddresses(convert: Converter, list: seq<string>): set<string> {
    set i | 0 <= i < |list| && convert(list[i]).Address? :: convert(list[i]).address
  }

  function FactsFor(addresses: set<string>, kind: Kind): set<Fact> {
    set a | a in addresses :: Fact(a, kind)
  }

  function HoldingsFor(addresses: set<string>, kind: Kind, contract: string): set<Holding> {
    set a | a in addresses :: Holding(a, kind, contract)
  }

  /** Holders under one contract; an invalid contract has none. */
  function HoldersOf(convert: Converter, tx: BlockTx, kind: Kind, contract: string): set<string> {
    if contract in ContractsOf(tx, kind) && convert(contract).Address?
    then ListAddresses(convert, ContractsOf(tx, kind)[contract])
    else {}
  }

  /** An involver below an invalid contract, and a contract without involvers, are never converted. */
  predicate ContractBroken(convert: Converter, contract: string, involvers: seq<string>) {
    involvers != [] && (convert(contract).Broken? || (convert(contract).Address? && ListBroken(convert, involvers)))
  }

  predicate TxBroken(convert: Converter, tx: BlockTx) {
    || !tx.valueParses
    || (exists kind :: kind in ALL_KINDS && ListBroken(convert, InvolversOf(tx, kind)))
    || ContractKindBroken(convert, ContractsOf(tx, Erc20Kind))
    || ContractKindBroken(convert, ContractsOf(tx, NftKind))
  }

  predicate ContractKindBroken(convert: Converter, byContract: map<string, seq<string>>) {
    exists contract :: contract in byContract && ContractBroken(convert, contract, byContract[contract])
  }

  predicate BlockBroken(convert: Converter, block: Block) {
    exists i :: 0 <= i < |block.txs| && TxBroken(convert, block.txs[i])
  }

  /** The address plays this role in the transaction: listed as such, or holding under a valid contract of the kind. */
  ghost predicate PlaysRole(convert: Converter, tx: BlockTx, f: Fact) {
    || f.address in ListAddresses(convert, InvolversOf(tx, f.kind))
    || (f.kind in TOKEN_KINDS && exists contract :: f.address in HoldersOf(convert, tx, f.kind, contract))
  }

  ghost predicate Involved(convert: Converter, tx: BlockTx, address: string) {
    exists kind :: PlaysRole(convert, tx, Fact(address, kind))
  }

  ghost function RoleFlags(convert: Converter, tx: BlockTx, address: string): Flags {
    Flags(PlaysRole(convert, tx, Fact(address, SignerKind)),
          PlaysRole(convert, tx, Fact(address, Erc20Kind)),
          PlaysRole(convert, tx, Fact(address, NftKind)))
  }

  ghost predicate Holds(convert: Converter, tx: BlockTx, h: Holding) {
    h.kind in TOKEN_KINDS && h.address in HoldersOf(convert, tx, h.kind, h.contract)
  }

  // ---- the rows of a block, up to order

  ghost predicate IsRefRow(convert: Converter, chainId: string, height: int, tx: BlockTx, row: RefRow) {
    && row.key == RefKey(chainId, row.key.address, height, tx.hash)
    && Involved(convert, tx, row.key.address)
    && row.flags == RoleFlags(convert, tx, row.key.address)
  }

  function TransactionRows(chainId: string, block: Block): seq<TransactionInsert> {
    seq(|block.txs|, i requires 0 <= i < |block.txs| =>
      TransactionInsert(TransactionKey(chainId, block.height, block.txs[i].hash, block.Week()),
                        TransactionDetails(block, block.txs[i])))
  }

  /** The transaction involves somebody. */
  ghost predicate Involves(convert: Converter, tx: BlockTx) {
    exists a :: Involved(convert, tx, a)
  }

  function RecentRowOf(chainId: string, block: Block, tx: BlockTx): RecentInsert {
    RecentInsert(TxKey(chainId, block.height, tx.hash), RecentDetails(block, tx))
  }

  /** The transactions that involve somebody, in block order. */
  ghost function RecentRows(convert: Converter, chainId: string, block: Block, n: nat): seq<RecentInsert>
    requires n <= |block.txs|
  {
    if n == 0 then []
    else
      var tx := block.txs[n - 1];
      RecentRows(convert, chainId, block, n - 1)
      + if Involves(convert, tx) then [RecentRowOf(chainId, block, tx)] else []
  }

  predicate DistinctKeys(refs: seq<RefRow>) {
    forall i, j :: 0 <= i < j < |refs| ==> refs[i].key != refs[j].key
  }

  /** One row per involved address of the transaction, in some order. */
  ghost predicate RefRowsOfTx(convert: Converter, chainId: string, height: int, tx: BlockTx, refs: seq<RefRow>) {
    && DistinctKeys(refs)
    && forall row :: row in refs <==> IsRefRow(convert, chainId, height, tx, row)
  }

  /** The rows of the first n transactions, one transaction after the other. */
  ghost predicate AreRefRows(convert: Converter, chainId: string, height: int, txs: seq<BlockTx>, n: nat,
                             refs: seq<RefRow>)
    requires n <= |txs|
    decreases n, 1
  {
    if n == 0 then refs == []
    else exists k :: 0 <= k <= |refs| && LastRefsFrom(convert, chainId, height, txs, n, refs, k)
  }

  ghost predicate LastRefsFrom(convert: Converter, chainId: string, height: int, txs: seq<BlockTx>, n: nat,
                               refs: seq<RefRow>, k: nat)
    requires 0 < n <= |txs| && k <= |refs|
    decreases n, 0
  {
    && AreRefRows(convert, chainId, height, txs, n - 1, refs[..k])
    && RefRowsOfTx(convert, chainId, height, txs[n - 1], refs[k..])
  }

  lemma {:induction false} RefRowsMembers(convert: Converter, chainId: string, height: int, txs: seq<BlockTx>, n: nat,
                                          refs: seq<RefRow>)
    requires n <= |txs| && AreRefRows(convert, chainId, height, txs, n, refs)
    ensures forall row :: row in refs <==> exists i :: 0 <= i < n && IsRefRow(convert, chainId, height, txs[i], row)
  {
    if n > 0 {
      var k :| 0 <= k <= |refs| && LastRefsFrom(convert, chainId, height, txs, n, refs, k);
      RefRowsMembers(convert, chainId, height, txs, n - 1, refs[..k]);
      assert refs == refs[..k] + refs[k..];
    }
  }

  predicate HasAccountRow(rows: seq<AccountInsert>, k: AccountKey) {
    exists i :: 0 <= i < |rows| && rows[i].key == k
  }

  ghost predicate AreAccountRows(convert: Converter, chainId: string, txs: seq<BlockTx>, rows: seq<AccountInsert>) {
    && (forall i, j :: 0 <= i < j < |rows| ==> rows[i].key != rows[j].key)
    && (forall k :: HasAccountRow(rows, k)
               <==> k.chainId == chainId && exists i :: 0 <= i < |txs| && Involved(convert, txs[i], k.address))
    && (forall i, c :: 0 <= i < |rows| ==>
          && (c in rows[i].erc20
              <==> exists j :: 0 <= j < |txs| && Holds(convert, txs[j], Holding(rows[i].key.address, Erc20Kind, c)))
          && (c in rows[i].nft
              <==> exists j :: 0 <= j < |txs| && Holds(convert, txs[j], Holding(rows[i].key.address, NftKind, c))))
  }

  /** Everything a block determines about its rows: which rows there are, not in which order Go's maps produce
      account rows, reference rows and contract lists. */
  ghost predicate AreRowsOf(convert: Converter, chainId: string, block: Block, rows: Rows) {
    && rows.transactions == TransactionRows(chainId, block)
    && AreAccountRows(convert, chainId, block.txs, rows.accounts)
    && rows.recent == RecentRows(convert, chainId, block, |block.txs|)
    && AreRefRows(convert, chainId, block.height, block.txs, |block.txs|, rows.refs)
  }

  // ---- building them

  datatype Contracts = Contracts(erc20: seq<string>, nft: seq<string>)

  /** The two maps insertBlockInformation fills: flags for this transaction, accounts for the whole block. */
  datatype Draft = Draft(flags: map<string, Flags>, accounts: map<string, Contracts>)

  /** What a draft says: the facts of this transaction, the addresses and holdings of the whole block. */
  datatype Meaning = Meaning(facts: set<Fact>, known: set<string>, holdings: set<Holding>)

  ghost predicate FlagsRecord(flags: map<string, Flags>, facts: set<Fact>) {
    && (forall a :: a in flags <==> exists kind :: Fact(a, kind) in facts)
    && (forall a :: a in flags ==>
          flags[a] == Flags(Fact(a, SignerKind) in facts, Fact(a, Erc20Kind) in facts, Fact(a, NftKind) in facts))
  }

  ghost predicate AccountsRecord(accounts: map<string, Contracts>, known: set<string>, holdings: set<Holding>) {
    && accounts.Keys == known
    && (forall a, c :: a in accounts ==>
          && (c in accounts[a].erc20 <==> Holding(a, Erc20Kind, c) in holdings)
          && (c in accounts[a].nft <==> Holding(a, NftKind, c) in holdings))
    && (forall h :: h in holdings ==> h.address in known)
  }

  ghost predicate Records(draft: Draft, m: Meaning) {
    FlagsRecord(draft.flags, m.facts) && AccountsRecord(draft.accounts, m.known, m.holdings)
  }

  function Involving(m: Meaning, addresses: set<string>, kind: Kind): Meaning {
    Meaning(m.facts + FactsFor(addresses, kind), m.known + addresses, m.holdings)
  }

  function Holders(m: Meaning, addresses: set<string>, kind: Kind, contract: string): Meaning {
    Involving(m, addresses, kind).(holdings := m.holdings + HoldingsFor(addresses, kind, contract))
  }

  /** putInvolvedFlag */
  function PutFlag(flags: map<string, Flags>, address: string, kind: Kind): map<string, Flags> {
    var sif := if address in flags then flags[address] else Flags(false, false, false);
    flags[address := match kind
                     case SignerKind => sif.(signer := true)
                     case Erc20Kind => sif.(erc20 := true)
                     case NftKind => sif.(nft := true)
                     case NormalKind => sif]
  }

  function PutInvolver(draft: Draft, address: string, kind: Kind): Draft {
    Draft(PutFlag(draft.flags, address, kind),
          if address in draft.accounts then draft.accounts else draft.accounts[address := Contracts([], [])])
  }

  lemma PutFlagRecords(flags: map<string, Flags>, address: string, kind: Kind, facts: set<Fact>)
    requires FlagsRecord(flags, facts)
    ensures FlagsRecord(PutFlag(flags, address, kind), facts + FactsFor({address}, kind))
  {
    var put, after := PutFlag(flags, address, kind), facts + FactsFor({address}, kind);
    assert forall f :: f in after <==> f in facts || f == Fact(address, kind);
    forall a ensures a in put <==> exists k :: Fact(a, k) in after {
      if a == address {
        assert Fact(a, kind) in after;
      }
    }
  }

  lemma PutInvolverRecords(draft: Draft, address: string, kind: Kind, m: Meaning)
    requires Records(draft, m)
    ensures Records(PutInvolver(draft, address, kind), Involving(m, {address}, kind))
  {
    PutFlagRecords(draft.flags, address, kind, m.facts);
  }

  lemma InvolvingOneMore(m: Meaning, addresses: set<string>, a: string, kind: Kind)
    ensures Involving(m, addresses + {a}, kind) == Involving(Involving(m, addresses, kind), {a}, kind)
    ensures Involving(m, {}, kind) == m
  {
    assert FactsFor(addresses + {a}, kind) == FactsFor(addresses, kind) + FactsFor({a}, kind);
  }

  function PutInvolverEntry(convert: Converter, draft: Draft, entry: string, kind: Kind): Draft {
    if convert(entry).Address? then PutInvolver(draft, convert(entry).address, kind) else draft
  }

  /** One more entry of a list of involvers. */
  lemma InvolverAdded(convert: Converter, kind: Kind, involvers: seq<string>, i: nat, draft: Draft, m: Meaning)
    requires i < |involvers|
    requires Records(draft, Involving(m, ListAddresses(convert, involvers[..i]), kind))
    ensures ListBroken(convert, involvers[..i + 1])
        == (ListBroken(convert, involvers[..i]) || convert(involvers[i]).Broken?)
    ensures Records(PutInvolverEntry(convert, draft, involvers[i], kind),
                    Involving(m, ListAddresses(convert, involvers[..i + 1]), kind))
  {
    var before := ListAddresses(convert, involvers[..i]);
    ListGrows(convert, involvers, i);
    if convert(involvers[i]).Address? {
      var a := convert(involvers[i]).address;
      InvolvingOneMore(m, before, a, kind);
      PutInvolverRecords(draft, a, kind, Involving(m, before, kind));
    } else {
      assert before + {} == before;
    }
  }

  method AddInvolvers(convert: Converter, kind: Kind, involvers: seq<string>, draft: Draft, ghost m: Meaning)
    returns (ok: bool, result: Draft)
    requires Records(draft, m)
    ensures ok == !ListBroken(convert, involvers)
    ensures ok ==> Records(result, Involving(m, ListAddresses(convert, involvers), kind))
  {
    ok, result := true, draft;
    InvolvingOneMore(m, {}, "", kind);
    assert ListAddresses(convert, involvers[..0]) == {};
    var i := 0;
    while ok && i < |involvers|
      invariant i <= |involvers|
      invariant ok == !ListBroken(convert, involvers[..i])
      invariant true == Records(result, Involving(m, ListAddresses(convert, involvers[..i]), kind))
      decreases |involvers| - i
    {
      InvolverAdded(convert, kind, involvers, i, result, m);
      ok := !convert(involvers[i]).Broken?;
      result := PutInvolverEntry(convert, result, involvers[i], kind);
      i := i + 1;
    }
    if ok {
      assert involvers[..i] == involvers;
    } else {
      assert forall j :: 0 <= j < i ==> involvers[..i][j] == involvers[j];
    }
  }

  lemma ListGrows(convert: Converter, list: seq<string>, i: nat)
    requires i < |list|
    ensures ListAddresses(convert, list[..i + 1])
         == ListAddresses(convert, list[..i]) + if convert(list[i]).Address? then {convert(list[i]).address} else {}
    ensures ListBroken(convert, list[..i + 1]) == (ListBroken(convert, list[..i]) || convert(list[i]).Broken?)
  {
    var more, less := list[..i + 1], list[..i];
    assert forall j :: 0 <= j < i ==> more[j] == less[j];
    assert more[i] == list[i];
  }

  // ---- token contracts

  function PutHolder(draft: Draft, address: string, kind: Kind, contract: string): Draft {
    var account := if address in draft.accounts then draft.accounts[address] else Contracts([], []);
    var appended := match kind
                    case Erc20Kind => account.(erc20 := account.erc20 + [contract])
                    case NftKind => account.(nft := account.nft + [contract])
                    case _ => account;
    Draft(PutFlag(draft.flags, address, kind), draft.accounts[address := appended])
  }

  lemma PutHolderRecords(draft: Draft, address: string, kind: Kind, contract: string, m: Meaning)
    requires Records(draft, m) && kind in TOKEN_KINDS
    ensures Records(PutHolder(draft, address, kind, contract), Holders(m, {address}, kind, contract))
  {
    PutFlagRecords(draft.flags, address, kind, m.facts);
    var after := Holders(m, {address}, kind, contract);
    assert forall h :: h in after.holdings <==> h in m.holdings || h == Holding(address, kind, contract);
  }

  lemma HoldersOneMore(m: Meaning, addresses: set<string>, a: string, kind: Kind, contract: string)
    ensures Holders(m, addresses + {a}, kind, contract)
        == Holders(Holders(m, addresses, kind, contract), {a}, kind, contract)
    ensures Holders(m, {}, kind, contract) == m
  {
    InvolvingOneMore(m, addresses, a, kind);
    assert HoldingsFor(addresses + {a}, kind, contract)
        == HoldingsFor(addresses, kind, contract) + HoldingsFor({a}, kind, contract);
  }

  function PutHolderEntry(convert: Converter, draft: Draft, entry: string, kind: Kind, contract: string): Draft {
    if convert(entry).Address? then PutHolder(draft, convert(entry).address, kind, contract) else draft
  }

  /** One more entry of a list of holders. */
  lemma HolderAdded(convert: Converter, kind: Kind, contract: string, involvers: seq<string>, i: nat, draft: Draft,
                    m: Meaning)
    requires i < |involvers| && kind in TOKEN_KINDS
    requires Records(draft, Holders(m, ListAddresses(convert, involvers[..i]), kind, contract))
    ensures ListBroken(convert, involvers[..i + 1])
        == (ListBroken(convert, involvers[..i]) || convert(involvers[i]).Broken?)
    ensures Records(PutHolderEntry(convert, draft, involvers[i], kind, contract),
                    Holders(m, ListAddresses(convert, involvers[..i + 1]), kind, contract))
  {
    var before := ListAddresses(convert, involvers[..i]);
    ListGrows(convert, involvers, i);
    if convert(involvers[i]).Address? {
      var a := convert(involvers[i]).address;
      HoldersOneMore(m, before, a, kind, contract);
      PutHolderRecords(draft, a, kind, contract, Holders(m, before, kind, contract));
    } else {
      assert before + {} == before;
    }
  }

  method AddHolders(convert: Converter, kind: Kind, contract: string, involvers: seq<string>, draft: Draft,
                    ghost m: Meaning)
    returns (ok: bool, result: Draft)
    requires Records(draft, m) && kind in TOKEN_KINDS
    ensures ok == !ListBroken(convert, involvers)
    ensures ok ==> Records(result, Holders(m, ListAddresses(convert, involvers), kind, contract))
  {
    ok, result := true, draft;
    HoldersOneMore(m, {}, "", kind, contract);
    assert ListAddresses(convert, involvers[..0]) == {};
    var i := 0;
    while ok && i < |involvers|
      invariant i <= |involvers|
      invariant ok == !ListBroken(convert, involvers[..i])
      invariant true == Records(result, Holders(m, ListAddresses(convert, involvers[..i]), kind, contract))
      decreases |involvers| - i
    {
      HolderAdded(convert, kind, contract, involvers, i, result, m);
      ok := !convert(involvers[i]).Broken?;
      result := PutHolderEntry(convert, result, involvers[i], kind, contract);
      i := i + 1;
    }
    if ok {
      assert involvers[..i] == involvers;
    } else {
      assert forall j :: 0 <= j < i ==> involvers[..i][j] == involvers[j];
    }
  }

  function HoldersIn(convert: Converter, tx: BlockTx, kind: Kind, contracts: set<string>): set<string> {
    set c, a | c in contracts && a in HoldersOf(convert, tx, kind, c) :: a
  }

  function HoldingsIn(convert: Converter, tx: BlockTx, kind: Kind, contracts: set<string>): set<Holding> {
    set c, a | c in contracts && a in HoldersOf(convert, tx, kind, c) :: Holding(a, kind, c)
  }

  /** The meaning after some contracts of one kind. */
  function WithContracts(m: Meaning, convert: Converter, tx: BlockTx, kind: Kind, contracts: set<string>): Meaning {
    Involving(m, HoldersIn(convert, tx, kind, contracts), kind).(
      holdings := m.holdings + HoldingsIn(convert, tx, kind, contracts))
  }

  lemma OneMoreContract(convert: Converter, tx: BlockTx, kind: Kind, contracts: set<string>, c: string)
    ensures HoldersIn(convert, tx, kind, contracts + {c})
         == HoldersIn(convert, tx, kind, contracts) + HoldersOf(convert, tx, kind, c)
    ensures HoldingsIn(convert, tx, kind, contracts + {c})
         == HoldingsIn(convert, tx, kind, contracts) + HoldingsFor(HoldersOf(convert, tx, kind, c), kind, c)
  {
  }

  lemma FactsForUnion(a: set<string>, b: set<string>, kind: Kind)
    ensures FactsFor(a + b, kind) == FactsFor(a, kind) + FactsFor(b, kind)
  {
  }

  lemma WithOneMoreContract(m: Meaning, convert: Converter, tx: BlockTx, kind: Kind, contracts: set<string>, c: string)
    ensures WithContracts(m, convert, tx, kind, contracts + {c})
         == Holders(WithContracts(m, convert, tx, kind, contracts), HoldersOf(convert, tx, kind, c), kind, c)
  {
    OneMoreContract(convert, tx, kind, contracts, c);
    FactsForUnion(HoldersIn(convert, tx, kind, contracts), HoldersOf(convert, tx, kind, c), kind);
  }

  /** The contracts of one kind, in whatever order the map yields them. */
  method AddContracts(convert: Converter, kind: Kind, tx: BlockTx, draft: Draft, ghost m: Meaning)
    returns (ok: bool, result: Draft)
    requires Records(draft, m) && kind in TOKEN_KINDS
    ensures ok == !ContractKindBroken(convert, ContractsOf(tx, kind))
    ensures ok ==> Records(result, WithContracts(m, convert, tx, kind, ContractsOf(tx, kind).Keys))
  {
    result := draft;
    var byContract := ContractsOf(tx, kind);
    var waiting := byContract.Keys;
    assert WithContracts(m, convert, tx, kind, {}) == m;
    assert byContract.Keys - waiting == {};
    while waiting != {}
      invariant waiting <= byContract.Keys
      invariant forall c :: c in byContract.Keys - waiting ==> !ContractBroken(convert, c, byContract[c])
      invariant Records(result, WithContracts(m, convert, tx, kind, byContract.Keys - waiting))
    {
      var contract :| contract in waiting;
      var involvers := byContract[contract];
      ghost var before := WithContracts(m, convert, tx, kind, byContract.Keys - waiting);
      WithOneMoreContract(m, convert, tx, kind, byContract.Keys - waiting, contract);
      HoldersOneMore(before, {}, "", kind, contract);
      assert byContract.Keys - waiting + {contract} == byContract.Keys - (waiting - {contract});
      waiting := waiting - {contract};
      if |involvers| == 0 {
        assert HoldersOf(convert, tx, kind, contract) == {};
        continue;
      }
      var conversion := convert(contract);
      if conversion.Broken? {
        return false, result;
      }
      if conversion.Invalid? {
        continue;
      }
      ok, result := AddHolders(convert, kind, contract, involvers, result, before);
      if !ok {
        return;
      }
    }
    assert byContract.Keys - waiting == byContract.Keys;
    return true, result;
  }

  // ---- one transaction

  function ListedFacts(convert: Converter, tx: BlockTx, kinds: set<Kind>): set<Fact> {
    set k, a | k in kinds && a in ListAddresses(convert, InvolversOf(tx, k)) :: Fact(a, k)
  }

  function ListedAddresses(convert: Converter, tx: BlockTx, kinds: set<Kind>): set<string> {
    set k, a | k in kinds && a in ListAddresses(convert, InvolversOf(tx, k)) :: a
  }

  function WithLists(m: Meaning, convert: Converter, tx: BlockTx, kinds: set<Kind>): Meaning {
    Meaning(m.facts + ListedFacts(convert, tx, kinds), m.known + ListedAddresses(convert, tx, kinds), m.holdings)
  }

  lemma WithOneMoreList(m: Meaning, convert: Converter, tx: BlockTx, kinds: set<Kind>, k: Kind)
    ensures WithLists(m, convert, tx, kinds + {k})
         == Involving(WithLists(m, convert, tx, kinds), ListAddresses(convert, InvolversOf(tx, k)), k)
  {
    var here := ListAddresses(convert, InvolversOf(tx, k));
    assert ListedFacts(convert, tx, kinds + {k}) == ListedFacts(convert, tx, kinds) + FactsFor(here, k);
    assert ListedAddresses(convert, tx, kinds + {k}) == ListedAddresses(convert, tx, kinds) + here;
  }

  /** The four lists of involvers, in any order of the kinds. */
  method AddLists(convert: Converter, tx: BlockTx, draft: Draft, ghost m: Meaning) returns (ok: bool, result: Draft)
    requires Records(draft, m)
    ensures ok == !exists kind :: kind in ALL_KINDS && ListBroken(convert, InvolversOf(tx, kind))
    ensures ok ==> Records(result, WithLists(m, convert, tx, ALL_KINDS))
  {
    result := draft;
    var waiting := ALL_KINDS;
    assert WithLists(m, convert, tx, {}) == m;
    assert ALL_KINDS - waiting == {};
    while waiting != {}
      invariant waiting <= ALL_KINDS
      invariant forall kind :: kind in ALL_KINDS - waiting ==> !ListBroken(convert, InvolversOf(tx, kind))
      invariant Records(result, WithLists(m, convert, tx, ALL_KINDS - waiting))
    {
      var kind :| kind in waiting;
      WithOneMoreList(m, convert, tx, ALL_KINDS - waiting, kind);
      ok, result := AddInvolvers(convert, kind, InvolversOf(tx, kind), result,
                                 WithLists(m, convert, tx, ALL_KINDS - waiting));
      if !ok {
        return;
      }
      assert ALL_KINDS - waiting + {kind} == ALL_KINDS - (waiting - {kind});
      waiting := waiting - {kind};
    }
    assert ALL_KINDS - waiting == ALL_KINDS;
    return true, result;
  }

  function WithTokens(m: Meaning, convert: Converter, tx: BlockTx): Meaning {
    WithContracts(WithContracts(m, convert, tx, Erc20Kind, ContractsOf(tx, Erc20Kind).Keys),
                  convert, tx, NftKind, ContractsOf(tx, NftKind).Keys)
  }

  lemma TokenOrder(m: Meaning, convert: Converter, tx: BlockTx)
    ensures WithTokens(m, convert, tx)
         == WithContracts(WithContracts(m, convert, tx, NftKind, ContractsOf(tx, NftKind).Keys),
                          convert, tx, Erc20Kind, ContractsOf(tx, Erc20Kind).Keys)
  {
  }

  /** The two maps of token contracts, either one first. */
  method AddTokens(convert: Converter, tx: BlockTx, draft: Draft, ghost m: Meaning) returns (ok: bool, result: Draft)
    requires Records(draft, m)
    ensures ok == !(ContractKindBroken(convert, ContractsOf(tx, Erc20Kind))
                    || ContractKindBroken(convert, ContractsOf(tx, NftKind)))
    ensures ok ==> Records(result, WithTokens(m, convert, tx))
  {
    var first :| first in TOKEN_KINDS;
    var second := if first == Erc20Kind then NftKind else Erc20Kind;
    assert first == Erc20Kind || first == NftKind;
    TokenOrder(m, convert, tx);
    ok, result := AddContracts(convert, first, tx, draft, m);
    if !ok {
      return;
    }
    ok, result := AddContracts(convert, second, tx, result,
                               WithContracts(m, convert, tx, first, ContractsOf(tx, first).Keys));
  }

  function AfterTx(convert: Converter, tx: BlockTx, known: set<string>, holdings: set<Holding>): Meaning {
    WithTokens(WithLists(Meaning({}, known, holdings), convert, tx, ALL_KINDS), convert, tx)
  }

  lemma EveryKind(k: Kind)
    ensures k in ALL_KINDS
  {
    match k case SignerKind => case Erc20Kind => case NftKind => case NormalKind =>
  }

  lemma AfterTxFacts(convert: Converter, tx: BlockTx, known: set<string>, holdings: set<Holding>)
    ensures forall f :: f in AfterTx(convert, tx, known, holdings).facts <==> PlaysRole(convert, tx, f)
  {
    forall f ensures f in AfterTx(convert, tx, known, holdings).facts <==> PlaysRole(convert, tx, f) {
      var listed := ListAddresses(convert, InvolversOf(tx, f.kind));
      EveryKind(f.kind);
      assert f in ListedFacts(convert, tx, ALL_KINDS) <==> f.address in listed;
      HolderFact(convert, tx, Erc20Kind, f);
      HolderFact(convert, tx, NftKind, f);
    }
  }

  lemma HolderFact(convert: Converter, tx: BlockTx, kind: Kind, f: Fact)
    ensures f in FactsFor(HoldersIn(convert, tx, kind, ContractsOf(tx, kind).Keys), kind)
       <==> f.kind == kind && exists contract :: f.address in HoldersOf(convert, tx, kind, contract)
  {
  }

  lemma AfterTxHoldings(convert: Converter, tx: BlockTx, known: set<string>, holdings: set<Holding>)
    ensures forall h :: h in AfterTx(convert, tx, known, holdings).holdings <==> h in holdings || Holds(convert, tx, h)
  {
  }

  lemma AfterTxKnown(convert: Converter, tx: BlockTx, known: set<string>, holdings: set<Holding>)
    ensures forall a :: a in AfterTx(convert, tx, known, holdings).known <==> a in known || Involved(convert, tx, a)
  {
    forall a ensures a in AfterTx(convert, tx, known, holdings).known <==> a in known || Involved(convert, tx, a) {
      if a in ListedAddresses(convert, tx, ALL_KINDS) {
        var k :| k in ALL_KINDS && a in ListAddresses(convert, InvolversOf(tx, k));
        assert PlaysRole(convert, tx, Fact(a, k));
      } else if a in HoldersIn(convert, tx, Erc20Kind, ContractsOf(tx, Erc20Kind).Keys) {
        assert PlaysRole(convert, tx, Fact(a, Erc20Kind));
      } else if a in HoldersIn(convert, tx, NftKind, ContractsOf(tx, NftKind).Keys) {
        assert PlaysRole(convert, tx, Fact(a, NftKind));
      } else {
        forall k ensures !PlaysRole(convert, tx, Fact(a, k)) {
          EveryKind(k);
          HolderFact(convert, tx, k, Fact(a, k));
        }
      }
    }
  }

  /** What one transaction adds to what the block has said so far. */
  ghost predicate MeansTx(convert: Converter, tx: BlockTx, known: set<string>, holdings: set<Holding>, m: Meaning) {
    && (forall f :: f in m.facts <==> PlaysRole(convert, tx, f))
    && (forall a :: a in m.known <==> a in known || Involved(convert, tx, a))
    && (forall h :: h in m.holdings <==> h in holdings || Holds(convert, tx, h))
  }

  /** Both passes over one transaction: every role the address plays, every balance it holds. */
  method AddTx(convert: Converter, tx: BlockTx, draft: Draft, ghost known: set<string>, ghost holdings: set<Holding>)
    returns (ok: bool, result: Draft, ghost m: Meaning)
    requires draft.flags == map[] && Records(draft, Meaning({}, known, holdings))
    ensures ok == !TxBroken(convert, tx)
    ensures ok ==> MeansTx(convert, tx, known, holdings, m) && Records(result, m)
  {
    m := AfterTx(convert, tx, known, holdings);
    if !tx.valueParses {
      return false, draft, m;
    }
    ghost var nothing := Meaning({}, known, holdings);
    ok, result := AddLists(convert, tx, draft, nothing);
    if !ok {
      return;
    }
    ok, result := AddTokens(convert, tx, result, WithLists(nothing, convert, tx, ALL_KINDS));
    AfterTxFacts(convert, tx, known, holdings);
    AfterTxKnown(convert, tx, known, holdings);
    AfterTxHoldings(convert, tx, known, holdings);
  }

  /** One reference row per address of the transaction, in map order. */
  method RefRows(convert: Converter, chainId: string, height: int, tx: BlockTx, flags: map<string, Flags>)
    returns (refs: seq<RefRow>)
    requires forall a :: a in flags <==> Involved(convert, tx, a)
    requires forall a :: a in flags ==> flags[a] == RoleFlags(convert, tx, a)
    ensures RefRowsOfTx(convert, chainId, height, tx, refs)
  {
    refs := [];
    var waiting := flags.Keys;
    while waiting != {}
      invariant waiting <= flags.Keys
      invariant DistinctKeys(refs)
      invariant forall row ::
                  row in refs <==> row.key.address !in waiting && IsRefRow(convert, chainId, height, tx, row)
    {
      var a :| a in waiting;
      assert forall i :: 0 <= i < |refs| ==> refs[i] in refs;
      refs := refs + [RefRow(RefKey(chainId, a, height, tx.hash), flags[a])];
      waiting := waiting - {a};
    }
  }

  /** The account rows of the block, in map order. */
  method AccountRows(chainId: string, accounts: map<string, Contracts>) returns (rows: seq<AccountInsert>)
    ensures forall i, j :: 0 <= i < j < |rows| ==> rows[i].key != rows[j].key
    ensures forall row :: row in rows <==>
              row.key == AccountKey(chainId, row.key.address) && row.key.address in accounts
              && row.erc20 == accounts[row.key.address].erc20 && row.nft == accounts[row.key.address].nft
  {
    rows := [];
    var waiting := accounts.Keys;
    while waiting != {}
      invariant waiting <= accounts.Keys
      invariant forall i, j :: 0 <= i < j < |rows| ==> rows[i].key != rows[j].key
      invariant forall row :: row in rows <==>
                  row.key == AccountKey(chainId, row.key.address) && row.key.address in accounts.Keys - waiting
                  && row.erc20 == accounts[row.key.address].erc20 && row.nft == accounts[row.key.address].nft
    {
      var a :| a in waiting;
      assert forall i :: 0 <= i < |rows| ==> rows[i] in rows;
      rows := rows + [AccountInsert(AccountKey(chainId, a), accounts[a].erc20, accounts[a].nft)];
      waiting := waiting - {a};
    }
  }

  // The rows of the first n transactions, one transaction at a time.

  ghost predicate InvolvedBy(convert: Converter, txs: seq<BlockTx>, n: nat, a: string)
    requires n <= |txs|
  {
    n > 0 && (InvolvedBy(convert, txs, n - 1, a) || Involved(convert, txs[n - 1], a))
  }

  ghost predicate HoldsBy(convert: Converter, txs: seq<BlockTx>, n: nat, h: Holding)
    requires n <= |txs|
  {
    n > 0 && (HoldsBy(convert, txs, n - 1, h) || Holds(convert, txs[n - 1], h))
  }

  lemma {:induction false} InvolvedBySome(convert: Converter, txs: seq<BlockTx>, n: nat, a: string)
    requires n <= |txs|
    ensures InvolvedBy(convert, txs, n, a) <==> exists i :: 0 <= i < n && Involved(convert, txs[i], a)
  {
    if n > 0 {
      InvolvedBySome(convert, txs, n - 1, a);
    }
  }

  lemma {:induction false} HoldsBySome(convert: Converter, txs: seq<BlockTx>, n: nat, h: Holding)
    requires n <= |txs|
    ensures HoldsBy(convert, txs, n, h) <==> exists i :: 0 <= i < n && Holds(convert, txs[i], h)
  {
    if n > 0 {
      HoldsBySome(convert, txs, n - 1, h);
    }
  }

  ghost predicate BlockMeans(convert: Converter, txs: seq<BlockTx>, n: nat, known: set<string>, holdings: set<Holding>)
    requires n <= |txs|
  {
    && (forall a :: a in known <==> InvolvedBy(convert, txs, n, a))
    && (forall h :: h in holdings <==> HoldsBy(convert, txs, n, h))
  }

  /** The two maps after one transaction; the flags are then forgotten, the accounts kept. */
  lemma DraftOfTx(convert: Converter, tx: BlockTx, draft: Draft, known: set<string>, holdings: set<Holding>, m: Meaning)
    requires Records(draft, m) && MeansTx(convert, tx, known, holdings, m)
    ensures forall a :: a in draft.flags <==> Involved(convert, tx, a)
    ensures forall a :: a in draft.flags ==> draft.flags[a] == RoleFlags(convert, tx, a)
    ensures draft.flags != map[] <==> Involves(convert, tx)
    ensures Records(Draft(map[], draft.accounts), Meaning({}, m.known, m.holdings))
  {
    if draft.flags != map[] {
      assert draft.flags.Keys != {};
      var a :| a in draft.flags;
    }
  }

  lemma OneMoreTxMeaning(convert: Converter, txs: seq<BlockTx>, n: nat, known: set<string>, holdings: set<Holding>,
                         m: Meaning)
    requires n < |txs| && BlockMeans(convert, txs, n, known, holdings) && MeansTx(convert, txs[n], known, holdings, m)
    ensures BlockMeans(convert, txs, n + 1, m.known, m.holdings)
  {
    forall a ensures InvolvedBy(convert, txs, n + 1, a)
        <==> InvolvedBy(convert, txs, n, a) || Involved(convert, txs[n], a) {
    }
    forall h ensures HoldsBy(convert, txs, n + 1, h) <==> HoldsBy(convert, txs, n, h) || Holds(convert, txs[n], h) {
    }
  }

  ghost predicate BrokenBy(convert: Converter, txs: seq<BlockTx>, n: nat)
    requires n <= |txs|
  {
    n > 0 && (BrokenBy(convert, txs, n - 1) || TxBroken(convert, txs[n - 1]))
  }

  lemma {:induction false} BrokenBySome(convert: Converter, txs: seq<BlockTx>, n: nat)
    requires n <= |txs|
    ensures BrokenBy(convert, txs, n) <==> exists i :: 0 <= i < n && TxBroken(convert, txs[i])
  {
    if n > 0 {
      BrokenBySome(convert, txs, n - 1);
    }
  }

  /** Once one transaction is broken the block is. */
  lemma {:induction false} BrokenStays(convert: Converter, txs: seq<BlockTx>, n: nat, m: nat)
    requires n <= m <= |txs| && BrokenBy(convert, txs, n)
    ensures BrokenBy(convert, txs, m)
  {
    if n < m {
      BrokenStays(convert, txs, n, m - 1);
    }
  }

  /** The rows of the first n transactions, apart from the account rows, which are built at the end. */
  ghost predicate RowsSoFar(convert: Converter, chainId: string, block: Block, n: nat, rows: Rows)
    requires n <= |block.txs|
  {
    && rows.transactions == TransactionRows(chainId, block)[..n]
    && rows.accounts == []
    && rows.recent == RecentRows(convert, chainId, block, n)
    && AreRefRows(convert, chainId, block.height, block.txs, n, rows.refs)
  }

  ghost predicate DraftSoFar(convert: Converter, block: Block, n: nat, draft: Draft, known: set<string>,
                             holdings: set<Holding>)
    requires n <= |block.txs|
  {
    && draft.flags == map[]
    && Records(draft, Meaning({}, known, holdings))
    && BlockMeans(convert, block.txs, n, known, holdings)
  }

  lemma OneMoreTxRows(convert: Converter, chainId: string, block: Block, n: nat, rows: Rows,
                      transaction: TransactionInsert, recent: seq<RecentInsert>, refs: seq<RefRow>)
    requires n < |block.txs| && RowsSoFar(convert, chainId, block, n, rows)
    requires transaction == TransactionRows(chainId, block)[n]
    requires recent == if Involves(convert, block.txs[n]) then [RecentRowOf(chainId, block, block.txs[n])] else []
    requires RefRowsOfTx(convert, chainId, block.height, block.txs[n], refs)
    ensures RowsSoFar(convert, chainId, block, n + 1,
                      Rows(rows.transactions + [transaction], [], rows.recent + recent, rows.refs + refs))
  {
    var k := |rows.refs|;
    assert (rows.refs + refs)[..k] == rows.refs && (rows.refs + refs)[k..] == refs;
    assert LastRefsFrom(convert, chainId, block.height, block.txs, n + 1, rows.refs + refs, k);
  }

  ghost predicate BuiltSoFar(convert: Converter, chainId: string, block: Block, n: nat,
                             rows: Rows, draft: Draft, known: set<string>, holdings: set<Holding>)
    requires n <= |block.txs|
  {
    && !BrokenBy(convert, block.txs, n)
    && RowsSoFar(convert, chainId, block, n, rows)
    && DraftSoFar(convert, block, n, draft, known, holdings)
  }

  lemma NothingBuilt(convert: Converter, chainId: string, block: Block)
    ensures BuiltSoFar(convert, chainId, block, 0, Rows([], [], [], []), Draft(map[], map[]), {}, {})
  {
  }

  lemma OneMoreTx(convert: Converter, chainId: string, block: Block, n: nat, rows: Rows, draft: Draft,
                  known: set<string>,
                  holdings: set<Holding>, accounts: map<string, Contracts>, m: Meaning, recent: seq<RecentInsert>,
                  refs: seq<RefRow>)
    requires n < |block.txs| && BuiltSoFar(convert, chainId, block, n, rows, draft, known, holdings)
    requires !TxBroken(convert, block.txs[n]) && MeansTx(convert, block.txs[n], known, holdings, m)
    requires Records(Draft(map[], accounts), Meaning({}, m.known, m.holdings))
    requires recent == if Involves(convert, block.txs[n]) then [RecentRowOf(chainId, block, block.txs[n])] else []
    requires RefRowsOfTx(convert, chainId, block.height, block.txs[n], refs)
    ensures BuiltSoFar(convert, chainId, block, n + 1,
                       Rows(rows.transactions + [TransactionRows(chainId, block)[n]], [], rows.recent + recent,
                            rows.refs + refs),
                       Draft(map[], accounts), m.known, m.holdings)
  {
    OneMoreTxRows(convert, chainId, block, n, rows, TransactionRows(chainId, block)[n], recent, refs);
    OneMoreTxMeaning(convert, block.txs, n, known, holdings, m);
  }

  /** One turn of the loop over the block's transactions. */
  method NextTx(convert: Converter, chainId: string, block: Block, n: nat,
                rows: Rows, draft: Draft, ghost known: set<string>, ghost holdings: set<Holding>)
    returns (ok: bool, newRows: Rows, newDraft: Draft, ghost newKnown: set<string>, ghost newHoldings: set<Holding>)
    requires n < |block.txs| && BuiltSoFar(convert, chainId, block, n, rows, draft, known, holdings)
    ensures !ok ==> BrokenBy(convert, block.txs, n + 1)
    ensures ok == BuiltSoFar(convert, chainId, block, n + 1, newRows, newDraft, newKnown, newHoldings)
  {
    var tx := block.txs[n];
    newRows, newDraft, newKnown, newHoldings := rows, draft, known, holdings;
    ghost var m;
    ok, newDraft, m := AddTx(convert, tx, draft, known, holdings);
    if !ok {
      return;
    }
    DraftOfTx(convert, tx, newDraft, known, holdings, m);
    var refs := RefRows(convert, chainId, block.height, tx, newDraft.flags);
    var transaction := TransactionInsert(TransactionKey(chainId, block.height, tx.hash, block.Week()),
                                         TransactionDetails(block, tx));
    var recent := if newDraft.flags == map[] then [] else [RecentRowOf(chainId, block, tx)];
    OneMoreTx(convert, chainId, block, n, rows, draft, known, holdings, newDraft.accounts, m, recent, refs);
    newRows := Rows(rows.transactions + [transaction], [], rows.recent + recent, rows.refs + refs);
    newKnown, newHoldings := m.known, m.holdings;
    newDraft := Draft(map[], newDraft.accounts);
  }

  /** The loop over the block's transactions. */
  method BuildTxs(convert: Converter, chainId: string, block: Block)
    returns (ok: bool, rows: Rows, draft: Draft, ghost known: set<string>, ghost holdings: set<Holding>)
    ensures !ok ==> BrokenBy(convert, block.txs, |block.txs|)
    ensures ok == BuiltSoFar(convert, chainId, block, |block.txs|, rows, draft, known, holdings)
  {
    ok, rows, draft, known, holdings := true, Rows([], [], [], []), Draft(map[], map[]), {}, {};
    NothingBuilt(convert, chainId, block);
    var n := 0;
    while ok && n < |block.txs|
      invariant n <= |block.txs|
      invariant ok == BuiltSoFar(convert, chainId, block, n, rows, draft, known, holdings)
      invariant !ok ==> BrokenBy(convert, block.txs, n)
      decreases |block.txs| - n
    {
      ok, rows, draft, known, holdings := NextTx(convert, chainId, block, n, rows, draft, known, holdings);
      n := n + 1;
    }
    if !ok {
      BrokenStays(convert, block.txs, n, |block.txs|);
    }
  }

  /** Whatever order Go's maps are walked in: an error exactly if some entry that must be converted cannot be,
      otherwise the rows the block determines. */
  method BuildRows(convert: Converter, chainId: string, block: Block) returns (result: Result<Rows>)
    ensures result.Failure? <==> BlockBroken(convert, block)
    ensures result.Success? ==> AreRowsOf(convert, chainId, block, result.value)
  {
    var ok, rows, draft, known, holdings := BuildTxs(convert, chainId, block);
    BrokenBySome(convert, block.txs, |block.txs|);
    if !ok {
      return Failure(BadAddress);
    }
    var accounts := AccountRows(chainId, draft.accounts);
    AccountRowsFit(convert, chainId, block.txs, draft.accounts, known, holdings, accounts);
    return Success(rows.(accounts := accounts));
  }

  lemma AccountRowsFit(convert: Converter, chainId: string, txs: seq<BlockTx>, accounts: map<string, Contracts>,
                       known: set<string>, holdings: set<Holding>, rows: seq<AccountInsert>)
    requires Records(Draft(map[], accounts), Meaning({}, known, holdings))
    requires BlockMeans(convert, txs, |txs|, known, holdings)
    requires forall i, j :: 0 <= i < j < |rows| ==> rows[i].key != rows[j].key
    requires forall row :: row in rows <==>
               row.key == AccountKey(chainId, row.key.address) && row.key.address in accounts
               && row.erc20 == accounts[row.key.address].erc20 && row.nft == accounts[row.key.address].nft
    ensures AreAccountRows(convert, chainId, txs, rows)
  {
    assert forall i :: 0 <= i < |rows| ==> rows[i] in rows;
    forall a ensures a in known <==> exists i :: 0 <= i < |txs| && Involved(convert, txs[i], a) {
      InvolvedBySome(convert, txs, |txs|, a);
    }
    forall h ensures h in holdings <==> exists i :: 0 <= i < |txs| && Holds(convert, txs[i], h) {
      HoldsBySome(convert, txs, |txs|, h);
    }
    forall k: AccountKey | k.chainId == chainId && k.address in known ensures HasAccountRow(rows, k) {
      assert AccountInsert(k, accounts[k.address].erc20, accounts[k.address].nft) in rows;
    }
  }
}
