/** The tables behind an account's list of recent transactions
    (indexer/database/schema/schema.sql), keyed by their primary keys. */
module Tables {
  import opened Common

  datatype AccountKey = AccountKey(chainId: string, address: string)

  datatype TxKey = TxKey(chainId: string, height: int, hash: string)

  datatype RefKey = RefKey(chainId: string, address: string, height: int, hash: string) {
    function Account(): AccountKey { AccountKey(chainId, address) }

    function Tx(): TxKey { TxKey(chainId, height, hash) }
  }

  /** The four lists the web application reads: every transaction of the account, or one flag only. */
  datatype Category = All | Signer | Erc20 | Nft

  datatype Flags = Flags(signer: bool, erc20: bool, nft: bool) {
    predicate Has(c: Category) {
      match c
      case All => true
      case Signer => signer
      case Erc20 => erc20
      case Nft => nft
    }
  }

  /** The columns of a transaction beside its key; `rest` stands for action and value. */
  datatype Details = Details(epoch: int, messageTypes: seq<string>, txType: string, rest: string)

  /** Only the counter and the contract columns; both contract columns are NOT NULL as written by the indexer. */
  datatype AccountRow = AccountRow(counter: int, erc20: seq<string>, nft: seq<string>)

  datatype RecentRow = RecentRow(refCount: int, details: Details)

  /** `week` is the epoch week inside partition_id. */
  datatype TransactionKey = TransactionKey(chainId: string, height: int, hash: string, week: int)

  /** Rows as the indexer hands them to the insert statements. */
  datatype RefRow = RefRow(key: RefKey, flags: Flags)

  datatype RecentInsert = RecentInsert(key: TxKey, details: Details)

  datatype AccountInsert = AccountInsert(key: AccountKey, erc20: seq<string>, nft: seq<string>)

  datatype TransactionInsert = TransactionInsert(key: TransactionKey, details: Details)

  /** `keepSetting` is chain_info.keep_recent_account_tx_count, None for NULL. */
  datatype Db = Db(
    keepSetting: map<string, Option<int>>,
    accounts: map<AccountKey, AccountRow>,
    recent: map<TxKey, RecentRow>,
    refs: map<RefKey, Flags>,
    pending: set<TxKey>,
    transactions: map<TransactionKey, Details>)

  const KEEP_RECENT_MIN_DEFAULT := 50
  const PRUNE_AFTER_INSERTS := 10

  /** GREATEST(COALESCE(setting, 50), 50) */
  function EffectiveKeep(setting: Option<int>): nat {
    match setting
    case None => KEEP_RECENT_MIN_DEFAULT
    case Some(n) => Max(n, KEEP_RECENT_MIN_DEFAULT)
  }

  /** The setting makes the prune keep at least k rows of each list: 50 are kept anyway. */
  predicate KeepsMany(setting: Option<int>, k: int) {
    k <= 50 || (setting.Some? && k <= setting.value)
  }

  /** The setting makes the prune keep at most k rows of each list. */
  predicate KeepsFew(setting: Option<int>, k: int) {
    50 <= k && (setting.Some? ==> setting.value <= k)
  }

  /** The rows one of the web application's four queries selects, before ORDER BY and LIMIT. */
  function RowsOf(refs: map<RefKey, Flags>, a: AccountKey, c: Category): set<RefKey> {
    set r | r in refs && r.Account() == a && refs[r].Has(c)
  }

  function RefsTo(refs: map<RefKey, Flags>, t: TxKey): set<RefKey> {
    set r | r in refs && r.Tx() == t
  }
}
