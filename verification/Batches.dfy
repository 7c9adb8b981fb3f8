/** The checks a batch of rows passes before its multi-row INSERT is built
    (ValidateBasic of the record slices), and the array clean-up of the account trigger. */
module Batches {
  import opened Common
  import opened Tables

  function UpperChar(c: char): char {
    if 'a' <= c <= 'z' then (c as int - 'a' as int + 'A' as int) as char else c
  }

  /** strings.ToUpper on the characters a transaction hash may hold. */
  function Upper(s: string): (u: string)
    ensures |u| == |s|
  {
    seq(|s|, i requires 0 <= i < |s| => UpperChar(s[i]))
  }

  predicate Space(c: char) {
    c == ' ' || '\t' <= c <= '\r' || c == '\U{85}' || c == '\U{a0}'
  }

  /** strings.ToLower and strings.TrimSpace change nothing, and something is left. */
  predicate Normalized(s: string) {
    && |s| > 0
    && !Space(s[0]) && !Space(s[|s| - 1])
    && forall i :: 0 <= i < |s| ==> !('A' <= s[i] <= 'Z')
  }

  function LowerChar(c: char): char {
    if 'A' <= c <= 'Z' then (c as int - 'A' as int + 'a' as int) as char else c
  }

  /** strings.ToLower, capital letters being A to Z. */
  function ToLower(s: string): string {
    seq(|s|, i requires 0 <= i < |s| => LowerChar(s[i]))
  }

  /** strings.TrimSpace */
  function TrimSpace(s: string): string {
    if s == [] then s
    else if Space(s[0]) then TrimSpace(s[1..])
    else if Space(s[|s| - 1]) then TrimSpace(s[..|s| - 1])
    else s
  }

  lemma {:induction false} TrimShortens(s: string)
    ensures |TrimSpace(s)| <= |s|
    ensures |TrimSpace(s)| == |s| ==> TrimSpace(s) == s && (s != [] ==> !Space(s[0]) && !Space(s[|s| - 1]))
  {
    if s != [] && Space(s[0]) {
      TrimShortens(s[1..]);
    } else if s != [] && Space(s[|s| - 1]) {
      TrimShortens(s[..|s| - 1]);
    }
  }

  /** What the records call normalized: normalizing changes nothing, and something is there. */
  lemma NormalizedIff(s: string)
    ensures Normalized(s) <==> s != "" && ToLower(TrimSpace(s)) == s
  {
    TrimShortens(s);
    if s != "" && ToLower(TrimSpace(s)) == s {
      assert |TrimSpace(s)| == |s|;
      forall i | 0 <= i < |s| ensures !('A' <= s[i] <= 'Z') {
        assert ToLower(s)[i] == s[i];
      }
    }
    if Normalized(s) {
      assert ToLower(s) == s;
    }
  }

  /** Letter by letter the same, but for case. */
  predicate EqualFold(s: string, t: string) {
    |s| == |t| && forall i :: 0 <= i < |s| ==> s[i] == t[i] || CasesOfOne(s[i], t[i]) || CasesOfOne(t[i], s[i])
  }

  predicate CasesOfOne(small: char, capital: char) {
    'a' <= small <= 'z' && small as int - capital as int == 32
  }

  lemma UpperFolds(s: string, t: string)
    ensures Upper(s) == Upper(t) <==> EqualFold(s, t)
  {
    if Upper(s) == Upper(t) {
      forall i | 0 <= i < |s| ensures s[i] == t[i] || CasesOfOne(s[i], t[i]) || CasesOfOne(t[i], s[i]) {
        assert Upper(s)[i] == Upper(t)[i];
      }
    }
    if EqualFold(s, t) {
      assert forall i :: 0 <= i < |s| ==> Upper(s)[i] == Upper(t)[i];
    }
  }

  predicate Digit(c: char) {
    '0' <= c <= '9'
  }

  predicate CosmosHash(s: string) {
    |s| == 64 && forall i :: 0 <= i < 64 ==> 'A' <= s[i] <= 'Z' || Digit(s[i])
  }

  predicate EvmHash(s: string) {
    |s| == 66 && s[0] == '0' && s[1] == 'x' && forall i :: 2 <= i < 66 ==> 'a' <= s[i] <= 'f' || Digit(s[i])
  }

  predicate HashFits(txType: string, hash: string) {
    || ((txType == "cosmos" || txType == "wasm") && CosmosHash(hash))
    || (txType == "evm" && EvmHash(hash))
  }

  // ---- single records

  predicate SoundTransaction(row: TransactionInsert) {
    && Normalized(row.key.chainId) && row.key.height >= 1
    && row.details.epoch >= 1 && row.details.messageTypes != [] && HashFits(row.details.txType, row.key.hash)
  }

  predicate SoundRecent(row: RecentInsert) {
    && Normalized(row.key.chainId) && row.key.height >= 1
    && (CosmosHash(row.key.hash) || EvmHash(row.key.hash))
    && row.details.epoch >= 1 && row.details.messageTypes != []
  }

  predicate SoundRef(row: RefRow) {
    && Normalized(row.key.chainId) && Normalized(row.key.address) && row.key.height >= 1
    && (CosmosHash(row.key.hash) || EvmHash(row.key.hash))
  }

  predicate SoundAccount(row: AccountInsert) {
    && Normalized(row.key.chainId) && Normalized(row.key.address)
    && (forall c :: c in row.erc20 ==> Normalized(c))
    && (forall c :: c in row.nft ==> Normalized(c))
  }

  // ---- batches

  /** One chain, one height, no two hashes equal up to case. */
  predicate ValidRecentBatch(rows: seq<RecentInsert>) {
    && (forall i :: 0 <= i < |rows| ==> SoundRecent(rows[i]))
    && (forall i, j :: 0 <= i < j < |rows| ==>
          && rows[i].key.chainId == rows[j].key.chainId
          && rows[i].key.height == rows[j].key.height
          && Upper(rows[i].key.hash) != Upper(rows[j].key.hash))
  }

  predicate ValidRefBatch(rows: seq<RefRow>) {
    && (forall i :: 0 <= i < |rows| ==> SoundRef(rows[i]))
    && (forall i, j :: 0 <= i < j < |rows| ==>
          rows[i].key.chainId == rows[j].key.chainId && rows[i].key.height == rows[j].key.height)
  }

  predicate ValidAccountBatch(rows: seq<AccountInsert>) {
    && (forall i :: 0 <= i < |rows| ==> SoundAccount(rows[i]))
    && (forall i, j :: 0 <= i < j < |rows| ==> rows[i].key.chainId == rows[j].key.chainId)
  }

  predicate ValidTransactionBatch(rows: seq<TransactionInsert>) {
    && (forall i :: 0 <= i < |rows| ==> SoundTransaction(rows[i]))
    && (forall i, j :: 0 <= i < j < |rows| ==>
          rows[i].key.chainId == rows[j].key.chainId && rows[i].key.height == rows[j].key.height)
  }

  // ---- the same checks, said by what normalizing leaves alone and by the form of a hash

  predicate LeftAlone(s: string) {
    s != "" && ToLower(TrimSpace(s)) == s
  }

  predicate CosmosForm(hash: string) {
    |hash| == 64 && forall c :: c in hash ==> 'A' <= c <= 'Z' || '0' <= c <= '9'
  }

  predicate EvmForm(hash: string) {
    |hash| == 66 && hash[..2] == "0x" && forall c :: c in hash[2..] ==> 'a' <= c <= 'f' || '0' <= c <= '9'
  }

  lemma HashForms(hash: string)
    ensures CosmosHash(hash) <==> CosmosForm(hash)
    ensures EvmHash(hash) <==> EvmForm(hash)
  {
    assert forall i :: 0 <= i < |hash| ==> hash[i] in hash;
    if |hash| == 66 {
      assert forall i :: 2 <= i < 66 ==> hash[2..][i - 2] == hash[i] && hash[i] in hash[2..];
      assert hash[..2] == "0x" <==> hash[0] == '0' && hash[1] == 'x' by {
        assert hash[..2] == [hash[0], hash[1]];
      }
    }
  }

  lemma SoundRecentIff(row: RecentInsert)
    ensures SoundRecent(row) <==>
              && LeftAlone(row.key.chainId) && row.key.height > 0 && row.details.epoch > 0
              && |row.details.messageTypes| > 0 && (CosmosForm(row.key.hash) || EvmForm(row.key.hash))
  {
    NormalizedIff(row.key.chainId);
    HashForms(row.key.hash);
  }

  lemma SoundTransactionIff(row: TransactionInsert)
    ensures SoundTransaction(row) <==>
              && LeftAlone(row.key.chainId) && row.key.height > 0 && row.details.epoch > 0
              && |row.details.messageTypes| > 0
              && match row.details.txType
                 case "evm" => EvmForm(row.key.hash)
                 case "cosmos" => CosmosForm(row.key.hash)
                 case "wasm" => CosmosForm(row.key.hash)
                 case _ => false
  {
    NormalizedIff(row.key.chainId);
    HashForms(row.key.hash);
  }

  lemma SoundRefIff(row: RefRow)
    ensures SoundRef(row) <==>
              && LeftAlone(row.key.chainId) && LeftAlone(row.key.address) && row.key.height > 0
              && (CosmosForm(row.key.hash) || EvmForm(row.key.hash))
  {
    NormalizedIff(row.key.chainId);
    NormalizedIff(row.key.address);
    HashForms(row.key.hash);
  }

  lemma SoundAccountIff(row: AccountInsert)
    ensures SoundAccount(row) <==>
              && LeftAlone(row.key.chainId) && LeftAlone(row.key.address)
              && forall c :: c in row.erc20 + row.nft ==> LeftAlone(c)
  {
    NormalizedIff(row.key.chainId);
    NormalizedIff(row.key.address);
    forall c ensures Normalized(c) <==> LeftAlone(c) {
      NormalizedIff(c);
    }
  }

  /** One chain, one height, and no hash twice in whatever case. */
  lemma ValidRecentBatchIff(rows: seq<RecentInsert>)
    ensures ValidRecentBatch(rows) <==>
              && (forall i :: 0 <= i < |rows| ==> SoundRecent(rows[i]))
              && forall i, j :: 0 <= i < j < |rows| ==>
                   && rows[i].key.chainId == rows[j].key.chainId && rows[i].key.height == rows[j].key.height
                   && !EqualFold(rows[i].key.hash, rows[j].key.hash)
  {
    forall i, j | 0 <= i < j < |rows|
      ensures Upper(rows[i].key.hash) == Upper(rows[j].key.hash) <==> EqualFold(rows[i].key.hash, rows[j].key.hash)
    {
      UpperFolds(rows[i].key.hash, rows[j].key.hash);
    }
  }

  // ---- what PostgreSQL takes

  /** A statement has 16 bits to count its parameters. */
  const MAX_PARAMETERS := 0xFFFF

  const TRANSACTION_PARAMETERS := 9
  const ACCOUNT_PARAMETERS := 4
  const RECENT_PARAMETERS := 7
  const REF_PARAMETERS := 7

  /** TEXT cannot hold the NUL character. */
  predicate Storable(text: string) {
    '\0' !in text
  }

  predicate AllStorable(texts: seq<string>) {
    forall text :: text in texts ==> Storable(text)
  }

  predicate StorableDetails(details: Details) {
    AllStorable(details.messageTypes) && Storable(details.rest)
  }

  predicate StorableAccount(row: AccountInsert) {
    Storable(row.key.address) && AllStorable(row.erc20) && AllStorable(row.nft)
  }

  // The chain id is in the database already, and a well-formed hash has no NUL.

  predicate SendableTransactions(rows: seq<TransactionInsert>) {
    && TRANSACTION_PARAMETERS * |rows| <= MAX_PARAMETERS
    && forall i :: 0 <= i < |rows| ==> StorableDetails(rows[i].details)
  }

  predicate SendableAccounts(rows: seq<AccountInsert>) {
    && ACCOUNT_PARAMETERS * |rows| <= MAX_PARAMETERS
    && forall i :: 0 <= i < |rows| ==> StorableAccount(rows[i])
  }

  predicate SendableRecent(rows: seq<RecentInsert>) {
    && RECENT_PARAMETERS * |rows| <= MAX_PARAMETERS
    && forall i :: 0 <= i < |rows| ==> StorableDetails(rows[i].details)
  }

  predicate SendableRefs(rows: seq<RefRow>) {
    && REF_PARAMETERS * |rows| <= MAX_PARAMETERS
    && forall i :: 0 <= i < |rows| ==> Storable(rows[i].key.address)
  }

  // ---- the check as a loop

  lemma OneMoreValid(rows: seq<RecentInsert>, i: nat)
    requires i < |rows| && ValidRecentBatch(rows[..i]) && SoundRecent(rows[i])
    requires i > 0 ==> rows[i].key.chainId == rows[0].key.chainId && rows[i].key.height == rows[0].key.height
    requires forall j :: 0 <= j < i ==> Upper(rows[j].key.hash) != Upper(rows[i].key.hash)
    ensures ValidRecentBatch(rows[..i + 1])
  {
    var less, more := rows[..i], rows[..i + 1];
    assert forall j :: 0 <= j < i ==> more[j] == less[j] == rows[j];
    forall j | 0 <= j < i
      ensures rows[j].key.chainId == rows[i].key.chainId && rows[j].key.height == rows[i].key.height
    {
      assert j > 0 ==> less[0].key.chainId == less[j].key.chainId && less[0].key.height == less[j].key.height;
    }
  }

  /** The batch check as the source runs it: one pass with the first chain, the first height and a tracker of hashes. */
  method ValidateRecentBatch(rows: seq<RecentInsert>) returns (valid: bool)
    ensures valid == ValidRecentBatch(rows)
  {
    var theOnlyChainId, theOnlyBlockHeight := "", 0;
    var uniqueHashTracker: set<string> := {};
    for i := 0 to |rows|
      invariant true == ValidRecentBatch(rows[..i])
      invariant i == 0 ==> theOnlyChainId == "" && theOnlyBlockHeight == 0
      invariant i > 0 ==> theOnlyChainId == rows[0].key.chainId && theOnlyBlockHeight == rows[0].key.height
      invariant uniqueHashTracker == set j | 0 <= j < i :: Upper(rows[j].key.hash)
    {
      var key := rows[i].key;
      assert i > 0 ==> SoundRecent(rows[..i][0]);
      if theOnlyChainId == "" {
        theOnlyChainId := key.chainId;
      } else if theOnlyChainId != key.chainId {
        return false;
      }
      if theOnlyBlockHeight == 0 {
        theOnlyBlockHeight := key.height;
      } else if theOnlyBlockHeight != key.height {
        return false;
      }
      if Upper(key.hash) in uniqueHashTracker {
        return false;
      }
      uniqueHashTracker := uniqueHashTracker + {Upper(key.hash)};
      if !SoundRecent(rows[i]) {
        return false;
      }
      OneMoreValid(rows, i);
    }
    assert rows[..|rows|] == rows;
    return true;
  }

  predicate NoDuplicates<T(==)>(s: seq<T>) {
    forall i, j :: 0 <= i < j < |s| ==> s[i] != s[j]
  }

  /** ARRAY(SELECT DISTINCT unnest(s)). PostgreSQL leaves the order open; first occurrences are one legal order. */
  function Distinct(s: seq<string>): (d: seq<string>)
    ensures NoDuplicates(d)
    ensures forall c :: c in d <==> c in s
  {
    if s == [] then []
    else
      var d := Distinct(s[..|s| - 1]);
      var last := s[|s| - 1];
      if last in d then d else d + [last]
  }

  /** With no duplicates there is nothing to clean up. */
  lemma {:induction false} DistinctIsIdentity(s: seq<string>)
    requires NoDuplicates(s)
    ensures Distinct(s) == s
  {
    if s != [] {
      DistinctIsIdentity(s[..|s| - 1]);
      assert s == s[..|s| - 1] + [s[|s| - 1]];
    }
  }
}
