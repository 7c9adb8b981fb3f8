/** be_getTransactionsInBlockRange after decoding: the range checks and the change of shape
    (indexer/services/query/be_json_rpc_query_svc.go). */
module QueryService {
  import opened Common

  /** One entry of the response's block map: the key parsed as a number, if it parses; whether the block has no
      transactions; and whether the database would accept it. `Deliveries` says which blocks are valid. */
  datatype RawBlock = RawBlock(key: Option<int>, empty: bool, valid: bool)

  /** Rejected: no response, not decodable, not passing its basic validation, or for another chain. */
  datatype Raw = Rejected | Raw(blocks: seq<RawBlock>, missing: seq<int>, errors: seq<int>)

  datatype BlockAnswer = BlockAnswer(height: int, empty: bool, valid: bool) {
    /** Indexing the block succeeds if no database call fails: empty blocks bring no rows. */
    predicate Good() { empty || valid }
  }

  datatype Answer = NoAnswer | Answer(blocks: seq<BlockAnswer>, missing: seq<int>, errors: seq<int>)

  predicate AllWithin(heights: seq<int>, from: int, to: int) {
    forall i :: 0 <= i < |heights| ==> from <= heights[i] <= to
  }

  predicate KeysWithin(blocks: seq<RawBlock>, from: int, to: int) {
    forall i :: 0 <= i < |blocks| ==> blocks[i].key.Some? && from <= blocks[i].key.value <= to
  }

  /** Every height an answer mentions was asked for. */
  predicate WithinRange(a: Answer, from: int, to: int) {
    a.Answer? ==>
      && AllWithin(a.missing, from, to)
      && AllWithin(a.errors, from, to)
      && forall i :: 0 <= i < |a.blocks| ==> from <= a.blocks[i].height <= to
  }

  /** Every height asked for is mentioned; the program does not check this. */
  predicate Complete(a: Answer, from: int, to: int) {
    a.Answer? ==> forall h :: from <= h <= to ==> Mentioned(a, h)
  }

  predicate Mentioned(a: Answer, h: int)
    requires a.Answer?
  {
    h in a.missing || h in a.errors || HasBlock(a.blocks, h)
  }

  predicate HasBlock(blocks: seq<BlockAnswer>, h: int) {
    exists i :: 0 <= i < |blocks| && blocks[i].height == h
  }

  function BlockOf(block: RawBlock): BlockAnswer
    requires block.key.Some?
  {
    BlockAnswer(block.key.value, block.empty, block.valid)
  }

  function BlocksOf(blocks: seq<RawBlock>): (answers: seq<BlockAnswer>)
    requires forall i :: 0 <= i < |blocks| ==> blocks[i].key.Some?
    ensures |answers| == |blocks|
    ensures forall i :: 0 <= i < |blocks| ==> answers[i] == BlockOf(blocks[i])
  {
    seq(|blocks|, i requires 0 <= i < |blocks| => BlockOf(blocks[i]))
  }

  function Transform(raw: Raw, from: int, to: int): (a: Answer)
    ensures WithinRange(a, from, to)
  {
    match raw
    case Rejected => NoAnswer
    case Raw(blocks, missing, errors) =>
      if AllWithin(missing, from, to) && AllWithin(errors, from, to) && KeysWithin(blocks, from, to)
      then Answer(BlocksOf(blocks), missing, errors)
      else NoAnswer
  }

  /** The three loops of BeTransactionsInBlockRange; any height out of range rejects the whole response. */
  method TransactionsInBlockRange(raw: Raw, from: int, to: int) returns (a: Answer)
    ensures a == Transform(raw, from, to)
  {
    if raw.Rejected? {
      return NoAnswer;
    }
    for i := 0 to |raw.missing|
      invariant AllWithin(raw.missing[..i], from, to)
    {
      if raw.missing[i] < from || raw.missing[i] > to {
        return NoAnswer;
      }
    }
    for i := 0 to |raw.errors|
      invariant AllWithin(raw.errors[..i], from, to)
    {
      if raw.errors[i] < from || raw.errors[i] > to {
        return NoAnswer;
      }
    }
    var blocks: seq<BlockAnswer> := [];
    for i := 0 to |raw.blocks|
      invariant KeysWithin(raw.blocks[..i], from, to)
      invariant |blocks| == i
      invariant forall j :: 0 <= j < i ==> blocks[j] == BlockOf(raw.blocks[j])
    {
      assert raw.blocks[..i + 1] == raw.blocks[..i] + [raw.blocks[i]];
      var key := raw.blocks[i].key;
      if key.None? || key.value < from || key.value > to {
        return NoAnswer;
      }
      blocks := blocks + [BlockOf(raw.blocks[i])];
    }
    assert raw.blocks[..|raw.blocks|] == raw.blocks;
    assert raw.missing[..|raw.missing|] == raw.missing && raw.errors[..|raw.errors|] == raw.errors;
    assert blocks == BlocksOf(raw.blocks);
    return Answer(blocks, raw.missing, raw.errors);
  }

  // ---- what an answer keeps of its response

  predicate HeightMeant(b: RawBlock, from: int, to: int) {
    b.key.Some? && from <= b.key.value <= to
  }

  /** The response is usable at all: every height in it can be read and was asked for. */
  ghost predicate Accepted(raw: Raw, from: int, to: int) {
    && raw.Raw?
    && (forall h :: h in raw.missing || h in raw.errors ==> from <= h <= to)
    && forall b :: b in raw.blocks ==> HeightMeant(b, from, to)
  }

  /** An answer is given exactly for an accepted response, and loses, adds or changes nothing. */
  lemma AnswerKeepsAll(raw: Raw, from: int, to: int)
    ensures var a := Transform(raw, from, to);
            && (a.Answer? <==> Accepted(raw, from, to))
            && (a.Answer? ==> a.missing == raw.missing && a.errors == raw.errors && |a.blocks| == |raw.blocks|)
            && (a.Answer? ==> forall i :: 0 <= i < |raw.blocks| ==>
                  raw.blocks[i] == RawBlock(Some(a.blocks[i].height), a.blocks[i].empty, a.blocks[i].valid))
  {
    if raw.Raw? {
      assert forall i :: 0 <= i < |raw.blocks| ==> raw.blocks[i] in raw.blocks;
      assert forall i :: 0 <= i < |raw.missing| ==> raw.missing[i] in raw.missing;
      assert forall i :: 0 <= i < |raw.errors| ==> raw.errors[i] in raw.errors;
    }
  }

  predicate Delivers(raw: Raw, h: int)
    requires raw.Raw?
  {
    exists b :: b in raw.blocks && b.key == Some(h)
  }

  predicate SpeaksOf(raw: Raw, h: int)
    requires raw.Raw?
  {
    h in raw.missing || h in raw.errors || Delivers(raw, h)
  }

  /** If the response is accepted, it speaks of every height asked for. */
  ghost predicate CompleteResponse(raw: Raw, from: int, to: int) {
    Accepted(raw, from, to) ==> forall h :: from <= h <= to ==> SpeaksOf(raw, h)
  }

  lemma SpokenOf(raw: Raw, from: int, to: int, h: int)
    requires Accepted(raw, from, to)
    ensures Transform(raw, from, to).Answer?
    ensures Mentioned(Transform(raw, from, to), h) <==> SpeaksOf(raw, h)
  {
    AnswerKeepsAll(raw, from, to);
    var a := Transform(raw, from, to);
    if Delivers(raw, h) {
      var b :| b in raw.blocks && b.key == Some(h);
      var i :| 0 <= i < |raw.blocks| && raw.blocks[i] == b;
      assert a.blocks[i].height == h;
    }
    if HasBlock(a.blocks, h) {
      var i :| 0 <= i < |a.blocks| && a.blocks[i].height == h;
      assert raw.blocks[i] in raw.blocks && raw.blocks[i].key == Some(h);
    }
  }

  lemma CompleteIff(raw: Raw, from: int, to: int)
    ensures Complete(Transform(raw, from, to), from, to) <==> CompleteResponse(raw, from, to)
  {
    AnswerKeepsAll(raw, from, to);
    if Accepted(raw, from, to) {
      forall h ensures Mentioned(Transform(raw, from, to), h) <==> SpeaksOf(raw, h) {
        SpokenOf(raw, from, to, h);
      }
    }
  }

  // ---- ascending order of the blocks

  predicate AscendingBlocks(blocks: seq<BlockAnswer>) {
    forall i, j :: 0 <= i < j < |blocks| ==> blocks[i].height <= blocks[j].height
  }

  function InsertBlock(blocks: seq<BlockAnswer>, b: BlockAnswer): (s: seq<BlockAnswer>)
    requires AscendingBlocks(blocks)
    ensures AscendingBlocks(s) && |s| == |blocks| + 1
    ensures forall c :: c in s <==> c in blocks || c == b
  {
    if blocks == [] || blocks[|blocks| - 1].height <= b.height then
      blocks + [b]
    else
      var rest := InsertBlock(blocks[..|blocks| - 1], b);
      assert blocks == blocks[..|blocks| - 1] + [blocks[|blocks| - 1]];
      assert forall i :: 0 <= i < |rest| ==> rest[i].height <= blocks[|blocks| - 1].height by {
        forall i | 0 <= i < |rest| ensures rest[i].height <= blocks[|blocks| - 1].height {
          assert rest[i] in rest;
          if rest[i] != b {
            var k :| 0 <= k < |blocks| - 1 && blocks[..|blocks| - 1][k] == rest[i];
          }
        }
      }
      rest + [blocks[|blocks| - 1]]
  }

  /** slices.SortFunc by height. The order among equal heights is that of the input, which is itself arbitrary. */
  function SortByHeight(blocks: seq<BlockAnswer>): (s: seq<BlockAnswer>)
    ensures AscendingBlocks(s)
    ensures forall c :: c in s <==> c in blocks
  {
    if blocks == [] then []
    else
      assert blocks == blocks[..|blocks| - 1] + [blocks[|blocks| - 1]];
      InsertBlock(SortByHeight(blocks[..|blocks| - 1]), blocks[|blocks| - 1])
  }

  lemma {:induction false} InsertAdds(blocks: seq<BlockAnswer>, b: BlockAnswer)
    requires AscendingBlocks(blocks)
    ensures multiset(InsertBlock(blocks, b)) == multiset(blocks) + multiset{b}
  {
    if blocks != [] && blocks[|blocks| - 1].height > b.height {
      InsertAdds(blocks[..|blocks| - 1], b);
      assert blocks == blocks[..|blocks| - 1] + [blocks[|blocks| - 1]];
    }
  }

  /** Every block is kept, as often as it was delivered. */
  lemma {:induction false} SortedIsPermutation(blocks: seq<BlockAnswer>)
    ensures multiset(SortByHeight(blocks)) == multiset(blocks)
  {
    if blocks != [] {
      var init, last := blocks[..|blocks| - 1], blocks[|blocks| - 1];
      SortedIsPermutation(init);
      InsertAdds(SortByHeight(init), last);
      assert SortByHeight(blocks) == InsertBlock(SortByHeight(init), last);
      assert multiset(blocks) == multiset(init) + multiset{last} by {
        assert blocks == init + [last];
      }
    }
  }

  /** Any ascending order is what the sort yields for some arrival order. */
  lemma {:induction false} SortedIsFixed(blocks: seq<BlockAnswer>)
    requires AscendingBlocks(blocks)
    ensures SortByHeight(blocks) == blocks
  {
    if blocks != [] {
      var init, last := blocks[..|blocks| - 1], blocks[|blocks| - 1];
      SortedIsFixed(init);
      LastStaysLast(init, last);
      assert blocks == init + [last];
    }
  }

  lemma LastStaysLast(blocks: seq<BlockAnswer>, b: BlockAnswer)
    requires AscendingBlocks(blocks) && (blocks != [] ==> blocks[|blocks| - 1].height <= b.height)
    ensures InsertBlock(blocks, b) == blocks + [b]
  {
  }
}
