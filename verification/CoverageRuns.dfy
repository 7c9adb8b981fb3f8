/** Coverage over whole runs of rounds, and exactly when the code loses a height. */
module CoverageRuns {
  import opened Common
  import opened RangeFinder
  import opened BlockBook
  import opened QueryService
  import opened Rounds
  import opened Coverage

  const START := Book(0, map[], {}, {}, 0, [])

  /** Whatever fails: the latest block never goes back, nothing is forgotten, and only a retry can drop a height. */
  lemma NewPartGrows(s: Book, env: Env, input: Input)
    requires 0 <= s.latest && NewRange(s, input).Range?
    ensures Follows(s, NewPart(s, env, input), NewRange(s, input).from, NewRange(s, input).to)
  {
    var r := NewRange(s, input);
    var fetched, heights := FetchNew(s, env, input), HeightsFromTo(r.from, r.to);
    FetchFollows(s, env, NewAnswer(input, r.from, r.to), r.from, r.to);
    assert forall i :: 0 <= i < |heights| ==> heights[i] in heights;
    MarkFollows(fetched.book, env, heights, r.from, r.to);
    FollowsTransitive(s, fetched.book, MarkFailed(fetched.book, env, heights).book, r.from, r.to);
  }

  lemma RetryPartGrows(s: Book, env: Env, input: Input)
    ensures s.latest <= RetryPart(s, env, input).latest
    ensures s.calls <= RetryPart(s, env, input).calls
    ensures s.dropped <= RetryPart(s, env, input).dropped
    ensures forall h :: s.Accounts(h) ==> RetryPart(s, env, input).Accounts(h)
  {
    var h := RetryTarget(s, input);
    if h > 0 {
      var fetched := Fetch(s, env, RetryAnswer(input, h));
      FetchFollows(s, env, RetryAnswer(input, h), h, h);
      MarkFollows(fetched.book, env, [h], h, h);
    }
  }

  lemma RoundGrows(s: Book, env: Env, input: Input)
    requires 0 <= s.latest
    ensures s.latest <= Round(s, env, input).latest
    ensures s.dropped <= Round(s, env, input).dropped
    ensures forall h :: s.Accounts(h) ==> Round(s, env, input).Accounts(h)
  {
    if NewRange(s, input).Range? {
      NewPartGrows(s, env, input);
      RetryPartGrows(NewPart(s, env, input), env, input);
    } else {
      RetryPartGrows(s, env, input);
    }
  }

  ghost function RunRounds(s: Book, env: Env, inputs: seq<Input>): (after: Book)
    requires 0 <= s.latest
    ensures 0 <= after.latest
  {
    if inputs == [] then s
    else
      var before := RunRounds(s, env, inputs[..|inputs| - 1]);
      RoundGrows(before, env, inputs[|inputs| - 1]);
      Round(before, env, inputs[|inputs| - 1])
  }

  ghost function High(s: Book, env: Env, inputs: seq<Input>, w: int): int
    requires 0 <= s.latest
  {
    if inputs == [] then w
    else HighAfter(RunRounds(s, env, inputs[..|inputs| - 1]), inputs[|inputs| - 1],
                   High(s, env, inputs[..|inputs| - 1], w))
  }

  /** In every round the answer about new blocks is complete, and the marking after a fatal error takes effect. */
  ghost predicate WellBehaved(s: Book, env: Env, inputs: seq<Input>)
    requires 0 <= s.latest
  {
    inputs != [] ==>
      var before, last := RunRounds(s, env, inputs[..|inputs| - 1]), inputs[|inputs| - 1];
      WellBehaved(s, env, inputs[..|inputs| - 1]) && CompleteNew(before, last) && MarkingLands(before, env, last)
  }

  lemma {:induction false} WellBehavedPrefix(s: Book, env: Env, inputs: seq<Input>, n: nat)
    requires 0 <= s.latest && n <= |inputs| && WellBehaved(s, env, inputs)
    ensures WellBehaved(s, env, inputs[..n])
    decreases |inputs|
  {
    if n == |inputs| {
      assert inputs[..n] == inputs;
    } else {
      assert inputs[..|inputs| - 1][..n] == inputs[..n];
      WellBehavedPrefix(s, env, inputs[..|inputs| - 1], n);
    }
  }

  lemma {:induction false} RunSound(s: Book, env: Env, inputs: seq<Input>, w: int)
    requires SoundUpTo(s, w) && WellBehaved(s, env, inputs)
    ensures SoundUpTo(RunRounds(s, env, inputs), High(s, env, inputs, w))
  {
    if inputs != [] {
      var n := |inputs| - 1;
      RunSound(s, env, inputs[..n], w);
      RoundSound(RunRounds(s, env, inputs[..n]), env, inputs[n], High(s, env, inputs[..n], w));
    }
  }

  /** Over a whole run with retries, in any mix of failing, lost and applied calls: after every single database write
      each height up to the latest indexed block is indexed, recorded as failed, or was dropped by a retry. */
  lemma NothingSkipped(env: Env, inputs: seq<Input>)
    requires WellBehaved(START, env, inputs)
    ensures var end := RunRounds(START, env, inputs);
            && Covered(end.Now())
            && forall i :: 0 <= i < |end.trail| ==> Covered(end.trail[i])
  {
    RunSound(START, env, inputs, 0);
  }

  /** As long as nothing has been dropped, all heights between the latest block and any failed height are failed. */
  lemma FailedHeightsContiguous(env: Env, inputs: seq<Input>, h: int, top: int)
    requires WellBehaved(START, env, inputs) && RunRounds(START, env, inputs).dropped == {}
    requires RunRounds(START, env, inputs).latest < h <= top && top in RunRounds(START, env, inputs).failed
    ensures h in RunRounds(START, env, inputs).failed
  {
    RunSound(START, env, inputs, 0);
    assert RunRounds(START, env, inputs).Accounts(h);
  }

  lemma {:induction false} HighGrows(s: Book, env: Env, inputs: seq<Input>, w: int, i: nat, j: nat)
    requires 0 <= s.latest && i <= j <= |inputs|
    ensures High(s, env, inputs[..i], w) <= High(s, env, inputs[..j], w)
    ensures i < j && NewRange(RunRounds(s, env, inputs[..i]), inputs[i]).Range? ==>
              NewRange(RunRounds(s, env, inputs[..i]), inputs[i]).to <= High(s, env, inputs[..j], w)
  {
    if i < j {
      HighOneMore(s, env, inputs, w, j - 1);
      HighGrows(s, env, inputs, w, i, j - 1);
    }
  }

  lemma HighOneMore(s: Book, env: Env, inputs: seq<Input>, w: int, n: nat)
    requires 0 <= s.latest && n < |inputs|
    ensures High(s, env, inputs[..n + 1], w)
         == HighAfter(RunRounds(s, env, inputs[..n]), inputs[n], High(s, env, inputs[..n], w))
  {
    assert inputs[..n + 1][..n] == inputs[..n] && inputs[..n + 1][n] == inputs[n];
  }

  /** The ranges fetched as new blocks never overlap and only go up: as long as nothing has been dropped, a later round
      starts above the end of every earlier one. */
  lemma NewRangesIncrease(env: Env, inputs: seq<Input>, i: nat, j: nat)
    requires WellBehaved(START, env, inputs) && i < j < |inputs|
    requires NewRange(RunRounds(START, env, inputs[..i]), inputs[i]).Range?
    requires NewRange(RunRounds(START, env, inputs[..j]), inputs[j]).Range?
    requires RunRounds(START, env, inputs[..j]).dropped == {}
    ensures NewRange(RunRounds(START, env, inputs[..i]), inputs[i]).to
          < NewRange(RunRounds(START, env, inputs[..j]), inputs[j]).from
  {
    WellBehavedPrefix(START, env, inputs, j);
    RunSound(START, env, inputs[..j], 0);
    HighGrows(START, env, inputs, 0, i, j);
    var s, w := RunRounds(START, env, inputs[..j]), High(START, env, inputs[..j], 0);
    NewRangeFacts(s, inputs[j]);
    var from := NewRange(s, inputs[j]).from;
    assert !s.Accounts(from);
  }

  // ---- how a height gets lost

  lemma RetryDropsItsHeight(s: Book, env: Env, input: Input, target: int, h: int)
    ensures h in RetryHeight(s, env, input, target).dropped && h !in s.dropped ==>
              var after := RetryHeight(s, env, input, target);
              h == target && Fetch(s, env, RetryAnswer(input, h)).ok && h !in after.indexed && h !in after.failed
  {
    FetchFollows(s, env, RetryAnswer(input, target), target, target);
  }

  /** A height enters `dropped` only through a retry of that height which ended without a fatal error and without its
      block being indexed. */
  lemma OnlyRetriesDrop(s: Book, env: Env, input: Input, h: int)
    requires 0 <= s.latest
    requires h in Round(s, env, input).dropped && h !in s.dropped
    ensures var before := BeforeRetry(s, env, input);
            && Retries(s, env, input)
            && h == RetryTarget(before, input)
            && Fetch(before, env, RetryAnswer(input, h)).ok
            && h !in Round(s, env, input).indexed && h !in Round(s, env, input).failed
  {
    var before := BeforeRetry(s, env, input);
    if NewRange(s, input).Range? {
      NewPartGrows(s, env, input);
    }
    var target := RetryTarget(before, input);
    if target > 0 {
      RetryDropsItsHeight(before, env, input, target, h);
    }
  }

  // ---- what is lost stays lost

  /** Behind the latest block, with no record that could bring it back. */
  predicate Gone(s: Book, h: int) {
    1 <= h <= s.latest && h !in s.indexed && h !in s.failed
  }

  lemma FollowsKeepsGone(s: Book, after: Book, lo: int, hi: int, h: int)
    requires Gone(s, h) && Follows(s, after, lo, hi) && !(lo <= h <= hi)
    ensures Gone(after, h)
  {
  }

  lemma RetryKeepsGone(s: Book, env: Env, input: Input, h: int)
    requires Gone(s, h)
    ensures Gone(RetryPart(s, env, input), h)
  {
    var target := RetryTarget(s, input);
    if target > 0 {
      var fetched := Fetch(s, env, RetryAnswer(input, target));
      FetchFollows(s, env, RetryAnswer(input, target), target, target);
      FollowsKeepsGone(s, fetched.book, target, target, h);
      MarkFollows(fetched.book, env, [target], target, target);
      if !fetched.ok {
        FollowsKeepsGone(fetched.book, MarkFailed(fetched.book, env, [target]).book, target, target, h);
      }
    }
  }

  lemma GoneStaysGone(s: Book, env: Env, input: Input, h: int)
    requires 0 <= s.latest && Gone(s, h)
    ensures Gone(Round(s, env, input), h)
  {
    if NewRange(s, input).Range? {
      NewRangeFacts(s, input);
      NewPartGrows(s, env, input);
      FollowsKeepsGone(s, NewPart(s, env, input), NewRange(s, input).from, NewRange(s, input).to, h);
      RetryKeepsGone(NewPart(s, env, input), env, input, h);
    } else {
      RetryKeepsGone(s, env, input, h);
    }
  }

  /** No later round, whatever it is answered, indexes such a height or records it as failed. */
  lemma {:induction false} GoneForever(s: Book, env: Env, inputs: seq<Input>, h: int)
    requires 0 <= s.latest && Gone(s, h)
    ensures Gone(RunRounds(s, env, inputs), h)
  {
    if inputs != [] {
      GoneForever(s, env, inputs[..|inputs| - 1], h);
      GoneStaysGone(RunRounds(s, env, inputs[..|inputs| - 1]), env, inputs[|inputs| - 1], h);
    }
  }
}
