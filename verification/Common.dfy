/** Small shared datatypes and facts about finite sets and maps. */
module Common {
  datatype Option<+T> = None | Some(value: T)

  /** Why a statement or a batch was refused. */
  datatype Error = ForeignKeyViolation | RowTouchedTwice | InvalidBatch | NotSendable | BadAddress

  datatype Result<+T> = Failure(error: Error) | Success(value: T)

  function Min(a: int, b: int): int { if a <= b then a else b }

  function Max(a: int, b: int): int { if a >= b then a else b }

  lemma SubsetCardinality<T>(small: set<T>, large: set<T>)
    requires small <= large
    ensures |small| <= |large|
    ensures |small| == |large| ==> small == large
  {
    assert large == small + (large - small);
  }

  lemma UnionCardinality<T>(a: set<T>, b: set<T>)
    ensures |a + b| <= |a| + |b|
  {
    assert a + b == a + (b - a);
    SubsetCardinality(b - a, b);
  }

  predicate FirstAt<K(==)>(keys: seq<K>, i: nat)
    requires i < |keys|
  {
    forall j :: 0 <= j < i ==> keys[j] != keys[i]
  }

  lemma {:induction false} FirstExists<K>(keys: seq<K>, k: K)
    requires k in keys
    ensures exists i :: 0 <= i < |keys| && keys[i] == k && FirstAt(keys, i)
  {
    var init := keys[..|keys| - 1];
    if k in init {
      FirstExists(init, k);
      var i :| 0 <= i < |init| && init[i] == k && FirstAt(init, i);
      assert keys[i] == k && FirstAt(keys, i);
    } else {
      assert keys == init + [keys[|keys| - 1]];
      assert forall j :: 0 <= j < |init| ==> keys[j] == init[j] && init[j] in init;
      assert FirstAt(keys, |init|);
    }
  }

  /** INSERT ... ON CONFLICT DO NOTHING: a key is there if it was or a row has it; what was there stays, and a new key
      comes with the first row that has it. */
  ghost predicate AbsentInserted<K(!new), V>(before: map<K, V>, keys: seq<K>, values: seq<V>, after: map<K, V>) {
    && |keys| == |values|
    && (forall k :: k in after <==> k in before || k in keys)
    && (forall k :: k in before ==> k in after && after[k] == before[k])
    && (forall i :: 0 <= i < |keys| && keys[i] !in before && FirstAt(keys, i) ==>
          keys[i] in after && after[keys[i]] == values[i])
  }

  lemma OneMoreAbsent<K(!new), V>(before: map<K, V>, keys: seq<K>, values: seq<V>, after: map<K, V>, k: K, v: V)
    requires AbsentInserted(before, keys, values, after)
    ensures AbsentInserted(before, keys + [k], values + [v], if k in after then after else after[k := v])
  {
    var more := keys + [k];
    forall i | 0 <= i < |more| && more[i] !in before && FirstAt(more, i)
      ensures if i < |keys| then FirstAt(keys, i) else k !in after
    {
      if i < |keys| {
        forall j | 0 <= j < i ensures keys[j] != keys[i] {
          assert more[j] == keys[j] && more[i] == keys[i];
        }
      } else {
        forall j | 0 <= j < |keys| ensures keys[j] != k {
          assert more[j] == keys[j];
        }
      }
    }
  }
}
