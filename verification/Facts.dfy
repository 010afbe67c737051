/** Lists of facts, read as the dictionaries the assessors and the comparator build from them. */
module Facts {
  import opened Evidence
  import opened Wrappers

  predicate DistinctKeys(facts: seq<Fact>) {
    forall i, j | 0 <= i < j < |facts| :: facts[i].key != facts[j].key
  }

  /** The value that the last of the first `n` facts with a key gives it. */
  function LastValue(facts: seq<Fact>, n: nat, key: Key): Option<Value>
    requires n <= |facts|
  {
    if n == 0 then None
    else if facts[n - 1].key == key then Some(facts[n - 1].value)
    else LastValue(facts, n - 1, key)
  }

  /** `{fact.key: fact.value for fact in facts}.get(key)` */
  function Lookup(facts: seq<Fact>, key: Key): Option<Value> {
    LastValue(facts, |facts|, key)
  }

  lemma {:induction false} LookupAt(facts: seq<Fact>, n: nat, i: nat)
    requires i < n <= |facts| && DistinctKeys(facts)
    ensures LastValue(facts, n, facts[i].key) == Some(facts[i].value)
    decreases n
  {
    if i < n - 1 {
      assert facts[i].key != facts[n - 1].key;
      LookupAt(facts, n - 1, i);
    }
  }

  /** `facts.get(key) == value`, with Python's equality. */
  predicate Equals(facts: seq<Fact>, key: Key, value: Value) {
    Lookup(facts, key).Some? && Equated(Lookup(facts, key).value) == Equated(value)
  }

  /** `facts.get(key) is flag` */
  predicate Is(facts: seq<Fact>, key: Key, flag: bool) {
    Lookup(facts, key) == Some(Flag(flag))
  }

  /** Distinct facts can all be looked up. */
  lemma LookupAll(facts: seq<Fact>)
    requires DistinctKeys(facts)
    ensures forall i | 0 <= i < |facts| :: Lookup(facts, facts[i].key) == Some(facts[i].value)
  {
    forall i | 0 <= i < |facts|
      ensures Lookup(facts, facts[i].key) == Some(facts[i].value)
    {
      LookupAt(facts, |facts|, i);
    }
  }
}
