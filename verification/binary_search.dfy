/**
 * The half-open interval search of `binary_search.ts`: over entries sorted
 * by key, find the entry `i` with `key[i] <= value < key[i + 1]`. The model
 * searches the sequence of keys and returns the index of the entry.
 */
module BinarySearch {

  /** A JavaScript number used as an entry key: negative infinity or a finite value. */
  datatype Key = NegInfinity | Finite(value: real)

  /** Strict `<` between two keys. */
  predicate KeyLt(a: Key, b: Key) {
    match a
    case NegInfinity => b.Finite?
    case Finite(x) => b.Finite? && x < b.value
  }

  /** `key <= value` for a finite query value. */
  predicate AtOrBelow(k: Key, v: real) {
    k.NegInfinity? || k.value <= v
  }

  /** `value < key` for a finite query value. */
  predicate Above(k: Key, v: real) {
    k.Finite? && v < k.value
  }

  lemma KeyLtTransitive(a: Key, b: Key, c: Key)
    requires KeyLt(a, b) && KeyLt(b, c)
    ensures KeyLt(a, c)
  {
  }

  /** Keys strictly ascending, stated for every pair of positions. */
  predicate Ascending(keys: seq<Key>) {
    forall i, j :: 0 <= i < j < |keys| ==> KeyLt(keys[i], keys[j])
  }

  /** Keys strictly ascending, stated for neighbours only. */
  predicate AdjacentAscending(keys: seq<Key>) {
    forall i :: 0 <= i < |keys| - 1 ==> KeyLt(keys[i], keys[i + 1])
  }

  lemma {:induction false} AdjacentChain(keys: seq<Key>, i: nat, j: nat)
    requires AdjacentAscending(keys)
    requires i < j < |keys|
    ensures KeyLt(keys[i], keys[j])
    decreases j - i
  {
    if i + 1 < j {
      AdjacentChain(keys, i + 1, j);
      KeyLtTransitive(keys[i], keys[i + 1], keys[j]);
    }
  }

  /** Checking neighbours suffices for a strictly ascending table. */
  lemma AdjacentAscendingIsAscending(keys: seq<Key>)
    requires AdjacentAscending(keys)
    ensures Ascending(keys)
  {
    forall i, j | 0 <= i < j < |keys| ensures KeyLt(keys[i], keys[j]) {
      AdjacentChain(keys, i, j);
    }
  }

  /** The query lies between the first key and the last one, which only bounds the search. */
  predicate InSearchRange(keys: seq<Key>, v: real) {
    2 <= |keys| && AtOrBelow(keys[0], v) && Above(keys[|keys| - 1], v)
  }

  /** Entry `i` is not the last one and its half-open interval holds `v`. */
  predicate Brackets(keys: seq<Key>, i: int, v: real) {
    0 <= i < |keys| - 1 && AtOrBelow(keys[i], v) && Above(keys[i + 1], v)
  }

  /** In an ascending table at most one interval holds a value. */
  lemma BracketsUnique(keys: seq<Key>, v: real, i: int, j: int)
    requires Ascending(keys)
    requires Brackets(keys, i, v) && Brackets(keys, j, v)
    ensures i == j
  {
  }

  /**
   * `innerSearch`: test the candidate `pos`; when the value lies below its
   * key, continue in `[lower, pos - 1]`, otherwise in `[pos + 1, upper]`,
   * each time with the floor midpoint as the next candidate. The requires
   * keep the target between `keys[lower]` and the key after `upper`.
   */
  function InnerSearch(keys: seq<Key>, v: real, lower: int, pos: int, upper: int): (r: nat)
    requires Ascending(keys) && InSearchRange(keys, v)
    requires 0 <= lower <= upper < |keys|
    requires pos == (lower + upper) / 2
    requires AtOrBelow(keys[lower], v)
    requires upper == |keys| - 1 || Above(keys[upper + 1], v)
    ensures lower <= r <= upper
    ensures Brackets(keys, r, v)
    decreases upper - lower
  {
    if AtOrBelow(keys[pos], v) && Above(keys[pos + 1], v) then
      pos
    else if Above(keys[pos], v) then
      InnerSearch(keys, v, lower, (lower + pos - 1) / 2, pos - 1)
    else
      InnerSearch(keys, v, pos + 1, (pos + 1 + upper) / 2, upper)
  }

  /**
   * `binarySearch`: the search over the whole table, starting with
   * `lower = 0`, `upper = |keys| - 1` and the floor midpoint between them.
   * It finds the one entry whose interval holds the value; the last entry
   * is never the answer.
   */
  function Search(keys: seq<Key>, v: real): (r: nat)
    requires Ascending(keys) && InSearchRange(keys, v)
    ensures r < |keys| - 1
    ensures Brackets(keys, r, v)
    ensures forall i :: Brackets(keys, i, v) ==> i == r
  {
    var r := InnerSearch(keys, v, 0, (|keys| - 1) / 2, |keys| - 1);
    assert forall i :: Brackets(keys, i, v) ==> i == r by {
      forall i | Brackets(keys, i, v) ensures i == r {
        BracketsUnique(keys, v, i, r);
      }
    }
    r
  }

  /**
   * Reference definition: the last entry, scanning from `i` down, whose key
   * is at or below the value.
   */
  function LastAtOrBelow(keys: seq<Key>, v: real, i: nat): (r: nat)
    requires i < |keys|
    requires AtOrBelow(keys[0], v)
    ensures r <= i && AtOrBelow(keys[r], v)
    ensures forall j :: r < j <= i ==> !AtOrBelow(keys[j], v)
  {
    if i == 0 || AtOrBelow(keys[i], v) then i else LastAtOrBelow(keys, v, i - 1)
  }

  /** The search agrees with a linear scan from the end of the table. */
  lemma SearchIsLinearScan(keys: seq<Key>, v: real)
    requires Ascending(keys) && InSearchRange(keys, v)
    ensures Search(keys, v) == LastAtOrBelow(keys, v, |keys| - 1)
  {
    var r := LastAtOrBelow(keys, v, |keys| - 1);
    assert r < |keys| - 1;
    if r + 1 < |keys| - 1 {
      assert !AtOrBelow(keys[r + 1], v);
    }
    assert Brackets(keys, r, v);
  }
}
