/** A `std::map<K, int>` used as a histogram: `counts[key]++` for every observation. */
module Histogram {

  /** `counts[key]++`: a key not yet in the map starts from zero. */
  function Bump<K>(counts: map<K, nat>, key: K): map<K, nat>
  {
    counts[key := (if key in counts then counts[key] else 0) + 1]
  }

  /** How many observations in `obs` are equal to `key`. */
  function Occurrences<K(==)>(obs: seq<K>, key: K): nat
  {
    if |obs| == 0 then 0
    else Occurrences(obs[..|obs| - 1], key) + (if obs[|obs| - 1] == key then 1 else 0)
  }

  /** The sum of all values of a histogram. */
  ghost function Total<K>(counts: map<K, nat>): nat
    decreases |counts|
  {
    if counts.Keys == {} then 0
    else
      var k :| k in counts.Keys;
      counts[k] + Total(counts - {k})
  }

  /** The sum of a histogram does not depend on which key is taken out first. */
  lemma {:induction false} TotalRemove<K>(counts: map<K, nat>, key: K)
    requires key in counts
    ensures Total(counts) == counts[key] + Total(counts - {key})
    decreases |counts|
  {
    var k :| k in counts.Keys && Total(counts) == counts[k] + Total(counts - {k});
    if k != key {
      var rest := counts - {k};
      assert key in rest;
      TotalRemove(rest, key);
      assert rest - {key} == (counts - {key}) - {k};
      assert k in counts - {key};
      TotalRemove(counts - {key}, k);
    }
  }

  /** Every `counts[key]++` adds exactly one to the sum of the histogram. */
  lemma TotalBump<K>(counts: map<K, nat>, key: K)
    ensures Total(Bump(counts, key)) == Total(counts) + 1
  {
    var bumped := Bump(counts, key);
    TotalRemove(bumped, key);
    if key in counts {
      TotalRemove(counts, key);
      assert bumped - {key} == counts - {key};
    } else {
      assert bumped - {key} == counts;
    }
  }

  /** Histogram of a sequence of observations, built in order. */
  function Tally<K(!new)>(obs: seq<K>): (counts: map<K, nat>)
    ensures forall key :: key in counts <==> Occurrences(obs, key) > 0
    ensures forall key :: key in counts ==> counts[key] == Occurrences(obs, key)
  {
    if |obs| == 0 then map[]
    else Bump(Tally(obs[..|obs| - 1]), obs[|obs| - 1])
  }

  /** The histogram of `n` observations sums to `n`. */
  lemma {:induction false} TallyTotal<K(!new)>(obs: seq<K>)
    ensures Total(Tally(obs)) == |obs|
  {
    if |obs| == 0 {
      assert Tally(obs).Keys == {};
    } else {
      TallyTotal(obs[..|obs| - 1]);
      TotalBump(Tally(obs[..|obs| - 1]), obs[|obs| - 1]);
    }
  }

  /** Observing one more element: its key is bumped and its count grows by one. */
  lemma TallyStep<K(!new)>(obs: seq<K>, n: nat)
    requires n < |obs|
    ensures Tally(obs[..n + 1]) == Bump(Tally(obs[..n]), obs[n])
    ensures forall key :: Occurrences(obs[..n + 1], key) == Occurrences(obs[..n], key) + (if obs[n] == key then 1 else 0)
  {
    assert obs[..n + 1][..n] == obs[..n];
  }
}
