/**
 * Counting occurrences into a plain object used as a dictionary
 * (`acc[key] = (acc[key] || 0) + 1`), as two pages do. The keys come out in
 * the order they were first seen, as `Object.keys` lists them.
 */
module Tally {
  import opened Wrappers

  /** The sum of the counts of `keys`. */
  function Sum(keys: seq<string>, m: map<string, nat>): nat
    requires forall k :: k in keys ==> k in m
    decreases |keys|
  {
    if keys == [] then 0 else Sum(keys[..|keys| - 1], m) + m[keys[|keys| - 1]]
  }

  predicate Distinct(keys: seq<string>) {
    forall i, j :: 0 <= i < j < |keys| ==> keys[i] != keys[j]
  }

  /** Counting one more occurrence of a key already listed raises the sum by one. */
  lemma {:induction false} SumBump(keys: seq<string>, m: map<string, nat>, k: string)
    requires forall x :: x in keys ==> x in m
    requires Distinct(keys) && k in keys
    ensures Sum(keys, m[k := m[k] + 1]) == Sum(keys, m) + 1
    decreases |keys|
  {
    var last := keys[|keys| - 1];
    var front := keys[..|keys| - 1];
    if last == k {
      assert k !in front by {
        forall j | 0 <= j < |front| ensures front[j] != k {
          assert keys[j] == front[j];
        }
      }
      SumFresh(front, m, k, m[k] + 1);
    } else {
      assert k in front by {
        var j :| 0 <= j < |keys| && keys[j] == k;
        assert j < |keys| - 1;
        assert front[j] == k;
      }
      SumBump(front, m, k);
    }
  }

  /** Giving a count to a key that is not listed leaves the sum as it was. */
  lemma {:induction false} SumFresh(keys: seq<string>, m: map<string, nat>, k: string, v: nat)
    requires forall x :: x in keys ==> x in m
    requires k !in keys
    ensures Sum(keys, m[k := v]) == Sum(keys, m)
    decreases |keys|
  {
    if keys != [] {
      var front := keys[..|keys| - 1];
      assert forall x :: x in front ==> x in keys;
      SumFresh(front, m, k, v);
    }
  }

  /** `counts` and `order` are the tally of the present keys of `xs`. */
  ghost predicate Tallied(xs: seq<Option<string>>, counts: map<string, nat>, order: seq<string>) {
    (forall k :: k in counts <==> multiset(xs)[Some(k)] > 0) &&
    (forall k :: k in counts ==> counts[k] == multiset(xs)[Some(k)]) &&
    Distinct(order) && (forall k :: k in order <==> k in counts) &&
    Sum(order, counts) == |xs| - multiset(xs)[None]
  }

  /** An absent key changes nothing. */
  lemma NoneStep(xs: seq<Option<string>>, i: nat, counts: map<string, nat>, order: seq<string>)
    requires i < |xs| && xs[i].None? && Tallied(xs[..i], counts, order)
    ensures Tallied(xs[..i + 1], counts, order)
  {
    assert xs[..i + 1] == xs[..i] + [xs[i]];
    assert multiset(xs[..i + 1]) == multiset(xs[..i]) + multiset{None};
  }

  /** A key already counted: its count goes up by one. */
  lemma BumpStep(xs: seq<Option<string>>, i: nat, counts: map<string, nat>, order: seq<string>)
    requires i < |xs| && xs[i].Some? && xs[i].value in counts && Tallied(xs[..i], counts, order)
    ensures Tallied(xs[..i + 1], counts[xs[i].value := counts[xs[i].value] + 1], order)
  {
    var k := xs[i].value;
    assert xs[..i + 1] == xs[..i] + [xs[i]];
    assert multiset(xs[..i + 1]) == multiset(xs[..i]) + multiset{Some(k)};
    SumBump(order, counts, k);
  }

  /** A key seen for the first time: counted once and listed last. */
  lemma FreshStep(xs: seq<Option<string>>, i: nat, counts: map<string, nat>, order: seq<string>)
    requires i < |xs| && xs[i].Some? && xs[i].value !in counts && Tallied(xs[..i], counts, order)
    ensures Tallied(xs[..i + 1], counts[xs[i].value := 1], order + [xs[i].value])
  {
    var k := xs[i].value;
    assert xs[..i + 1] == xs[..i] + [xs[i]];
    assert multiset(xs[..i + 1]) == multiset(xs[..i]) + multiset{Some(k)};
    SumFresh(order, counts, k, 1);
    SumAppend(order, counts[k := 1], k);
    DistinctAppend(order, k);
  }

  lemma SumAppend(keys: seq<string>, m: map<string, nat>, k: string)
    requires forall x :: x in keys ==> x in m
    requires k in m
    ensures Sum(keys + [k], m) == Sum(keys, m) + m[k]
  {
    assert (keys + [k])[..|keys|] == keys;
  }

  lemma DistinctAppend(keys: seq<string>, k: string)
    requires Distinct(keys) && k !in keys
    ensures Distinct(keys + [k])
  {
    var longer := keys + [k];
    forall i, j | 0 <= i < j < |longer| ensures longer[i] != longer[j] {
      assert longer[i] == keys[i];
      if j < |keys| {
        assert longer[j] == keys[j];
      }
    }
  }

  /**
   * The tally of the present keys (absent ones, `None`, are skipped): each key
   * seen maps to the number of its occurrences, `order` lists every key seen
   * once in first-seen order, and the counts add up to the number of present keys.
   */
  method CountBy(xs: seq<Option<string>>) returns (counts: map<string, nat>, order: seq<string>)
    ensures forall k :: k in counts <==> Some(k) in xs
    ensures forall k :: k in counts ==> counts[k] == multiset(xs)[Some(k)] && counts[k] > 0
    ensures Distinct(order) && forall k :: k in order <==> k in counts
    ensures Sum(order, counts) == |xs| - multiset(xs)[None]
  {
    counts := map[];
    order := [];
    for i := 0 to |xs|
      invariant Tallied(xs[..i], counts, order)
    {
      if xs[i].None? {
        NoneStep(xs, i, counts, order);
      } else {
        var k := xs[i].value;
        if k in counts {
          BumpStep(xs, i, counts, order);
          counts := counts[k := counts[k] + 1];
        } else {
          FreshStep(xs, i, counts, order);
          counts := counts[k := 1];
          order := order + [k];
        }
      }
    }
    assert xs[..|xs|] == xs;
  }
}
