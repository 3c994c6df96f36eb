/** Which notes a transfer spends: at most two, and when two are not enough the two largest are merged first. */
module NoteSelection {
  import opened Numbers
  import opened Sequences

  /** A note ready to be spent. */
  datatype Input = Input(psi: string, value: nat)

  function Values(inputs: seq<Input>): (values: seq<nat>)
    ensures |values| == |inputs|
    ensures forall i | 0 <= i < |inputs| :: values[i] == inputs[i].value
  {
    seq(|inputs|, i requires 0 <= i < |inputs| => inputs[i].value)
  }

  function Sum(values: seq<nat>): nat {
    if values == [] then 0 else values[0] + Sum(values[1..])
  }

  /** The largest total that at most `m` of the values reach together. */
  function BestSum(values: seq<nat>, m: nat): nat {
    if values == [] || m == 0 then 0
    else Max(values[0] + BestSum(values[1..], m - 1), BestSum(values[1..], m))
  }

  // ---- BestSum is what it says ----

  function Chosen(values: seq<nat>, choice: seq<bool>): nat
    requires |choice| == |values|
  {
    if values == [] then 0 else (if choice[0] then values[0] else 0) + Chosen(values[1..], choice[1..])
  }

  function Count(choice: seq<bool>): nat {
    if choice == [] then 0 else (if choice[0] then 1 else 0) + Count(choice[1..])
  }

  lemma {:induction false} NoChoiceBeats(values: seq<nat>, choice: seq<bool>, m: nat)
    requires |choice| == |values| && Count(choice) <= m
    ensures Chosen(values, choice) <= BestSum(values, m)
  {
    if values != [] {
      if choice[0] {
        NoChoiceBeats(values[1..], choice[1..], m - 1);
      } else {
        NoChoiceBeats(values[1..], choice[1..], m);
        if m == 0 {
          NoneChosen(values[1..], choice[1..]);
        }
      }
    }
  }

  lemma {:induction false} NoneChosen(values: seq<nat>, choice: seq<bool>)
    requires |choice| == |values| && Count(choice) == 0
    ensures Chosen(values, choice) == 0
  {
    if values != [] {
      NoneChosen(values[1..], choice[1..]);
    }
  }

  lemma {:induction false} BestChoice(values: seq<nat>, m: nat) returns (choice: seq<bool>)
    ensures |choice| == |values| && Count(choice) <= m
    ensures Chosen(values, choice) == BestSum(values, m)
  {
    if values == [] {
      choice := [];
    } else if m == 0 {
      var rest := BestChoice(values[1..], 0);
      choice := [false] + rest;
    } else if values[0] + BestSum(values[1..], m - 1) > BestSum(values[1..], m) {
      var rest := BestChoice(values[1..], m - 1);
      choice := [true] + rest;
    } else {
      var rest := BestChoice(values[1..], m);
      choice := [false] + rest;
    }
  }

  /** One more value allowed never lowers the best total, and one value adds at most the largest. */
  lemma {:induction false} BestSumGrows(values: seq<nat>, m: nat, bound: nat)
    requires forall v <- values :: v <= bound
    ensures BestSum(values, m) <= BestSum(values, m + 1) <= BestSum(values, m) + bound
  {
    if values != [] {
      assert values[0] in values && forall v <- values[1..] :: v in values;
      BestSumGrows(values[1..], m, bound);
      if m > 0 {
        BestSumGrows(values[1..], m - 1, bound);
      }
    }
  }

  lemma {:induction false} BestSumOfAll(values: seq<nat>, m: nat)
    requires m >= |values|
    ensures BestSum(values, m) == Sum(values)
  {
    if values != [] {
      BestSumOfAll(values[1..], m - 1);
      BestSumOfAll(values[1..], m);
    }
  }

  lemma BestSumStep(first: nat, rest: seq<nat>, m: nat)
    requires m > 0
    ensures BestSum([first] + rest, m) == Max(first + BestSum(rest, m - 1), BestSum(rest, m))
  {
    assert ([first] + rest)[1..] == rest;
  }

  lemma BestSumTwoSteps(a: nat, b: nat, rest: seq<nat>, m: nat)
    requires m > 0
    ensures BestSum([a] + ([b] + rest), m)
         == Max(a + if m == 1 then 0 else Max(b + BestSum(rest, m - 2), BestSum(rest, m - 1)),
                Max(b + BestSum(rest, m - 1), BestSum(rest, m)))
  {
    BestSumStep(a, [b] + rest, m);
    BestSumStep(b, rest, m);
    if m > 1 {
      BestSumStep(b, rest, m - 1);
    }
  }

  /** The first two values may be swapped. */
  lemma BestSumSwap(a: nat, b: nat, rest: seq<nat>, m: nat)
    ensures BestSum([a] + ([b] + rest), m) == BestSum([b] + ([a] + rest), m)
  {
    if m > 0 {
      BestSumTwoSteps(a, b, rest, m);
      BestSumTwoSteps(b, a, rest, m);
      if m == 1 {
        assert BestSum(rest, 0) == 0;
      }
    }
  }

  /** Changing the tail for one that is as good changes nothing. */
  lemma BestSumTail(first: nat, a: seq<nat>, b: seq<nat>, m: nat)
    requires forall n: nat :: BestSum(a, n) == BestSum(b, n)
    ensures BestSum([first] + a, m) == BestSum([first] + b, m)
  {
    if m > 0 {
      BestSumStep(first, a, m);
      BestSumStep(first, b, m);
    }
  }

  lemma PickedParts(values: seq<nat>, i: nat)
    requires 0 < i < |values|
    ensures values == [values[0]] + values[1..] && values[1..][i - 1] == values[i]
    ensures Without(values, i) == [values[0]] + Without(values[1..], i - 1)
  {
  }

  /** Any value may be moved to the front. */
  lemma {:induction false} BestSumPick(values: seq<nat>, i: nat, m: nat)
    requires i < |values|
    ensures BestSum(values, m) == BestSum([values[i]] + Without(values, i), m)
    decreases |values|
  {
    if i == 0 {
      assert [values[0]] + Without(values, 0) == values;
    } else {
      PickedParts(values, i);
      var first, picked, others := values[0], values[i], Without(values[1..], i - 1);
      forall n: nat
        ensures BestSum(values[1..], n) == BestSum([picked] + others, n)
      {
        BestSumPick(values[1..], i - 1, n);
      }
      BestSumTail(first, values[1..], [picked] + others, m);
      BestSumSwap(first, picked, others, m);
    }
  }

  lemma MultisetWithout<T>(values: seq<T>, i: nat)
    requires i < |values|
    ensures multiset(Without(values, i)) == multiset(values) - multiset{values[i]}
  {
    assert values == values[..i] + [values[i]] + values[i + 1..];
  }

  lemma TakeOut<T>(values: seq<T>, i: nat)
    requires i < |values|
    ensures multiset(values) == multiset{values[i]} + multiset(Without(values, i))
  {
    MultisetWithout(values, i);
    assert values[i] in multiset(values);
  }

  lemma SameHead<T>(a: seq<T>, b: seq<T>) returns (i: nat)
    requires multiset(a) == multiset(b) && a != []
    ensures i < |b| && b[i] == a[0] && multiset(a[1..]) == multiset(Without(b, i))
  {
    assert a[0] in multiset(b);
    i :| 0 <= i < |b| && b[i] == a[0];
    TakeOut(a, 0);
    TakeOut(b, i);
    assert Without(a, 0) == a[1..];
    assert multiset(a[1..]) == multiset(a) - multiset{a[0]};
  }

  /** The order of the notes does not matter. */
  lemma {:induction false} BestSumPermutes(a: seq<nat>, b: seq<nat>, m: nat)
    requires multiset(a) == multiset(b)
    ensures BestSum(a, m) == BestSum(b, m)
    decreases |a|
  {
    assert |a| == |multiset(a)| == |multiset(b)| == |b|;
    if a != [] {
      var i := SameHead(a, b);
      forall n: nat
        ensures BestSum(a[1..], n) == BestSum(Without(b, i), n)
      {
        BestSumPermutes(a[1..], Without(b, i), n);
      }
      BestSumTail(a[0], a[1..], Without(b, i), m);
      BestSumPick(b, i, m);
      assert a == [a[0]] + a[1..];
    }
  }

  lemma {:induction false} SumPermutes(a: seq<nat>, b: seq<nat>)
    requires multiset(a) == multiset(b)
    ensures Sum(a) == Sum(b)
  {
    assert |a| == |multiset(a)| == |multiset(b)| == |b|;
    BestSumOfAll(a, |a|);
    BestSumOfAll(b, |a|);
    BestSumPermutes(a, b, |a|);
  }

  // ---- merging ----

  /** Replaces two notes by one with both their values. */
  function Merge(values: seq<nat>, i: nat, j: nat): (merged: seq<nat>)
    requires i < j < |values|
    ensures |merged| == |values| - 1
  {
    [values[i] + values[j]] + Without(Without(values, j), i)
  }

  lemma PickTwo(values: seq<nat>, i: nat, j: nat)
    requires i < j < |values|
    ensures multiset(values) == multiset([values[i], values[j]] + Without(Without(values, j), i))
  {
    var once := Without(values, j);
    TakeOut(values, j);
    TakeOut(once, i);
    assert once[i] == values[i];
    assert multiset([values[i], values[j]]) == multiset{values[i]} + multiset{values[j]};
  }

  lemma SumOfMerged(a: nat, b: nat, rest: seq<nat>)
    ensures Sum([a + b] + rest) == Sum([a, b] + rest)
  {
    assert ([a, b] + rest)[1..] == [b] + rest && ([b] + rest)[1..] == rest;
    assert ([a + b] + rest)[1..] == rest;
  }

  lemma BestSumOfPair(a: nat, b: nat, rest: seq<nat>, m: nat)
    requires m > 1
    ensures BestSum([a, b] + rest, m)
         == Max(a + Max(b + BestSum(rest, m - 2), BestSum(rest, m - 1)), Max(b + BestSum(rest, m - 1), BestSum(rest, m)))
  {
    assert [a, b] + rest == [a] + ([b] + rest);
    BestSumStep(a, [b] + rest, m);
    BestSumStep(b, rest, m - 1);
    BestSumStep(b, rest, m);
  }

  lemma MergedPairGainsAtMostOne(a: nat, b: nat, rest: seq<nat>, m: nat)
    requires m > 0
    ensures BestSum([a + b] + rest, m) <= BestSum([a, b] + rest, m + 1)
  {
    BestSumOfPair(a, b, rest, m + 1);
    BestSumStep(a + b, rest, m);
    BestSumGrows(rest, m, Sum(rest)) by {
      BoundedBySum(rest);
    }
  }

  /** Whatever two notes are merged, `m` notes then reach no more than `m + 1` did before. */
  lemma MergeGainsAtMostOne(values: seq<nat>, i: nat, j: nat, m: nat)
    requires i < j < |values|
    ensures BestSum(Merge(values, i, j), m) <= BestSum(values, m + 1)
  {
    if m > 0 {
      var rest := Without(Without(values, j), i);
      PickTwo(values, i, j);
      BestSumPermutes(values, [values[i], values[j]] + rest, m + 1);
      MergedPairGainsAtMostOne(values[i], values[j], rest, m);
    }
  }

  lemma {:induction false} BoundedBySum(values: seq<nat>)
    ensures forall v <- values :: v <= Sum(values)
  {
    if values != [] {
      BoundedBySum(values[1..]);
      assert values == [values[0]] + values[1..];
    }
  }

  /** Merging two notes that are at least as large as all others makes `m` notes reach exactly what `m + 1` did. */
  lemma MergedPairGainsOne(a: nat, b: nat, rest: seq<nat>, m: nat)
    requires m > 0
    requires forall v <- rest :: v <= a && v <= b
    ensures BestSum([a + b] + rest, m) == BestSum([a, b] + rest, m + 1)
  {
    var bound := if a < b then a else b;
    BestSumGrows(rest, m, bound);
    BestSumGrows(rest, m - 1, bound);
    MergedPair(a, b, rest, m, BestSum(rest, m - 1), BestSum(rest, m), BestSum(rest, m + 1));
  }

  lemma MergedPair(a: nat, b: nat, rest: seq<nat>, m: nat, fewer: nat, same: nat, more: nat)
    requires m > 0
    requires fewer == BestSum(rest, m - 1) && same == BestSum(rest, m) && more == BestSum(rest, m + 1)
    requires fewer <= same <= more && same <= fewer + a && same <= fewer + b && more <= same + a && more <= same + b
    ensures BestSum([a + b] + rest, m) == BestSum([a, b] + rest, m + 1)
  {
    BestSumOfPair(a, b, rest, m + 1);
    BestSumStep(a + b, rest, m);
  }

  /** A number of rounds of merging, each of two notes by their positions. */
  predicate ValidMerges(values: seq<nat>, rounds: seq<(nat, nat)>)
    decreases |rounds|
  {
    rounds != [] ==>
      rounds[0].0 < rounds[0].1 < |values| && ValidMerges(Merge(values, rounds[0].0, rounds[0].1), rounds[1..])
  }

  function AfterMerges(values: seq<nat>, rounds: seq<(nat, nat)>): seq<nat>
    requires ValidMerges(values, rounds)
    decreases |rounds|
  {
    if rounds == [] then values else AfterMerges(Merge(values, rounds[0].0, rounds[0].1), rounds[1..])
  }

  lemma {:induction false} MergesGainAtMost(values: seq<nat>, rounds: seq<(nat, nat)>, m: nat)
    requires ValidMerges(values, rounds)
    ensures BestSum(AfterMerges(values, rounds), m) <= BestSum(values, m + |rounds|)
    decreases |rounds|
  {
    if rounds != [] {
      var (i, j) := rounds[0];
      MergesGainAtMost(Merge(values, i, j), rounds[1..], m);
      MergeGainsAtMostOne(values, i, j, m + |rounds| - 1);
    }
  }

  /** The least number of notes, starting the search at `from`, whose best total covers the amount. */
  function LeastCount(values: seq<nat>, amount: int, from: nat): (k: nat)
    requires from <= |values| && Sum(values) >= amount
    ensures from <= k <= |values| && BestSum(values, k) >= amount
    ensures forall m | from <= m < k :: BestSum(values, m) < amount
    decreases |values| - from
  {
    if BestSum(values, from) >= amount then from
    else
      BestSumOfAll(values, |values|);
      LeastCount(values, amount, from + 1)
  }

  function Needed(values: seq<nat>, amount: int): nat
    requires Sum(values) >= amount
  {
    LeastCount(values, amount, 0)
  }

  lemma {:induction false} BestSumMonotone(values: seq<nat>, a: nat, b: nat)
    requires a <= b
    ensures BestSum(values, a) <= BestSum(values, b)
    decreases b
  {
    if a < b {
      BoundedBySum(values);
      BestSumGrows(values, b - 1, Sum(values));
      BestSumMonotone(values, a, b - 1);
    }
  }

  lemma NeededIff(values: seq<nat>, amount: int, m: nat)
    requires Sum(values) >= amount
    ensures Needed(values, amount) <= m <==> BestSum(values, m) >= amount
  {
    var k := Needed(values, amount);
    if k <= m {
      BestSumMonotone(values, k, m);
    }
  }

  /** No strategy of merging two notes at a time reaches a state in which two notes cover the amount in fewer
      rounds than the number of notes needed at the start, less two. */
  lemma NoFasterMerging(values: seq<nat>, amount: int, rounds: seq<(nat, nat)>)
    requires Sum(values) >= amount
    requires ValidMerges(values, rounds) && BestSum(AfterMerges(values, rounds), 2) >= amount
    ensures |rounds| >= Needed(values, amount) - 2
  {
    MergesGainAtMost(values, rounds, 2);
    NeededIff(values, amount, |rounds| + 2);
  }
}
