/** The search for the notes of one transfer, and for the two notes to merge. */
module Selection {
  import opened Wrappers
  import opened Sequences
  import opened NoteSelection

  /** A missing second note stands for padding. */
  datatype Selected = Selected(first: Input, second: Option<Input>, change: nat, total: nat) {
    function Inputs(): seq<Input> {
      [first] + if second.Some? then [second.value] else []
    }
  }

  function Positive(inputs: seq<Input>): (r: seq<Input>)
    ensures forall n <- r :: n.value > 0 && n in inputs
    ensures |r| <= |inputs|
  {
    if inputs == [] then []
    else (if inputs[0].value > 0 then [inputs[0]] else []) + Positive(inputs[1..])
  }

  predicate SortedBy(inputs: seq<Input>, key: Input -> int) {
    forall i, j | 0 <= i < j < |inputs| :: key(inputs[i]) <= key(inputs[j])
  }

  /** Puts `n` behind every input that does not come after it. */
  function Insert(sorted: seq<Input>, n: Input, key: Input -> int): seq<Input> {
    if sorted == [] then [n]
    else if key(sorted[0]) > key(n) then [n] + sorted
    else [sorted[0]] + Insert(sorted[1..], n, key)
  }

  /** Sorting that keeps the order of inputs with equal keys. */
  function SortBy(inputs: seq<Input>, key: Input -> int): seq<Input> {
    if inputs == [] then [] else Insert(SortBy(inputs[..|inputs| - 1], key), inputs[|inputs| - 1], key)
  }

  lemma {:induction false} InsertPermutes(sorted: seq<Input>, n: Input, key: Input -> int)
    ensures multiset(Insert(sorted, n, key)) == multiset(sorted) + multiset{n}
  {
    if sorted != [] {
      InsertPermutes(sorted[1..], n, key);
      assert sorted == [sorted[0]] + sorted[1..];
    }
  }

  lemma {:induction false} InsertKeepsSorted(sorted: seq<Input>, n: Input, key: Input -> int)
    requires SortedBy(sorted, key)
    ensures SortedBy(Insert(sorted, n, key), key)
  {
    if sorted != [] && key(sorted[0]) <= key(n) {
      InsertKeepsSorted(sorted[1..], n, key);
      InsertPermutes(sorted[1..], n, key);
      var rest := Insert(sorted[1..], n, key);
      forall x <- rest
        ensures key(sorted[0]) <= key(x)
      {
        assert x in multiset(rest);
        assert x in sorted[1..] || x == n;
      }
    }
  }

  lemma {:induction false} SortBySorts(inputs: seq<Input>, key: Input -> int)
    ensures multiset(SortBy(inputs, key)) == multiset(inputs)
    ensures SortedBy(SortBy(inputs, key), key)
  {
    if inputs != [] {
      var last := |inputs| - 1;
      SortBySorts(inputs[..last], key);
      InsertPermutes(SortBy(inputs[..last], key), inputs[last], key);
      InsertKeepsSorted(SortBy(inputs[..last], key), inputs[last], key);
      assert inputs == inputs[..last] + [inputs[last]];
    }
  }

  function WithKey(inputs: seq<Input>, key: Input -> int, v: int): seq<Input> {
    if inputs == [] then [] else IfKey(inputs[0], key, v) + WithKey(inputs[1..], key, v)
  }

  lemma {:induction false} NoneWithKey(inputs: seq<Input>, key: Input -> int, v: int)
    requires forall n <- inputs :: key(n) > v
    ensures WithKey(inputs, key, v) == []
  {
    if inputs != [] {
      assert inputs[0] in inputs && forall n <- inputs[1..] :: n in inputs;
      NoneWithKey(inputs[1..], key, v);
    }
  }

  function IfKey(n: Input, key: Input -> int, v: int): seq<Input> {
    if key(n) == v then [n] else []
  }

  lemma WithKeyCons(first: Input, rest: seq<Input>, key: Input -> int, v: int)
    ensures WithKey([first] + rest, key, v) == IfKey(first, key, v) + WithKey(rest, key, v)
  {
    assert ([first] + rest)[1..] == rest;
  }

  lemma {:induction false} InsertedLast(sorted: seq<Input>, n: Input, key: Input -> int, v: int)
    requires SortedBy(sorted, key)
    ensures WithKey(Insert(sorted, n, key), key, v) == WithKey(sorted, key, v) + IfKey(n, key, v)
  {
    if sorted == [] {
      WithKeyCons(n, [], key, v);
      assert [n] == [n] + [];
    } else if key(sorted[0]) > key(n) {
      WithKeyCons(n, sorted, key, v);
      if key(n) == v {
        NoneWithKey(sorted, key, v);
      }
    } else {
      InsertedLast(sorted[1..], n, key, v);
      WithKeyCons(sorted[0], Insert(sorted[1..], n, key), key, v);
      Regroup(IfKey(sorted[0], key, v), WithKey(sorted[1..], key, v), IfKey(n, key, v));
    }
  }

  lemma {:induction false} WithKeySnoc(inputs: seq<Input>, last: Input, key: Input -> int, v: int)
    ensures WithKey(inputs + [last], key, v) == WithKey(inputs, key, v) + IfKey(last, key, v)
  {
    if inputs == [] {
      WithKeyCons(last, [], key, v);
      assert inputs + [last] == [last] + [];
    } else {
      WithKeySnoc(inputs[1..], last, key, v);
      WithKeyCons(inputs[0], inputs[1..] + [last], key, v);
      assert inputs + [last] == [inputs[0]] + (inputs[1..] + [last]);
      Regroup(IfKey(inputs[0], key, v), WithKey(inputs[1..], key, v), IfKey(last, key, v));
    }
  }

  lemma SortSnoc(front: seq<Input>, last: Input, key: Input -> int)
    ensures SortBy(front + [last], key) == Insert(SortBy(front, key), last, key) && SortedBy(SortBy(front, key), key)
  {
    assert (front + [last])[..|front|] == front;
    SortBySorts(front, key);
  }

  /** Inputs with equal keys stay in the order in which they came. */
  lemma {:induction false} SortByStable(inputs: seq<Input>, key: Input -> int, v: int)
    ensures WithKey(SortBy(inputs, key), key, v) == WithKey(inputs, key, v)
  {
    if inputs != [] {
      var front, last := inputs[..|inputs| - 1], inputs[|inputs| - 1];
      assert inputs == front + [last];
      SortByStable(front, key, v);
      SortSnoc(front, last, key);
      InsertedLast(SortBy(front, key), last, key, v);
      WithKeySnoc(front, last, key, v);
    }
  }

  function Ascending(n: Input): int {
    n.value
  }

  function Descending(n: Input): int {
    0 - (n.value as int)
  }

  lemma {:induction false} BestOne(values: seq<nat>) returns (i: nat)
    requires values != []
    ensures i < |values| && BestSum(values, 1) == values[i]
  {
    if |values| == 1 {
      i := 0;
    } else {
      i := BestOne(values[1..]);
      if values[0] > values[i + 1] {
        i := 0;
      } else {
        i := i + 1;
      }
    }
  }

  /** When no single value and no two values reach the amount, neither does the best pair. */
  lemma BestOfLargestFirst(a: nat, b: nat, rest: seq<nat>)
    requires forall v <- rest :: v <= a && v <= b
    ensures BestSum([a, b] + rest, 2) == a + b
  {
    MergedPairGainsOne(a, b, rest, 1);
    BestSumStep(a + b, rest, 1);
    if rest != [] {
      var i := BestOne(rest);
      assert rest[i] in rest;
    }
  }

  /** Two values that no other exceeds are the best two. */
  lemma BestOfLargest(values: seq<nat>, a: nat, b: nat, rest: seq<nat>)
    requires multiset(values) == multiset([a, b] + rest)
    requires forall v <- rest :: v <= a && v <= b
    ensures BestSum(values, 2) == a + b
  {
    BestSumPermutes(values, [a, b] + rest, 2);
    BestOfLargestFirst(a, b, rest);
  }

  lemma {:induction false} NoPairCovers(values: seq<nat>, amount: int)
    requires values != []
    requires forall i | 0 <= i < |values| :: values[i] < amount
    requires forall i, j | 0 <= i < j < |values| :: values[i] + values[j] < amount
    ensures BestSum(values, 2) < amount
  {
    if |values| > 1 {
      var k := BestOne(values[1..]);
      assert values[0] + values[k + 1] < amount;
      NoPairCovers(values[1..], amount);
    }
  }

  lemma SingleIsCovered(values: seq<nat>, i: nat)
    requires i < |values|
    ensures BestSum(values, 2) >= values[i]
  {
    BestSumPick(values, i, 2);
    BestSumStep(values[i], Without(values, i), 2);
  }

  lemma PairIsCovered(values: seq<nat>, i: nat, j: nat)
    requires i < j < |values|
    ensures BestSum(values, 2) >= values[i] + values[j]
  {
    var rest := Without(Without(values, j), i);
    PickTwo(values, i, j);
    BestSumPermutes(values, [values[i], values[j]] + rest, 2);
    BestSumOfPair(values[i], values[j], rest, 2);
  }

  lemma ValuesWithout(s: seq<Input>, i: nat)
    requires i < |s|
    ensures multiset(Values(s)) == multiset(Values(Without(s, i))) + multiset{s[i].value}
  {
    assert Values(Without(s, i)) == Without(Values(s), i);
    MultisetWithout(Values(s), i);
    assert Values(s)[i] in multiset(Values(s));
  }

  lemma {:induction false} ValuesPermute(a: seq<Input>, b: seq<Input>)
    requires multiset(a) == multiset(b)
    ensures multiset(Values(a)) == multiset(Values(b))
    decreases |a|
  {
    assert |a| == |multiset(a)| == |multiset(b)| == |b|;
    if a != [] {
      assert a[0] in multiset(b);
      var i :| 0 <= i < |b| && b[i] == a[0];
      MultisetWithout(a, 0);
      MultisetWithout(b, i);
      ValuesPermute(Without(a, 0), Without(b, i));
      ValuesWithout(a, 0);
      ValuesWithout(b, i);
    } else {
      assert Values(a) == Values(b);
    }
  }

  lemma PairInMultiset(s: seq<Input>, i: nat, j: nat)
    requires i < j < |s|
    ensures multiset([s[i], s[j]]) <= multiset(s)
  {
    assert s == s[..i] + [s[i]] + s[i + 1..j] + [s[j]] + s[j + 1..];
  }

  /** One note that suffices if there is one, the smallest such; else two notes; nothing exactly when no two
      notes suffice or there are none. */
  ghost predicate IsSelection(notes: seq<Input>, amount: int, r: Option<Selected>) {
    && (r.None? <==> notes == [] || BestSum(Values(notes), 2) < amount)
    && (r.Some? ==>
          var s := r.value;
          && multiset(s.Inputs()) <= multiset(notes)
          && s.total == Sum(Values(s.Inputs())) && s.total - amount == s.change
          && (s.second.None? ==> forall n <- notes :: n.value >= amount ==> s.first.value <= n.value)
          && (s.second.Some? ==> forall n <- notes :: n.value < amount))
  }

  lemma SelectionPermutes(a: seq<Input>, b: seq<Input>, amount: int, r: Option<Selected>)
    requires multiset(a) == multiset(b) && IsSelection(a, amount, r)
    ensures IsSelection(b, amount, r)
  {
    assert |a| == |multiset(a)| == |multiset(b)| == |b|;
    ValuesPermute(a, b);
    BestSumPermutes(Values(a), Values(b), 2);
    forall n <- b
      ensures n in a
    {
      assert n in multiset(b);
    }
  }

  lemma SingleSelected(sorted: seq<Input>, amount: int, i: nat)
    requires SortedBy(sorted, Ascending) && i < |sorted| && sorted[i].value >= amount
    requires forall k | 0 <= k < i :: sorted[k].value < amount
    ensures IsSelection(sorted, amount, Some(Selected(sorted[i], None, sorted[i].value - amount, sorted[i].value)))
  {
    SingleIsCovered(Values(sorted), i);
    assert Values([sorted[i]])[1..] == [];
    forall k | 0 <= k < |sorted| && sorted[k].value >= amount
      ensures sorted[i].value <= sorted[k].value
    {
      if i < k {
        assert Ascending(sorted[i]) <= Ascending(sorted[k]);
      }
    }
    assert sorted[i] in sorted;
  }

  lemma PairSelected(sorted: seq<Input>, amount: int, i: nat, j: nat)
    requires i < j < |sorted| && sorted[i].value + sorted[j].value >= amount
    requires forall n <- sorted :: n.value < amount
    ensures var sum := sorted[i].value + sorted[j].value;
            IsSelection(sorted, amount, Some(Selected(sorted[i], Some(sorted[j]), sum - amount, sum)))
  {
    PairIsCovered(Values(sorted), i, j);
    PairInMultiset(sorted, i, j);
    var pair := [sorted[i]] + [sorted[j]];
    assert pair == [sorted[i], sorted[j]];
    SumOfPair(sorted[i], sorted[j]);
  }

  lemma SumOfPair(a: Input, b: Input)
    ensures Sum(Values([a, b])) == a.value + b.value
  {
    assert Values([a, b]) == [a.value, b.value];
    assert [b.value][1..] == [] && Sum([b.value]) == b.value;
    assert [a.value, b.value][1..] == [b.value];
  }

  lemma NothingSelected(notes: seq<Input>, amount: int)
    requires forall n <- notes :: n.value < amount
    requires forall i, j | 0 <= i < j < |notes| :: notes[i].value + notes[j].value < amount
    ensures IsSelection(notes, amount, None)
  {
    if notes != [] {
      NoPairCovers(Values(notes), amount);
    }
  }

  lemma TooPoor(notes: seq<Input>, amount: int)
    requires Sum(Values(notes)) < amount
    ensures IsSelection(notes, amount, None)
  {
    BestSumMonotone(Values(notes), 2, |notes| + 2);
    BestSumOfAll(Values(notes), |notes| + 2);
  }

  /** The first single note that suffices. */
  method FindSingle(sorted: seq<Input>, amount: int) returns (r: Option<nat>)
    ensures r.None? ==> forall n <- sorted :: n.value < amount
    ensures r.Some? ==> r.value < |sorted| && sorted[r.value].value >= amount
                        && forall k | 0 <= k < r.value :: sorted[k].value < amount
  {
    for i := 0 to |sorted|
      invariant forall k | 0 <= k < i :: sorted[k].value < amount
    {
      if sorted[i].value >= amount {
        return Some(i);
      }
    }
    return None;
  }

  /** The first pair that suffices, in the order of its first and then of its second note. */
  method FindPair(sorted: seq<Input>, amount: int) returns (r: Option<(nat, nat)>)
    ensures r.None? ==> forall i, j | 0 <= i < j < |sorted| :: sorted[i].value + sorted[j].value < amount
    ensures r.Some? ==> r.value.0 < r.value.1 < |sorted|
                        && sorted[r.value.0].value + sorted[r.value.1].value >= amount
    ensures r.Some? ==> forall p, q | 0 <= p < q < |sorted| && (p < r.value.0 || (p == r.value.0 && q < r.value.1)) ::
                          sorted[p].value + sorted[q].value < amount
  {
    for i := 0 to |sorted|
      invariant forall p, q | 0 <= p < i && p < q < |sorted| :: sorted[p].value + sorted[q].value < amount
    {
      for j := i + 1 to |sorted|
        invariant forall q | i < q < j :: sorted[i].value + sorted[q].value < amount
      {
        if sorted[i].value + sorted[j].value >= amount {
          return Some((i, j));
        }
      }
    }
    return None;
  }

  predicate CoversAt(sorted: seq<Input>, amount: int, i: nat, j: nat) {
    i < j < |sorted| && sorted[i].value + sorted[j].value >= amount
  }

  /** What is selected from sorted notes: the first that suffices alone; else the pair that suffices and comes first, in the
      order of its first and then of its second note. */
  ghost predicate IsFirstCover(sorted: seq<Input>, amount: int, s: Selected) {
    if s.second.None? then
      exists i: nat | i < |sorted| :: s.first == sorted[i] && s.first.value >= amount && forall k | 0 <= k < i :: sorted[k].value < amount
    else
      exists i: nat, j: nat | CoversAt(sorted, amount, i, j) ::
        && s.first == sorted[i] && s.second.value == sorted[j]
        && forall p: nat, q: nat | CoversAt(sorted, amount, p, q) :: p > i || (p == i && q >= j)
  }

  lemma SingleIsFirst(sorted: seq<Input>, amount: int, i: nat, s: Selected)
    requires i < |sorted| && s.first == sorted[i] && s.second == None && sorted[i].value >= amount
    requires forall k | 0 <= k < i :: sorted[k].value < amount
    ensures IsFirstCover(sorted, amount, s)
  {
  }

  lemma PairIsFirst(sorted: seq<Input>, amount: int, i: nat, j: nat, s: Selected)
    requires CoversAt(sorted, amount, i, j) && s.first == sorted[i] && s.second == Some(sorted[j])
    requires forall p, q | 0 <= p < q < |sorted| && (p < i || (p == i && q < j)) :: sorted[p].value + sorted[q].value < amount
    ensures IsFirstCover(sorted, amount, s)
  {
    assert forall p: nat, q: nat | CoversAt(sorted, amount, p, q) :: p > i || (p == i && q >= j);
  }

  /** The two notes selected: no two that suffice have a smaller one of less value, nor with one of that value a larger one
      of less. */
  lemma SmallestPair(sorted: seq<Input>, amount: int, s: Selected, p: nat, q: nat)
    requires SortedBy(sorted, Ascending) && IsFirstCover(sorted, amount, s) && s.second.Some?
    requires CoversAt(sorted, amount, p, q)
    ensures s.first.value <= sorted[p].value
    ensures s.first.value == sorted[p].value ==> s.second.value.value <= sorted[q].value
  {
    var i: nat, j: nat :| CoversAt(sorted, amount, i, j)
      && s.first == sorted[i] && s.second.value == sorted[j]
      && forall p: nat, q: nat | CoversAt(sorted, amount, p, q) :: p > i || (p == i && q >= j);
    assert p > i ==> Ascending(sorted[i]) <= Ascending(sorted[p]);
    if sorted[i].value == sorted[p].value {
      assert CoversAt(sorted, amount, i, q);
      assert q > j ==> Ascending(sorted[j]) <= Ascending(sorted[q]);
    }
  }

  /** Prefers one note to two. */
  method SelectSorted(sorted: seq<Input>, amount: int) returns (r: Option<Selected>)
    requires SortedBy(sorted, Ascending)
    ensures IsSelection(sorted, amount, r)
    ensures r.Some? ==> IsFirstCover(sorted, amount, r.value)
  {
    var single := FindSingle(sorted, amount);
    if single.Some? {
      var note := sorted[single.value];
      SingleSelected(sorted, amount, single.value);
      r := Some(Selected(note, None, note.value - amount, note.value));
      SingleIsFirst(sorted, amount, single.value, r.value);
      return;
    }
    var pair := FindPair(sorted, amount);
    if pair.Some? {
      var first, second := sorted[pair.value.0], sorted[pair.value.1];
      var sum := first.value + second.value;
      PairSelected(sorted, amount, pair.value.0, pair.value.1);
      r := Some(Selected(first, Some(second), sum - amount, sum));
      PairIsFirst(sorted, amount, pair.value.0, pair.value.1, r.value);
      return;
    }
    NothingSelected(sorted, amount);
    return None;
  }

  method SelectNotes(available: seq<Input>, amount: int) returns (r: Option<Selected>)
    ensures IsSelection(Positive(available), amount, r)
    ensures r.Some? ==> IsFirstCover(SortBy(Positive(available), Ascending), amount, r.value)
  {
    var notes := Positive(available);
    if Sum(Values(notes)) < amount {
      TooPoor(notes, amount);
      return None;
    }
    var sorted := SortBy(notes, Ascending);
    SortBySorts(notes, Ascending);
    r := SelectSorted(sorted, amount);
    SelectionPermutes(sorted, notes, amount, r);
  }

  /** The total suffices but no selection exists. */
  method NeedsConsolidation(available: seq<Input>, amount: int) returns (needed: bool)
    ensures var notes := Positive(available);
            needed <==> Sum(Values(notes)) >= amount && (notes == [] || BestSum(Values(notes), 2) < amount)
  {
    var notes := Positive(available);
    if Sum(Values(notes)) < amount {
      return false;
    }
    var selection := SelectNotes(available, amount);
    return selection.None?;
  }

  /** The two notes with the highest values. */
  method NotesForConsolidation(available: seq<Input>) returns (r: Option<(Input, Input)>)
    ensures r.None? <==> |Positive(available)| < 2
    ensures r.Some? ==> IsLargestPair(Positive(available), r.value.0, r.value.1)
    ensures var sorted := SortBy(Positive(available), Descending);
            r.Some? ==> |sorted| >= 2 && r.value == (sorted[0], sorted[1])
  {
    var sorted := SortBy(Positive(available), Descending);
    SortBySorts(Positive(available), Descending);
    assert |sorted| == |multiset(sorted)| == |Positive(available)|;
    if |sorted| < 2 {
      return None;
    }
    PairInMultiset(sorted, 0, 1);
    r := Some((sorted[0], sorted[1]));
    LargestFirst(Positive(available), sorted);
  }

  /** `a` and `b` are two of the notes and none of the others is larger than either. */
  ghost predicate IsLargestPair(notes: seq<Input>, a: Input, b: Input) {
    && multiset([a, b]) <= multiset(notes)
    && forall n :: n in multiset(notes) - multiset([a, b]) ==> n.value <= a.value && n.value <= b.value
  }

  lemma LargestFirst(notes: seq<Input>, sorted: seq<Input>)
    requires multiset(sorted) == multiset(notes) && SortedBy(sorted, Descending) && |sorted| >= 2
    ensures IsLargestPair(notes, sorted[0], sorted[1])
  {
    PairInMultiset(sorted, 0, 1);
    assert sorted == [sorted[0], sorted[1]] + sorted[2..];
    forall n | n in multiset(notes) - multiset([sorted[0], sorted[1]])
      ensures n.value <= sorted[0].value && n.value <= sorted[1].value
    {
      assert n in sorted[2..];
      var k :| 0 <= k < |sorted[2..]| && sorted[2..][k] == n;
      assert Descending(sorted[0]) <= Descending(sorted[k + 2]) && Descending(sorted[1]) <= Descending(sorted[k + 2]);
    }
  }

  /** Consolidation being needed means there are two notes to merge, except that an amount of zero or less is
      also reported as needing consolidation when there is no note at all. */
  lemma NeededMeansMergeable(notes: seq<Input>, amount: int)
    requires forall n <- notes :: n.value > 0
    requires Sum(Values(notes)) >= amount && (notes == [] || BestSum(Values(notes), 2) < amount)
    ensures |notes| >= 2 <==> !(notes == [] && amount <= 0)
  {
    if |notes| == 1 {
      BestSumOfAll(Values(notes), 2);
      assert false;
    }
  }
}
