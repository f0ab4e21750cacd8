/** Sorting as a specification: an ascending rearrangement under an order that is
    total on the elements is unique, so every correct library sort, stable or
    not, leaves the same sequence. */
module Orders {

  /** le is a total order on the elements of s. */
  ghost predicate TotalOn<T(!new)>(le: (T, T) -> bool, s: seq<T>) {
    && (forall x, y :: x in s && y in s ==> le(x, y) || le(y, x))
    && (forall x, y :: x in s && y in s && le(x, y) && le(y, x) ==> x == y)
    && (forall x, y, z :: x in s && y in s && z in s && le(x, y) && le(y, z) ==> le(x, z))
  }

  /** le is a total order on the whole type. */
  ghost predicate TotalOrder<T(!new)>(le: (T, T) -> bool) {
    && (forall x, y :: le(x, y) || le(y, x))
    && (forall x, y :: le(x, y) && le(y, x) ==> x == y)
    && (forall x, y, z :: le(x, y) && le(y, z) ==> le(x, z))
  }

  ghost predicate Ascending<T>(s: seq<T>, le: (T, T) -> bool) {
    forall i, j :: 0 <= i < j < |s| ==> le(s[i], s[j])
  }

  function Insert<T>(x: T, s: seq<T>, le: (T, T) -> bool): (r: seq<T>)
    ensures |r| == |s| + 1
  {
    if s == [] then [x]
    else if le(x, s[0]) then [x] + s
    else [s[0]] + Insert(x, s[1..], le)
  }

  function Sort<T>(s: seq<T>, le: (T, T) -> bool): (r: seq<T>)
    ensures |r| == |s|
  {
    if s == [] then [] else Insert(s[0], Sort(s[1..], le), le)
  }

  lemma {:induction false} InsertMultiset<T>(x: T, s: seq<T>, le: (T, T) -> bool)
    ensures multiset(Insert(x, s, le)) == multiset{x} + multiset(s)
  {
    if s != [] && !le(x, s[0]) {
      InsertMultiset(x, s[1..], le);
      assert s == [s[0]] + s[1..];
    }
  }

  /** Sorting keeps the elements. */
  lemma {:induction false} SortMultiset<T>(s: seq<T>, le: (T, T) -> bool)
    ensures multiset(Sort(s, le)) == multiset(s)
  {
    if s != [] {
      SortMultiset(s[1..], le);
      InsertMultiset(s[0], Sort(s[1..], le), le);
      assert s == [s[0]] + s[1..];
    }
  }

  lemma SameElements<T>(s: seq<T>, t: seq<T>)
    requires multiset(s) == multiset(t)
    ensures |s| == |t|
    ensures forall x :: x in s <==> x in t
  {
    assert |multiset(s)| == |s| && |multiset(t)| == |t|;
    forall x ensures x in s <==> x in t {
      assert x in s <==> x in multiset(s);
      assert x in t <==> x in multiset(t);
    }
  }

  lemma {:induction false} InsertAscending<T(!new)>(x: T, s: seq<T>, le: (T, T) -> bool)
    requires TotalOn(le, [x] + s) && Ascending(s, le)
    ensures Ascending(Insert(x, s, le), le)
  {
    if s != [] {
      var rest := s[1..];
      assert x in [x] + s && s[0] in [x] + s;
      if le(x, s[0]) {
        forall j | 0 <= j < |s| ensures le(x, s[j]) {
          assert s[j] in [x] + s;
        }
      } else {
        assert TotalOn(le, [x] + rest) by { assert forall y :: y in [x] + rest ==> y in [x] + s; }
        InsertAscending(x, rest, le);
        forall j | 0 <= j < |Insert(x, rest, le)| ensures le(s[0], Insert(x, rest, le)[j]) {
          InsertFrom(x, rest, le, j);
        }
      }
    }
  }

  lemma InsertFrom<T>(x: T, s: seq<T>, le: (T, T) -> bool, j: nat)
    requires j < |Insert(x, s, le)|
    ensures Insert(x, s, le)[j] == x || Insert(x, s, le)[j] in s
  {
    InsertMultiset(x, s, le);
    var y := Insert(x, s, le)[j];
    assert y in multiset(Insert(x, s, le));
    assert y in multiset{x} + multiset(s);
  }

  lemma {:induction false} SortAscending<T(!new)>(s: seq<T>, le: (T, T) -> bool)
    requires TotalOn(le, s)
    ensures Ascending(Sort(s, le), le)
  {
    if s != [] {
      var rest := Sort(s[1..], le);
      assert TotalOn(le, s[1..]) by { assert forall x :: x in s[1..] ==> x in s; }
      SortAscending(s[1..], le);
      assert TotalOn(le, [s[0]] + rest) by {
        SortMultiset(s[1..], le);
        SameElements(rest, s[1..]);
        assert forall x :: x in [s[0]] + rest ==> x in s;
      }
      InsertAscending(s[0], rest, le);
    }
  }

  lemma HeadIsLeast<T(!new)>(s: seq<T>, x: T, le: (T, T) -> bool)
    requires TotalOn(le, s) && Ascending(s, le) && x in s
    ensures le(s[0], x)
  {
    var j :| 0 <= j < |s| && s[j] == x;
    assert s[0] in s;
  }

  lemma TailMultiset<T>(s: seq<T>)
    requires s != []
    ensures multiset(s[1..]) == multiset(s) - multiset{s[0]}
  {
    assert s == [s[0]] + s[1..];
  }

  /** Two ascending arrangements of the same elements are the same sequence. */
  lemma {:induction false} AscendingUnique<T(!new)>(s: seq<T>, t: seq<T>, le: (T, T) -> bool)
    requires multiset(s) == multiset(t)
    requires TotalOn(le, s) && Ascending(s, le) && Ascending(t, le)
    ensures s == t
  {
    SameElements(s, t);
    if s != [] {
      SameHead(s, t, le);
      assert multiset(s[1..]) == multiset(t[1..]) by {
        TailMultiset(s);
        TailMultiset(t);
      }
      assert TotalOn(le, s[1..]) by { assert forall x :: x in s[1..] ==> x in s; }
      AscendingUnique(s[1..], t[1..], le);
      assert s == [s[0]] + s[1..] && t == [t[0]] + t[1..];
    }
  }

  lemma SameHead<T(!new)>(s: seq<T>, t: seq<T>, le: (T, T) -> bool)
    requires |s| == |t| > 0 && forall x :: x in s <==> x in t
    requires TotalOn(le, s) && Ascending(s, le) && Ascending(t, le)
    ensures s[0] == t[0]
  {
    assert TotalOn(le, t);
    assert s[0] in s && t[0] in s;
    HeadIsLeast(s, t[0], le);
    HeadIsLeast(t, s[0], le);
  }

  /** Every ascending arrangement is the one Sort gives. */
  lemma SortUnique<T(!new)>(s: seq<T>, t: seq<T>, le: (T, T) -> bool)
    requires multiset(s) == multiset(t)
    requires TotalOn(le, s) && Ascending(t, le)
    ensures t == Sort(s, le)
  {
    SortAscending(s, le);
    SortMultiset(s, le);
    SameElements(s, Sort(s, le));
    AscendingUnique(Sort(s, le), t, le);
  }

  /** Sorting forgets the order of its input. */
  lemma SortPermutation<T(!new)>(s: seq<T>, t: seq<T>, le: (T, T) -> bool)
    requires multiset(s) == multiset(t)
    requires TotalOn(le, s)
    ensures Sort(s, le) == Sort(t, le)
  {
    SameElements(s, t);
    SortAscending(t, le);
    SortMultiset(t, le);
    SortUnique(s, Sort(t, le), le);
  }

  // ----- sequences of indexes -----

  ghost predicate Below(indexes: seq<nat>, n: nat) {
    forall j :: 0 <= j < |indexes| ==> indexes[j] < n
  }

  function Identity(n: nat): (r: seq<nat>)
    ensures |r| == n && forall i :: 0 <= i < n ==> r[i] == i
  {
    seq(n, i requires 0 <= i < n => i)
  }

  function Pick<T>(values: seq<T>, indexes: seq<nat>): (r: seq<T>)
    requires Below(indexes, |values|)
    ensures |r| == |indexes| && forall i :: 0 <= i < |r| ==> r[i] == values[indexes[i]]
  {
    seq(|indexes|, i requires 0 <= i < |indexes| => values[indexes[i]])
  }

  lemma {:induction false} PickMultiset<F>(values: seq<F>, s: seq<nat>, t: seq<nat>)
    requires Below(s, |values|) && Below(t, |values|) && multiset(s) == multiset(t)
    ensures multiset(Pick(values, s)) == multiset(Pick(values, t))
  {
    SameElements(s, t);
    if s != [] {
      hide Pick;
      var j := Find(t, s[0]);
      BothWithout(s, 0, t, j);
      PickMultiset(values, s[..0] + s[1..], t[..j] + t[j + 1..]);
      PickWithout(values, s, 0);
      PickWithout(values, t, j);
    }
  }

  lemma BothWithout<T>(s: seq<T>, i: nat, t: seq<T>, j: nat)
    requires i < |s| && j < |t| && s[i] == t[j] && multiset(s) == multiset(t)
    ensures multiset(s[..i] + s[i + 1..]) == multiset(t[..j] + t[j + 1..])
  {
    Without(s, i);
    Without(t, j);
    Cancel(multiset(s[..i] + s[i + 1..]), multiset(t[..j] + t[j + 1..]), s[i]);
  }

  lemma Find<T>(s: seq<T>, x: T) returns (j: nat)
    requires x in s
    ensures j < |s| && s[j] == x
  {
    j :| 0 <= j < |s| && s[j] == x;
  }

  lemma Cancel<T>(a: multiset<T>, b: multiset<T>, x: T)
    requires a + multiset{x} == b + multiset{x}
    ensures a == b
  {
    assert a == a + multiset{x} - multiset{x};
  }

  lemma PickWithout<F>(values: seq<F>, s: seq<nat>, j: nat)
    requires Below(s, |values|) && j < |s|
    ensures multiset(Pick(values, s)) == multiset(Pick(values, s[..j] + s[j + 1..])) + multiset{values[s[j]]}
  {
    Without(Pick(values, s), j);
    assert Pick(values, s[..j] + s[j + 1..]) == Pick(values, s)[..j] + Pick(values, s)[j + 1..];
  }

  lemma Without<T>(s: seq<T>, j: nat)
    requires j < |s|
    ensures multiset(s) == multiset(s[..j] + s[j + 1..]) + multiset{s[j]}
  {
    assert s == s[..j] + [s[j]] + s[j + 1..];
  }

  /** Comparing indexes by the values they name. */
  function ByValue<T>(values: seq<T>, le: (T, T) -> bool): (nat, nat) -> bool {
    (i: nat, j: nat) => i < |values| && j < |values| && le(values[i], values[j])
  }

  lemma {:induction false} PickInsert<T>(values: seq<T>, i: nat, s: seq<nat>, le: (T, T) -> bool)
    requires i < |values| && Below(s, |values|)
    ensures Below(Insert(i, s, ByValue(values, le)), |values|)
    ensures Pick(values, Insert(i, s, ByValue(values, le))) == Insert(values[i], Pick(values, s), le)
  {
    if s != [] && !le(values[i], values[s[0]]) {
      PickInsert(values, i, s[1..], le);
      assert Pick(values, s)[1..] == Pick(values, s[1..]);
    }
  }

  /** Sorting indexes by value picks out the sorted values. */
  lemma {:induction false} PickSort<T>(values: seq<T>, s: seq<nat>, le: (T, T) -> bool)
    requires Below(s, |values|)
    ensures Below(Sort(s, ByValue(values, le)), |values|)
    ensures Pick(values, Sort(s, ByValue(values, le))) == Sort(Pick(values, s), le)
  {
    if s != [] {
      PickSort(values, s[1..], le);
      PickInsert(values, s[0], Sort(s[1..], ByValue(values, le)), le);
      assert Pick(values, s)[1..] == Pick(values, s[1..]);
    }
  }

  // ----- filtering -----

  /** The kept elements among the first k, in order. */
  function Filter<T>(s: seq<T>, keep: T -> bool, k: nat): seq<T>
    requires k <= |s|
  {
    if k == 0 then []
    else if keep(s[k - 1]) then Filter(s, keep, k - 1) + [s[k - 1]]
    else Filter(s, keep, k - 1)
  }

  lemma {:induction false} FilterElements<T(!new)>(s: seq<T>, keep: T -> bool, k: nat)
    requires k <= |s|
    ensures forall x :: x in Filter(s, keep, k) <==> keep(x) && exists i :: 0 <= i < k && s[i] == x
  {
    if k > 0 { FilterElements(s, keep, k - 1); }
  }

  lemma {:induction false} FilterCount<T>(s: seq<T>, keep: T -> bool, k: nat, x: T)
    requires k <= |s|
    ensures multiset(Filter(s, keep, k))[x] == if keep(x) then multiset(s[..k])[x] else 0
  {
    if k > 0 {
      FilterCount(s, keep, k - 1, x);
      assert s[..k] == s[..k - 1] + [s[k - 1]];
    }
  }

  lemma FilterCountAll<T>(s: seq<T>, keep: T -> bool, x: T)
    ensures multiset(Filter(s, keep, |s|))[x] == if keep(x) then multiset(s)[x] else 0
  {
    FilterCount(s, keep, |s|, x);
    assert s[..|s|] == s;
  }

  /** Filtering a permutation keeps the same elements. */
  lemma FilterPermutation<T(!new)>(s: seq<T>, t: seq<T>, keep: T -> bool)
    requires multiset(s) == multiset(t)
    ensures multiset(Filter(s, keep, |s|)) == multiset(Filter(t, keep, |t|))
  {
    var a, b := multiset(Filter(s, keep, |s|)), multiset(Filter(t, keep, |t|));
    forall x ensures a[x] == b[x] {
      FilterCountAll(s, keep, x);
      FilterCountAll(t, keep, x);
    }
    assert a == b;
  }

  lemma SplitOn<T>(a: seq<T>, b: seq<T>, all: seq<T>, x: T)
    requires multiset(a) + multiset(b) == multiset(all)
    ensures multiset(a + [x]) + multiset(b) == multiset(all + [x])
    ensures multiset(a) + multiset(b + [x]) == multiset(all + [x])
  {
  }

  lemma {:induction false} FilterSplit<T>(s: seq<T>, keep: T -> bool, drop: T -> bool, k: nat)
    requires k <= |s| && forall x :: x in s ==> drop(x) == !keep(x)
    ensures multiset(Filter(s, keep, k)) + multiset(Filter(s, drop, k)) == multiset(s[..k])
  {
    if k > 0 {
      FilterSplit(s, keep, drop, k - 1);
      assert s[..k] == s[..k - 1] + [s[k - 1]];
      assert s[k - 1] in s;
      SplitOn(Filter(s, keep, k - 1), Filter(s, drop, k - 1), s[..k - 1], s[k - 1]);
    }
  }

  /** Keeping indexes by the values they name. */
  function KeepByValue<T>(values: seq<T>, keep: T -> bool): nat -> bool {
    (i: nat) => i < |values| && keep(values[i])
  }

  lemma {:induction false} PickFilter<T>(values: seq<T>, indexes: seq<nat>, keep: T -> bool, k: nat)
    requires Below(indexes, |values|) && k <= |indexes|
    ensures Below(Filter(indexes, KeepByValue(values, keep), k), |values|)
    ensures Pick(values, Filter(indexes, KeepByValue(values, keep), k)) == Filter(Pick(values, indexes), keep, k)
  {
    if k > 0 { PickFilter(values, indexes, keep, k - 1); }
  }

  ghost predicate Distinct<T>(s: seq<T>) {
    forall i, j :: 0 <= i < j < |s| ==> s[i] != s[j]
  }

  lemma {:induction false} DistinctCount<T>(s: seq<T>, x: T)
    requires Distinct(s)
    ensures multiset(s)[x] == if x in s then 1 else 0
  {
    if s != [] {
      DistinctCount(s[1..], x);
      assert s == [s[0]] + s[1..];
    }
  }

  /** Two duplicate-free listings of one set are permutations of each other. */
  lemma DistinctPermutation<T(!new)>(s: seq<T>, t: seq<T>)
    requires Distinct(s) && Distinct(t) && forall x :: x in s <==> x in t
    ensures multiset(s) == multiset(t)
  {
    forall x ensures multiset(s)[x] == multiset(t)[x] {
      DistinctCount(s, x);
      DistinctCount(t, x);
    }
  }

  // ----- concatenation -----

  /** The first k parts, one after another. */
  function Flatten<T>(parts: seq<seq<T>>, k: nat): seq<T>
    requires k <= |parts|
  {
    if k == 0 then [] else Flatten(parts, k - 1) + parts[k - 1]
  }

  lemma {:induction false} FlattenMember<T>(parts: seq<seq<T>>, k: nat, x: T) returns (j: nat)
    requires k <= |parts| && x in Flatten(parts, k)
    ensures j < k && x in parts[j]
  {
    if x in parts[k - 1] {
      j := k - 1;
    } else {
      j := FlattenMember(parts, k - 1, x);
    }
  }

  /** An element found in one part only occurs as often as it does there. */
  lemma {:induction false} FlattenCount<T>(parts: seq<seq<T>>, k: nat, x: T, owner: nat)
    requires k <= |parts| && owner < |parts|
    requires forall j :: 0 <= j < |parts| && x in parts[j] ==> j == owner
    ensures multiset(Flatten(parts, k))[x] == if owner < k then multiset(parts[owner])[x] else 0
  {
    if k > 0 {
      FlattenCount(parts, k - 1, x, owner);
      var front, last := Flatten(parts, k - 1), parts[k - 1];
      assert multiset(front + last)[x] == multiset(front)[x] + multiset(last)[x];
      if k - 1 != owner { assert x !in last; }
    }
  }

  lemma RepeatedElement<T>(s: seq<T>, i: nat, j: nat)
    requires i < j < |s| && s[i] == s[j]
    ensures multiset(s)[s[i]] >= 2
  {
    assert s == s[..j] + [s[j]] + s[j + 1..];
    assert s[..j][i] == s[i];
    assert multiset(s)[s[i]] == multiset(s[..j])[s[i]] + 1 + multiset(s[j + 1..])[s[i]];
    assert s[i] in s[..j];
  }

  lemma DistinctRearranged<T>(s: seq<T>, t: seq<T>)
    requires Distinct(s) && multiset(s) == multiset(t)
    ensures Distinct(t)
  {
    forall i, j | 0 <= i < j < |t| ensures t[i] != t[j] {
      if t[i] == t[j] {
        RepeatedElement(t, i, j);
        DistinctCount(s, t[i]);
      }
    }
  }

  // ----- searching -----

  /** The first place of x, -1 when there is none. */
  function IndexOf<T(==)>(s: seq<T>, x: T): int {
    if s == [] then -1
    else if s[0] == x then 0
    else
      var rest := IndexOf(s[1..], x);
      if rest < 0 then -1 else rest + 1
  }

  lemma {:induction false} IndexFinds<T>(s: seq<T>, x: T)
    ensures x in s ==> 0 <= IndexOf(s, x) < |s| && s[IndexOf(s, x)] == x
    ensures x !in s ==> IndexOf(s, x) == -1
    ensures forall i :: 0 <= i < IndexOf(s, x) ==> s[i] != x
  {
    if s != [] {
      IndexFinds(s[1..], x);
      assert s == [s[0]] + s[1..];
    }
  }

  lemma IndexInDistinct<T>(s: seq<T>, i: nat)
    requires Distinct(s) && i < |s|
    ensures IndexOf(s, s[i]) == i
  {
    IndexFinds(s, s[i]);
  }
}
