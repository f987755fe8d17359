/**
 Stable sorting by a lexicographic key, and exactly when its result does not
 depend on arrival order.
 */
module StableSort {

  // -------------------------------------------------------------------- order

  /** Lexicographic order; tuples of numbers followed by a text compare as their concatenation. */
  predicate LexLeq(a: seq<int>, b: seq<int>)
  {
    || a == []
    || (b != [] && (a[0] < b[0] || (a[0] == b[0] && LexLeq(a[1..], b[1..]))))
  }

  lemma {:induction false} LexTotal(a: seq<int>, b: seq<int>)
    ensures LexLeq(a, b) || LexLeq(b, a)
  {
    if a != [] && b != [] && a[0] == b[0] {
      LexTotal(a[1..], b[1..]);
    }
  }

  lemma {:induction false} LexAntisymmetric(a: seq<int>, b: seq<int>)
    requires LexLeq(a, b) && LexLeq(b, a)
    ensures a == b
  {
    if a != [] && b != [] {
      LexAntisymmetric(a[1..], b[1..]);
      assert a == [a[0]] + a[1..] && b == [b[0]] + b[1..];
    }
  }

  lemma {:induction false} LexTransitive(a: seq<int>, b: seq<int>, c: seq<int>)
    requires LexLeq(a, b) && LexLeq(b, c)
    ensures LexLeq(a, c)
  {
    if a != [] && a[0] == b[0] == c[0] {
      LexTransitive(a[1..], b[1..], c[1..]);
    }
  }

  /** The code points of a text, whose order is the text's order. */
  function Codes(s: string): seq<int>
  {
    seq(|s|, i requires 0 <= i < |s| => s[i] as int)
  }

  lemma CodesInjective(s: string, t: string)
    requires Codes(s) == Codes(t)
    ensures s == t
  {
    assert |s| == |Codes(s)| == |t|;
    forall i | 0 <= i < |s|
      ensures s[i] == t[i]
    {
      assert Codes(s)[i] == s[i] as int && Codes(t)[i] == t[i] as int;
    }
  }

  // --------------------------------------------------------------------- sort

  /** Into a sorted sequence, after every element whose key is not greater. */
  function Insert<T>(key: T -> seq<int>, xs: seq<T>, x: T): seq<T>
  {
    if xs == [] then [x]
    else
      var last := xs[|xs| - 1];
      if LexLeq(key(last), key(x)) then xs + [x] else Insert(key, xs[..|xs| - 1], x) + [last]
  }

  function Sort<T>(key: T -> seq<int>, xs: seq<T>): seq<T>
  {
    if xs == [] then [] else Insert(key, Sort(key, xs[..|xs| - 1]), xs[|xs| - 1])
  }

  ghost predicate Sorted<T>(key: T -> seq<int>, xs: seq<T>)
  {
    forall i, j :: 0 <= i < j < |xs| ==> LexLeq(key(xs[i]), key(xs[j]))
  }

  lemma {:induction false} InsertSorted<T>(key: T -> seq<int>, xs: seq<T>, x: T)
    requires Sorted(key, xs)
    ensures Sorted(key, Insert(key, xs, x))
    ensures multiset(Insert(key, xs, x)) == multiset(xs) + multiset{x}
  {
    if xs != [] {
      var front, last := xs[..|xs| - 1], xs[|xs| - 1];
      assert xs == front + [last];
      if LexLeq(key(last), key(x)) {
        forall i | 0 <= i < |xs|
          ensures LexLeq(key(xs[i]), key(x))
        {
          if i < |front| {
            LexTransitive(key(xs[i]), key(last), key(x));
          }
        }
      } else {
        LexTotal(key(last), key(x));
        InsertSorted(key, front, x);
        var ins := Insert(key, front, x);
        forall i | 0 <= i < |ins|
          ensures LexLeq(key(ins[i]), key(last))
        {
          assert ins[i] in multiset(ins);
          if ins[i] != x {
            assert ins[i] in front;
          }
        }
      }
    }
  }

  lemma SortSnoc<T>(key: T -> seq<int>, xs: seq<T>, x: T)
    ensures Sort(key, xs + [x]) == Insert(key, Sort(key, xs), x)
  {
    assert (xs + [x])[..|xs|] == xs;
  }

  lemma {:induction false} SortSorts<T>(key: T -> seq<int>, xs: seq<T>)
    ensures Sorted(key, Sort(key, xs)) && multiset(Sort(key, xs)) == multiset(xs)
  {
    if xs != [] {
      var front, last := xs[..|xs| - 1], xs[|xs| - 1];
      assert xs == front + [last];
      SortSorts(key, front);
      InsertSorted(key, Sort(key, front), last);
    }
  }

  lemma {:induction false} SortOfSorted<T>(key: T -> seq<int>, xs: seq<T>)
    requires Sorted(key, xs)
    ensures Sort(key, xs) == xs
  {
    if xs != [] {
      SortOfSorted(key, xs[..|xs| - 1]);
      assert xs == xs[..|xs| - 1] + [xs[|xs| - 1]];
    }
  }

  // ---------------------------------------------------------------- stability

  function Filter<T>(p: T -> bool, xs: seq<T>): seq<T>
  {
    if xs == [] then []
    else Filter(p, xs[..|xs| - 1]) + (if p(xs[|xs| - 1]) then [xs[|xs| - 1]] else [])
  }

  lemma {:induction false} FilterMembers<T>(p: T -> bool, xs: seq<T>, x: T)
    ensures x in Filter(p, xs) <==> x in xs && p(x)
  {
    if xs != [] {
      FilterMembers(p, xs[..|xs| - 1], x);
      assert xs == xs[..|xs| - 1] + [xs[|xs| - 1]];
    }
  }

  lemma FilterSnoc<T>(p: T -> bool, xs: seq<T>, x: T)
    ensures Filter(p, xs + [x]) == Filter(p, xs) + (if p(x) then [x] else [])
  {
    assert (xs + [x])[..|xs|] == xs;
  }

  lemma InsertAtEnd<T>(key: T -> seq<int>, xs: seq<T>, x: T)
    requires forall y :: y in xs ==> LexLeq(key(y), key(x))
    ensures Insert(key, xs, x) == xs + [x]
  {
  }

  lemma InsertBefore<T>(key: T -> seq<int>, front: seq<T>, last: T, x: T)
    requires !LexLeq(key(last), key(x))
    ensures Insert(key, front + [last], x) == Insert(key, front, x) + [last]
  {
    assert (front + [last])[..|front|] == front;
  }

  lemma {:induction false} FilterInsert<T>(key: T -> seq<int>, p: T -> bool, xs: seq<T>, x: T)
    requires Sorted(key, xs)
    ensures Filter(p, Insert(key, xs, x)) == (if p(x) then Insert(key, Filter(p, xs), x) else Filter(p, xs))
  {
    if xs == [] {
      FilterSnoc(p, [], x);
      assert [] + [x] == [x];
    } else {
      var front, last := xs[..|xs| - 1], xs[|xs| - 1];
      assert xs == front + [last];
      if LexLeq(key(last), key(x)) {
        FilterSnoc(p, xs, x);
        forall y | y in Filter(p, xs)
          ensures LexLeq(key(y), key(x))
        {
          FilterMembers(p, xs, y);
          if y != last {
            LexTransitive(key(y), key(last), key(x));
          }
        }
        InsertAtEnd(key, Filter(p, xs), x);
      } else {
        FilterInsert(key, p, front, x);
        FilterSnoc(p, Insert(key, front, x), last);
        FilterSnoc(p, front, last);
        assert Insert(key, xs, x) == Insert(key, front, x) + [last];
        var g := Filter(p, front);
        if p(last) {
          assert Filter(p, xs) == g + [last];
          InsertBefore(key, g, last, x);
        } else {
          assert Filter(p, xs) == g + [] == g;
        }
      }
    }
  }

  /** Stability in its general form: sorting commutes with every filter. */
  lemma {:induction false} SortCommutesWithFilter<T>(key: T -> seq<int>, p: T -> bool, xs: seq<T>)
    ensures Filter(p, Sort(key, xs)) == Sort(key, Filter(p, xs))
  {
    hide LexLeq, Insert, Sorted;
    if xs != [] {
      var front, last := xs[..|xs| - 1], xs[|xs| - 1];
      SortCommutesWithFilter(key, p, front);
      SortSorts(key, front);
      FilterInsert(key, p, Sort(key, front), last);
      FilterSnoc(p, front, last);
      assert xs == front + [last];
      SortSnoc(key, front, last);
      SortSnoc(key, Filter(p, front), last);
      assert Filter(p, front) + [] == Filter(p, front);
    }
  }

  // -------------------------------------------------------------- canonicity

  /** Elements with equal keys are equal: keys are distinct up to repetition of the very same element. */
  ghost predicate KeysDetermine<T>(key: T -> seq<int>, xs: seq<T>)
  {
    forall i, j :: 0 <= i < |xs| && 0 <= j < |xs| && key(xs[i]) == key(xs[j]) ==> xs[i] == xs[j]
  }

  lemma LastOfMultiset<T>(xs: seq<T>)
    requires xs != []
    ensures multiset(xs[..|xs| - 1]) == multiset(xs) - multiset{xs[|xs| - 1]}
  {
    assert xs == xs[..|xs| - 1] + [xs[|xs| - 1]];
  }

  lemma LastBounds<T>(key: T -> seq<int>, xs: seq<T>, x: T)
    requires Sorted(key, xs) && x in multiset(xs)
    ensures xs != [] && LexLeq(key(x), key(xs[|xs| - 1]))
  {
    hide LexLeq;
    var i :| 0 <= i < |xs| && xs[i] == x;
    LexTotal(key(x), key(x));
  }

  lemma {:induction false} DistinctCount<T>(xs: seq<T>, x: T)
    requires forall i, j :: 0 <= i < j < |xs| ==> xs[i] != xs[j]
    ensures multiset(xs)[x] == if x in xs then 1 else 0
  {
    if xs != [] {
      var front, last := xs[..|xs| - 1], xs[|xs| - 1];
      assert xs == front + [last];
      DistinctCount(front, x);
    }
  }

  lemma TwiceCountsTwo<T>(xs: seq<T>, i: nat, j: nat)
    requires i < j < |xs|
    ensures xs[i] == xs[j] ==> multiset(xs)[xs[i]] >= 2
  {
    var a, b := xs[..j], xs[j..];
    assert xs == a + b;
    assert a[i] in multiset(a) && b[0] in multiset(b);
  }

  ghost predicate KeysSeparate<T(!new)>(key: T -> seq<int>, m: multiset<T>)
  {
    forall x, y :: x in m && y in m && key(x) == key(y) ==> x == y
  }

  lemma SameLast<T(!new)>(key: T -> seq<int>, a: seq<T>, b: seq<T>)
    requires Sorted(key, a) && Sorted(key, b) && multiset(a) == multiset(b)
    requires KeysSeparate(key, multiset(a)) && a != [] && b != []
    ensures a[|a| - 1] == b[|b| - 1]
    ensures multiset(a[..|a| - 1]) == multiset(b[..|b| - 1]) <= multiset(a)
  {
    hide LexLeq, Sorted;
    var x, y := a[|a| - 1], b[|b| - 1];
    assert x in multiset(a) && y in multiset(b);
    LastBounds(key, a, y);
    LastBounds(key, b, x);
    LexAntisymmetric(key(x), key(y));
    LastOfMultiset(a);
    LastOfMultiset(b);
  }

  lemma SortedFront<T>(key: T -> seq<int>, xs: seq<T>)
    requires Sorted(key, xs) && xs != []
    ensures Sorted(key, xs[..|xs| - 1])
  {
    hide LexLeq;
  }

  lemma {:induction false} SortedUnique<T(!new)>(key: T -> seq<int>, a: seq<T>, b: seq<T>)
    requires Sorted(key, a) && Sorted(key, b) && multiset(a) == multiset(b)
    requires KeysSeparate(key, multiset(a))
    ensures a == b
  {
    hide LexLeq, Sorted;
    assert |a| == |multiset(a)| == |multiset(b)| == |b|;
    if a != [] {
      var n := |a| - 1;
      SameLast(key, a, b);
      SortedFront(key, a);
      SortedFront(key, b);
      SortedUnique(key, a[..n], b[..n]);
      assert a == a[..n] + [a[n]] && b == b[..n] + [b[n]];
    }
  }

  lemma SortIgnoresOrder<T(!new)>(key: T -> seq<int>, xs: seq<T>, ys: seq<T>)
    requires multiset(xs) == multiset(ys) && KeysDetermine(key, xs)
    ensures Sort(key, xs) == Sort(key, ys)
  {
    SortSorts(key, xs);
    SortSorts(key, ys);
    var a := Sort(key, xs);
    forall x, y | x in multiset(a) && y in multiset(a) && key(x) == key(y)
      ensures x == y
    {
      assert x in xs && y in xs;
    }
    SortedUnique(key, a, Sort(key, ys));
  }

  lemma {:induction false} FilterHead<T>(p: T -> bool, x: T, xs: seq<T>)
    requires p(x)
    ensures Filter(p, [x] + xs) != [] && Filter(p, [x] + xs)[0] == x
  {
    if xs == [] {
      assert ([x] + xs)[..0] == [];
    } else {
      FilterHead(p, x, xs[..|xs| - 1]);
      assert ([x] + xs)[..|xs|] == [x] + xs[..|xs| - 1];
    }
  }

  lemma FilterOfEqualKeysIsSorted<T>(key: T -> seq<int>, k: seq<int>, xs: seq<T>)
    ensures Sorted(key, Filter((x: T) => key(x) == k, xs))
  {
    var p := (x: T) => key(x) == k;
    var f := Filter(p, xs);
    forall i, j | 0 <= i < j < |f|
      ensures LexLeq(key(f[i]), key(f[j]))
    {
      FilterMembers(p, xs, f[i]);
      FilterMembers(p, xs, f[j]);
      LexTotal(k, k);
    }
  }

  /** The element that arrives first among equals leaves first. */
  lemma FirstStaysFirst<T>(key: T -> seq<int>, x: T, xs: seq<T>)
    ensures var p := (y: T) => key(y) == key(x);
            Filter(p, Sort(key, [x] + xs)) != [] && Filter(p, Sort(key, [x] + xs))[0] == x
  {
    var p := (y: T) => key(y) == key(x);
    SortCommutesWithFilter(key, p, [x] + xs);
    FilterOfEqualKeysIsSorted(key, key(x), [x] + xs);
    SortOfSorted(key, Filter(p, [x] + xs));
    FilterHead(p, x, xs);
  }

  /** Two different elements with one key can always be told apart by their arrival order. */
  lemma EqualKeysExposeOrder<T>(key: T -> seq<int>, xs: seq<T>, i: nat, j: nat) returns (ys: seq<T>, zs: seq<T>)
    requires i < |xs| && j < |xs| && key(xs[i]) == key(xs[j]) && xs[i] != xs[j]
    ensures multiset(ys) == multiset(xs) == multiset(zs)
    ensures Sort(key, ys) != Sort(key, zs)
  {
    hide Sort, Filter, LexLeq;
    var restI := MoveToFront(xs, i);
    var restJ := MoveToFront(xs, j);
    ys, zs := [xs[i]] + restI, [xs[j]] + restJ;
    FirstStaysFirst(key, xs[i], restI);
    FirstStaysFirst(key, xs[j], restJ);
  }

  lemma MoveToFront<T>(xs: seq<T>, i: nat) returns (rest: seq<T>)
    requires i < |xs|
    ensures multiset([xs[i]] + rest) == multiset(xs)
  {
    rest := xs[..i] + xs[i + 1..];
    assert xs == xs[..i] + [xs[i]] + xs[i + 1..];
  }

  /** No arrival order of these elements makes a difference to their sorted form. */
  ghost predicate OrderIndependent<T(!new)>(key: T -> seq<int>, xs: seq<T>)
  {
    forall ys, zs :: multiset(ys) == multiset(xs) == multiset(zs) ==> Sort(key, ys) == Sort(key, zs)
  }

  /** Sorting is canonical exactly when keys determine elements. */
  lemma SortCanonicalIff<T(!new)>(key: T -> seq<int>, xs: seq<T>)
    ensures OrderIndependent(key, xs) <==> KeysDetermine(key, xs)
  {
    if KeysDetermine(key, xs) {
      forall ys, zs | multiset(ys) == multiset(xs) == multiset(zs)
        ensures Sort(key, ys) == Sort(key, zs)
      {
        SortIgnoresOrder(key, xs, ys);
        SortIgnoresOrder(key, xs, zs);
      }
    } else {
      var i: nat, j: nat :| i < |xs| && j < |xs| && key(xs[i]) == key(xs[j]) && xs[i] != xs[j];
      var ys, zs := EqualKeysExposeOrder(key, xs, i, j);
    }
  }

  // ------------------------------------------------------- sort and remove duplicates

  function Dedup(xs: seq<string>): seq<string>
  {
    if |xs| <= 1 then xs
    else if xs[|xs| - 2] == xs[|xs| - 1] then Dedup(xs[..|xs| - 1])
    else Dedup(xs[..|xs| - 1]) + [xs[|xs| - 1]]
  }

  function SortDedup(xs: seq<string>): seq<string> { Dedup(Sort(Codes, xs)) }

  ghost predicate StrictlySorted(xs: seq<string>)
  {
    forall i, j :: 0 <= i < j < |xs| ==> LexLeq(Codes(xs[i]), Codes(xs[j])) && xs[i] != xs[j]
  }

  lemma {:induction false} DedupSorted(xs: seq<string>)
    requires Sorted(Codes, xs)
    ensures StrictlySorted(Dedup(xs))
    ensures forall x :: x in Dedup(xs) <==> x in xs
    ensures xs != [] ==> Dedup(xs) != [] && Dedup(xs)[|Dedup(xs)| - 1] == xs[|xs| - 1]
  {
    if |xs| > 1 {
      var front, last := xs[..|xs| - 1], xs[|xs| - 1];
      assert xs == front + [last];
      DedupSorted(front);
      var d := Dedup(front);
      if front[|front| - 1] != last {
        forall i | 0 <= i < |d|
          ensures LexLeq(Codes(d[i]), Codes(last)) && d[i] != last
        {
          assert d[i] in front;
          var k :| 0 <= k < |front| && front[k] == d[i];
          assert LexLeq(Codes(xs[k]), Codes(xs[|xs| - 1]));
          if d[i] == last {
            LexTotal(Codes(last), Codes(last));
            assert k < |front| - 1;
            LexAntisymmetric(Codes(front[|front| - 1]), Codes(last));
            CodesInjective(front[|front| - 1], last);
          }
        }
      }
    }
  }

  lemma {:induction false} StrictlySortedUnique(a: seq<string>, b: seq<string>)
    requires StrictlySorted(a) && StrictlySorted(b)
    requires forall x :: x in a <==> x in b
    ensures a == b
  {
    assert b != [] ==> b[0] in a;
    if a != [] {
      assert a[0] in b;
      var m, n := |a| - 1, |b| - 1;
      LastIsGreatest(a, b);
      assert forall x :: x in a[..m] <==> x in b[..n] by {
        forall x
          ensures x in a[..m] <==> x in b[..n]
        {
          SplitLast(a, x);
          SplitLast(b, x);
        }
      }
      StrictlySortedUnique(a[..m], b[..n]);
      assert a == a[..m] + [a[m]] && b == b[..n] + [b[n]];
    }
  }

  lemma SplitLast(xs: seq<string>, x: string)
    requires StrictlySorted(xs) && xs != []
    ensures x in xs[..|xs| - 1] <==> x in xs && x != xs[|xs| - 1]
  {
    assert xs == xs[..|xs| - 1] + [xs[|xs| - 1]];
  }

  lemma LastIsGreatest(a: seq<string>, b: seq<string>)
    requires StrictlySorted(a) && StrictlySorted(b) && a != [] && b != []
    requires forall x :: x in a <==> x in b
    ensures a[|a| - 1] == b[|b| - 1]
  {
    var x, y := a[|a| - 1], b[|b| - 1];
    assert x in b && y in a;
    LexTotal(Codes(x), Codes(x));
    LexTotal(Codes(y), Codes(y));
    LexAntisymmetric(Codes(x), Codes(y));
    CodesInjective(x, y);
  }

  lemma SortDedupShape(xs: seq<string>)
    ensures StrictlySorted(SortDedup(xs)) && forall x :: x in SortDedup(xs) <==> x in xs
  {
    SortSorts(Codes, xs);
    DedupSorted(Sort(Codes, xs));
    forall x
      ensures x in SortDedup(xs) <==> x in xs
    {
      assert x in Sort(Codes, xs) <==> x in multiset(Sort(Codes, xs));
      assert x in xs <==> x in multiset(xs);
    }
  }

  /** Two lists have the same sorted, duplicate-free form exactly when they have the same members. */
  lemma SortDedupCanonicalIff(xs: seq<string>, ys: seq<string>)
    ensures SortDedup(xs) == SortDedup(ys) <==> forall x :: x in xs <==> x in ys
  {
    SortDedupShape(xs);
    SortDedupShape(ys);
    if forall x :: x in xs <==> x in ys {
      StrictlySortedUnique(SortDedup(xs), SortDedup(ys));
    }
  }
}
