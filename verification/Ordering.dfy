/** The orders Python's `sorted` uses on the values the baseline tools sort:
    strings by code point, tuples of strings lexicographically, and the stable
    sort by key built on them. */
module Ordering {

  /** Code-point order on strings. */
  predicate Leq(a: string, b: string) {
    a == [] || (b != [] && (a[0] < b[0] || (a[0] == b[0] && Leq(a[1..], b[1..]))))
  }

  lemma {:induction false} LeqTotal(a: string, b: string)
    ensures Leq(a, b) || Leq(b, a)
  {
    if a != [] && b != [] && a[0] == b[0] {
      LeqTotal(a[1..], b[1..]);
    }
  }

  lemma {:induction false} LeqAntisymmetric(a: string, b: string)
    requires Leq(a, b) && Leq(b, a)
    ensures a == b
  {
    if a != [] {
      LeqAntisymmetric(a[1..], b[1..]);
      assert a == [a[0]] + a[1..] && b == [b[0]] + b[1..];
    }
  }

  lemma {:induction false} LeqTransitive(a: string, b: string, c: string)
    requires Leq(a, b) && Leq(b, c)
    ensures Leq(a, c)
  {
    if a != [] && a[0] == b[0] == c[0] {
      LeqTransitive(a[1..], b[1..], c[1..]);
    }
  }

  /** One text is before another exactly when it is a prefix of it or smaller at the first place
      where they differ. */
  lemma {:induction false} LeqExact(a: string, b: string)
    ensures Leq(a, b) <==> a <= b || exists k :: SmallerAt(a, b, k)
  {
    if a != [] && b != [] && a[0] == b[0] {
      LeqExact(a[1..], b[1..]);
      assert a == [a[0]] + a[1..] && b == [b[0]] + b[1..];
      forall k: nat ensures SmallerAt(a[1..], b[1..], k) <==> SmallerAt(a, b, k + 1) {
        if k < |a[1..]| && k < |b[1..]| {
          assert a[..k + 1] == [a[0]] + a[1..][..k] && b[..k + 1] == [b[0]] + b[1..][..k];
        }
      }
      assert !SmallerAt(a, b, 0);
      if k: nat :| SmallerAt(a, b, k) { assert k > 0 && SmallerAt(a[1..], b[1..], k - 1); }
    } else if a != [] && b != [] {
      assert SmallerAt(a, b, 0) <==> a[0] < b[0];
      forall k: nat | k > 0 && k < |a| && k < |b| ensures !SmallerAt(a, b, k) { assert a[..k][0] != b[..k][0]; }
    }
  }

  ghost predicate SmallerAt(a: string, b: string, k: nat) { k < |a| && k < |b| && a[..k] == b[..k] && a[k] < b[k] }

  /** Tuple order: the first differing component decides. */
  predicate KeyLeq(a: seq<string>, b: seq<string>) {
    a == [] || (b != [] && if a[0] == b[0] then KeyLeq(a[1..], b[1..]) else Leq(a[0], b[0]))
  }

  lemma {:induction false} KeyTotal(a: seq<string>, b: seq<string>)
    ensures KeyLeq(a, b) || KeyLeq(b, a)
  {
    if a != [] && b != [] {
      if a[0] == b[0] { KeyTotal(a[1..], b[1..]); } else { LeqTotal(a[0], b[0]); }
    }
  }

  lemma {:induction false} KeyAntisymmetric(a: seq<string>, b: seq<string>)
    requires KeyLeq(a, b) && KeyLeq(b, a)
    ensures a == b
  {
    if a != [] {
      if a[0] != b[0] {
        LeqAntisymmetric(a[0], b[0]);
      } else {
        KeyAntisymmetric(a[1..], b[1..]);
        assert a == [a[0]] + a[1..] && b == [b[0]] + b[1..];
      }
    }
  }

  lemma {:induction false} KeyTransitive(a: seq<string>, b: seq<string>, c: seq<string>)
    requires KeyLeq(a, b) && KeyLeq(b, c)
    ensures KeyLeq(a, c)
  {
    if a != [] {
      if a[0] == b[0] == c[0] {
        KeyTransitive(a[1..], b[1..], c[1..]);
      } else if a[0] == c[0] {
        LeqAntisymmetric(a[0], b[0]);
      } else if a[0] != b[0] && b[0] != c[0] {
        LeqTransitive(a[0], b[0], c[0]);
      }
    }
  }

  /** `sorted(names)` for a set of strings. */
  function SortedNames(names: set<string>): (order: seq<string>)
    ensures forall n :: n in order <==> n in names
    ensures forall i, j :: 0 <= i < j < |order| ==> order[i] != order[j] && Leq(order[i], order[j])
  {
    if names == {} then []
    else
      LeastExists(names);
      var least :| least in names && forall n :: n in names ==> Leq(least, n);
      var rest := SortedNames(names - {least});
      assert forall j :: 0 <= j < |rest| ==> rest[j] in names - {least};
      [least] + rest
  }

  lemma {:induction false} LeastExists(names: set<string>)
    requires names != {}
    ensures exists least :: least in names && forall n :: n in names ==> Leq(least, n)
    ensures forall a, b :: a in names && b in names && Leq(a, b) && Leq(b, a) ==> a == b
  {
    forall a, b | Leq(a, b) && Leq(b, a) ensures a == b { LeqAntisymmetric(a, b); }
    var x :| x in names;
    if names == {x} {
      LeqTotal(x, x);
    } else {
      LeastExists(names - {x});
      var y :| y in names - {x} && forall n :: n in names - {x} ==> Leq(y, n);
      LeqTotal(x, y);
      LeqTotal(x, x);
      var least := if Leq(x, y) then x else y;
      forall n | n in names ensures Leq(least, n) {
        if n != x && least == x { LeqTransitive(x, y, n); }
      }
    }
  }

  // ----- stable sort by key -----

  /** Insert `x` after every element whose key does not exceed its own. */
  function InsertBy<T>(key: T -> seq<string>, sorted: seq<T>, x: T): (r: seq<T>)
    ensures |r| == |sorted| + 1
  {
    if sorted == [] || KeyLeq(key(sorted[|sorted| - 1]), key(x)) then sorted + [x]
    else InsertBy(key, sorted[..|sorted| - 1], x) + [sorted[|sorted| - 1]]
  }

  /** `sorted(xs, key=...)`: Python's stable sort. */
  function SortBy<T>(key: T -> seq<string>, xs: seq<T>): (r: seq<T>)
    ensures |r| == |xs|
  {
    if xs == [] then [] else InsertBy(key, SortBy(key, xs[..|xs| - 1]), xs[|xs| - 1])
  }

  lemma {:induction false} InsertContents<T>(key: T -> seq<string>, sorted: seq<T>, x: T)
    ensures multiset(InsertBy(key, sorted, x)) == multiset(sorted) + multiset{x}
  {
    if !(sorted == [] || KeyLeq(key(sorted[|sorted| - 1]), key(x))) {
      InsertContents(key, sorted[..|sorted| - 1], x);
      assert sorted == sorted[..|sorted| - 1] + [sorted[|sorted| - 1]];
    }
  }

  /** Sorting is a permutation. */
  lemma {:induction false} SortContents<T>(key: T -> seq<string>, xs: seq<T>)
    ensures multiset(SortBy(key, xs)) == multiset(xs)
  {
    if xs != [] {
      SortContents(key, xs[..|xs| - 1]);
      InsertContents(key, SortBy(key, xs[..|xs| - 1]), xs[|xs| - 1]);
      assert xs == xs[..|xs| - 1] + [xs[|xs| - 1]];
    }
  }

  lemma SortMembers<T>(key: T -> seq<string>, xs: seq<T>)
    ensures forall x :: x in SortBy(key, xs) <==> x in xs
  {
    SortContents(key, xs);
    forall x ensures x in SortBy(key, xs) <==> x in xs {
      assert x in xs <==> x in multiset(xs);
      assert x in SortBy(key, xs) <==> x in multiset(SortBy(key, xs));
    }
  }

  /** Every element's key is at most every later element's key. */
  ghost predicate Ordered<T>(key: T -> seq<string>, xs: seq<T>) {
    forall i, j :: 0 <= i < j < |xs| ==> KeyLeq(key(xs[i]), key(xs[j]))
  }

  /** All keys of `xs` are at most `bound`. */
  ghost predicate Below<T>(key: T -> seq<string>, xs: seq<T>, bound: seq<string>) {
    forall i :: 0 <= i < |xs| ==> KeyLeq(key(xs[i]), bound)
  }

  lemma OrderedSnoc<T>(key: T -> seq<string>, xs: seq<T>, x: T)
    ensures Ordered(key, xs + [x]) <==> Ordered(key, xs) && Below(key, xs, key(x))
  {
    if Ordered(key, xs + [x]) {
      forall i, j | 0 <= i < j < |xs| ensures KeyLeq(key(xs[i]), key(xs[j])) {
        assert xs[i] == (xs + [x])[i] && xs[j] == (xs + [x])[j];
      }
      forall i | 0 <= i < |xs| ensures KeyLeq(key(xs[i]), key(x)) {
        assert xs[i] == (xs + [x])[i] && x == (xs + [x])[|xs|];
      }
    }
  }

  lemma BelowLast<T>(key: T -> seq<string>, xs: seq<T>, bound: seq<string>)
    requires xs != [] && Ordered(key, xs) && KeyLeq(key(xs[|xs| - 1]), bound)
    ensures Below(key, xs, bound)
  {
    forall i | 0 <= i < |xs| - 1 ensures KeyLeq(key(xs[i]), bound) {
      KeyTransitive(key(xs[i]), key(xs[|xs| - 1]), bound);
    }
  }

  lemma {:induction false} InsertBelow<T>(key: T -> seq<string>, sorted: seq<T>, x: T, bound: seq<string>)
    requires Below(key, sorted, bound) && KeyLeq(key(x), bound)
    ensures Below(key, InsertBy(key, sorted, x), bound)
  {
    if !(sorted == [] || KeyLeq(key(sorted[|sorted| - 1]), key(x))) {
      InsertBelow(key, sorted[..|sorted| - 1], x, bound);
    }
  }

  lemma {:induction false} InsertOrdered<T>(key: T -> seq<string>, sorted: seq<T>, x: T)
    requires Ordered(key, sorted)
    ensures Ordered(key, InsertBy(key, sorted, x))
  {
    if sorted == [] {
    } else if KeyLeq(key(sorted[|sorted| - 1]), key(x)) {
      BelowLast(key, sorted, key(x));
      OrderedSnoc(key, sorted, x);
    } else {
      var front, last := sorted[..|sorted| - 1], sorted[|sorted| - 1];
      assert sorted == front + [last];
      OrderedSnoc(key, front, last);
      KeyTotal(key(last), key(x));
      InsertOrdered(key, front, x);
      InsertBelow(key, front, x, key(last));
      OrderedSnoc(key, InsertBy(key, front, x), last);
    }
  }

  lemma {:induction false} SortOrdered<T>(key: T -> seq<string>, xs: seq<T>)
    ensures Ordered(key, SortBy(key, xs))
  {
    if xs != [] {
      SortOrdered(key, xs[..|xs| - 1]);
      InsertOrdered(key, SortBy(key, xs[..|xs| - 1]), xs[|xs| - 1]);
    }
  }

  lemma SortSnoc<T>(key: T -> seq<string>, xs: seq<T>, x: T)
    ensures SortBy(key, xs + [x]) == InsertBy(key, SortBy(key, xs), x)
  {
    assert (xs + [x])[..|xs|] == xs;
  }

  /** An ordered list is left alone by the stable sort. */
  lemma {:induction false} SortOfOrdered<T>(key: T -> seq<string>, xs: seq<T>)
    requires Ordered(key, xs)
    ensures SortBy(key, xs) == xs
  {
    if xs != [] {
      var front, last := xs[..|xs| - 1], xs[|xs| - 1];
      assert xs == front + [last];
      OrderedSnoc(key, front, last);
      SortOfOrdered(key, front);
      SortSnoc(key, front, last);
    }
  }

  /** Sorting a prefix first changes nothing. */
  lemma {:induction false} SortOfSortedPrefix<T>(key: T -> seq<string>, xs: seq<T>, ys: seq<T>)
    ensures SortBy(key, SortBy(key, xs) + ys) == SortBy(key, xs + ys)
  {
    if ys == [] {
      assert SortBy(key, xs) + ys == SortBy(key, xs) && xs + ys == xs;
      SortOrdered(key, xs);
      SortOfOrdered(key, SortBy(key, xs));
    } else {
      var front, last := ys[..|ys| - 1], ys[|ys| - 1];
      var sorted := SortBy(key, xs);
      SortOfSortedPrefix(key, xs, front);
      SortSnoc(key, sorted + front, last);
      SortSnoc(key, xs + front, last);
      assert ys == front + [last];
      Associative(sorted, front, [last]);
      Associative(xs, front, [last]);
    }
  }

  /** `[x for x in xs if p(x)]` */
  function Keep<T>(p: T -> bool, xs: seq<T>): (r: seq<T>)
    ensures forall x :: x in r ==> p(x) && x in xs
  {
    if xs == [] then []
    else Keep(p, xs[..|xs| - 1]) + (if p(xs[|xs| - 1]) then [xs[|xs| - 1]] else [])
  }

  lemma KeepSnoc<T>(p: T -> bool, xs: seq<T>, x: T)
    ensures Keep(p, xs + [x]) == Keep(p, xs) + if p(x) then [x] else []
  {
    assert (xs + [x])[..|xs|] == xs;
  }

  lemma Associative<T>(a: seq<T>, b: seq<T>, c: seq<T>)
    ensures (a + b) + c == a + (b + c)
  {
  }

  lemma {:induction false} KeepAppend<T>(p: T -> bool, xs: seq<T>, ys: seq<T>)
    ensures Keep(p, xs + ys) == Keep(p, xs) + Keep(p, ys)
  {
    if ys == [] {
      assert xs + ys == xs;
    } else {
      var front, last := ys[..|ys| - 1], ys[|ys| - 1];
      KeepAppend(p, xs, front);
      assert xs + ys == (xs + front) + [last] && ys == front + [last];
      KeepAppendSnoc(p, xs, front, last);
    }
  }

  lemma KeepAppendSnoc<T>(p: T -> bool, xs: seq<T>, front: seq<T>, last: T)
    requires Keep(p, xs + front) == Keep(p, xs) + Keep(p, front)
    ensures Keep(p, (xs + front) + [last]) == Keep(p, xs) + Keep(p, front + [last])
  {
    KeepSnoc(p, xs + front, last);
    KeepSnoc(p, front, last);
    Associative(Keep(p, xs), Keep(p, front), if p(last) then [last] else []);
  }

  lemma {:induction false} KeepAll<T>(p: T -> bool, xs: seq<T>)
    requires forall x :: x in xs ==> p(x)
    ensures Keep(p, xs) == xs
  {
    if xs != [] {
      KeepAll(p, xs[..|xs| - 1]);
      FrontAndLast(xs);
      KeepLast(p, xs[..|xs| - 1], xs[|xs| - 1]);
    }
  }

  lemma FrontAndLast<T>(xs: seq<T>)
    requires xs != []
    ensures xs[..|xs| - 1] + [xs[|xs| - 1]] == xs
  {
  }

  lemma KeepLast<T>(p: T -> bool, front: seq<T>, last: T)
    requires p(last) && Keep(p, front) == front
    ensures Keep(p, front + [last]) == front + [last]
  {
    KeepSnoc(p, front, last);
  }

  lemma {:induction false} KeepNone<T>(p: T -> bool, xs: seq<T>)
    requires forall x :: x in xs ==> !p(x)
    ensures Keep(p, xs) == []
  {
    if xs != [] { KeepNone(p, xs[..|xs| - 1]); }
  }

  lemma {:induction false} KeepBelow<T>(p: T -> bool, key: T -> seq<string>, xs: seq<T>, bound: seq<string>)
    requires Below(key, xs, bound)
    ensures Below(key, Keep(p, xs), bound)
  {
    if xs != [] { KeepBelow(p, key, xs[..|xs| - 1], bound); }
  }

  /** Inserting an element no smaller than any other appends it. */
  lemma InsertAtEnd<T>(key: T -> seq<string>, sorted: seq<T>, x: T)
    requires Below(key, sorted, key(x))
    ensures InsertBy(key, sorted, x) == sorted + [x]
  {
  }

  /** Filtering commutes with one stable insertion. */
  lemma {:induction false} KeepInsert<T>(p: T -> bool, key: T -> seq<string>, sorted: seq<T>, x: T)
    requires Ordered(key, sorted)
    ensures Keep(p, InsertBy(key, sorted, x)) ==
            if p(x) then InsertBy(key, Keep(p, sorted), x) else Keep(p, sorted)
  {
    if sorted == [] {
      KeepSnoc(p, sorted, x);
    } else if KeyLeq(key(sorted[|sorted| - 1]), key(x)) {
      KeepSnoc(p, sorted, x);
      BelowLast(key, sorted, key(x));
      KeepBelow(p, key, sorted, key(x));
      InsertAtEnd(key, Keep(p, sorted), x);
    } else {
      var front, last := sorted[..|sorted| - 1], sorted[|sorted| - 1];
      assert sorted == front + [last];
      OrderedSnoc(key, front, last);
      KeepInsert(p, key, front, x);
      KeepSnoc(p, InsertBy(key, front, x), last);
      KeepSnoc(p, front, last);
      InsertBefore(key, front, last, x);
      if p(last) {
        InsertBefore(key, Keep(p, front), last, x);
      } else {
        assert Keep(p, front) + [] == Keep(p, front);
      }
    }
  }

  lemma InsertBefore<T>(key: T -> seq<string>, front: seq<T>, last: T, x: T)
    requires !KeyLeq(key(last), key(x))
    ensures InsertBy(key, front + [last], x) == InsertBy(key, front, x) + [last]
  {
    assert (front + [last])[..|front|] == front;
  }

  /** Filtering commutes with the stable sort. */
  lemma {:induction false} KeepSort<T>(p: T -> bool, key: T -> seq<string>, xs: seq<T>)
    ensures Keep(p, SortBy(key, xs)) == SortBy(key, Keep(p, xs))
  {
    if xs != [] {
      var front, last := xs[..|xs| - 1], xs[|xs| - 1];
      KeepSort(p, key, front);
      SortOrdered(key, front);
      KeepInsert(p, key, SortBy(key, front), last);
      SortSnoc(key, Keep(p, front), last);
      assert Keep(p, xs) == if p(last) then Keep(p, front) + [last] else Keep(p, front);
    }
  }

  /** Two ordered lists over an injective key with equal contents are the same list. */
  lemma {:induction false} OrderedUnique(xs: seq<string>, ys: seq<string>)
    requires Ordered(Self, xs) && Ordered(Self, ys)
    requires multiset(xs) == multiset(ys)
    ensures xs == ys
  {
    assert |xs| == |multiset(xs)| == |multiset(ys)| == |ys|;
    if xs != [] {
      var n := |xs| - 1;
      OrderedSplit(xs);
      OrderedSplit(ys);
      LastIsGreatest(xs[..n], xs[n], ys[..n], ys[n]);
      SameFront(xs[..n], ys[..n], xs[n]);
      OrderedUnique(xs[..n], ys[..n]);
    }
  }

  lemma OrderedSplit(xs: seq<string>)
    requires xs != [] && Ordered(Self, xs)
    ensures var n := |xs| - 1;
            Ordered(Self, xs[..n]) && Below(Self, xs[..n], Self(xs[n])) && xs == xs[..n] + [xs[n]]
  {
    var n := |xs| - 1;
    assert xs == xs[..n] + [xs[n]];
    OrderedSnoc(Self, xs[..n], xs[n]);
  }

  lemma SameFront(front: seq<string>, front': seq<string>, last: string)
    requires multiset(front + [last]) == multiset(front' + [last])
    ensures multiset(front) == multiset(front')
  {
    assert multiset(front) == multiset(front + [last]) - multiset{last};
    assert multiset(front') == multiset(front' + [last]) - multiset{last};
  }

  lemma LastIsGreatest(front: seq<string>, last: string, front': seq<string>, last': string)
    requires Below(Self, front, Self(last)) && Below(Self, front', Self(last'))
    requires multiset(front + [last]) == multiset(front' + [last'])
    ensures last == last'
  {
    assert last in multiset(front' + [last']) && last' in multiset(front + [last]);
    assert last in front' + [last'] && last' in front + [last];
    if last != last' {
      var i :| 0 <= i < |front'| && front'[i] == last;
      var j :| 0 <= j < |front| && front[j] == last';
      KeyAntisymmetric(Self(last), Self(last'));
    }
  }

  function Self(s: string): seq<string> { [s] }

  /** Sorting forgets exactly the order: equal results mean equal multisets. */
  lemma SortedStringsAgree(xs: seq<string>, ys: seq<string>)
    ensures SortBy(Self, xs) == SortBy(Self, ys) <==> multiset(xs) == multiset(ys)
  {
    SortContents(Self, xs);
    SortContents(Self, ys);
    if multiset(xs) == multiset(ys) {
      SortOrdered(Self, xs);
      SortOrdered(Self, ys);
      OrderedUnique(SortBy(Self, xs), SortBy(Self, ys));
    }
  }
}
