/** The contract of a stable library sort, as a function, and why that contract
    determines the result. Keys are pairs compared lexicographically. */
module StableSort {

  type Key = (int, int)

  predicate KeyLess(a: Key, b: Key)
  {
    a.0 < b.0 || (a.0 == b.0 && a.1 < b.1)
  }

  /** Inserts x after every element whose key is not greater. */
  function Insert<T>(key: T -> Key, s: seq<T>, x: T): (r: seq<T>)
    ensures |r| == |s| + 1
    ensures multiset(r) == multiset(s) + multiset{x}
  {
    if s == [] then [x]
    else
      var n := |s| - 1;
      assert s == s[..n] + [s[n]];
      if KeyLess(key(x), key(s[n])) then Insert(key, s[..n], x) + [s[n]] else s + [x]
  }

  function Sort<T>(key: T -> Key, s: seq<T>): (r: seq<T>)
    ensures |r| == |s|
    ensures multiset(r) == multiset(s)
  {
    if s == [] then []
    else
      var n := |s| - 1;
      assert s == s[..n] + [s[n]];
      Insert(key, Sort(key, s[..n]), s[n])
  }

  ghost predicate Sorted<T>(key: T -> Key, s: seq<T>)
  {
    forall i, j :: 0 <= i < j < |s| ==> !KeyLess(key(s[j]), key(s[i]))
  }

  /** The elements with key k, in order. */
  ghost function Class<T>(key: T -> Key, s: seq<T>, k: Key): (r: seq<T>)
  {
    if s == [] then []
    else
      var n := |s| - 1;
      Class(key, s[..n], k) + if key(s[n]) == k then [s[n]] else []
  }

  /** r is a stable rearrangement of s: elements with equal keys keep their order. */
  ghost predicate Stable<T(!new)>(key: T -> Key, s: seq<T>, r: seq<T>)
  {
    forall k :: Class(key, s, k) == Class(key, r, k)
  }

  lemma {:induction false} InsertKeepsSorted<T>(key: T -> Key, s: seq<T>, x: T)
    requires Sorted(key, s)
    ensures Sorted(key, Insert(key, s, x))
  {
    if s != [] && KeyLess(key(x), key(s[|s| - 1])) {
      var n := |s| - 1;
      var front := Insert(key, s[..n], x);
      InsertKeepsSorted(key, s[..n], x);
      forall i | 0 <= i < |front| ensures !KeyLess(key(s[n]), key(front[i])) {
        assert front[i] in multiset(front);
        assert front[i] == x || front[i] in s[..n];
      }
    }
  }

  lemma {:induction false} InsertClass<T>(key: T -> Key, s: seq<T>, x: T, k: Key)
    requires Sorted(key, s)
    ensures Class(key, Insert(key, s, x), k) == Class(key, s, k) + if key(x) == k then [x] else []
  {
    if s != [] {
      var n := |s| - 1;
      var r := Insert(key, s, x);
      if KeyLess(key(x), key(s[n])) {
        InsertClass(key, s[..n], x, k);
        assert r[..n + 1] == Insert(key, s[..n], x);
        if key(x) == k { NoClassBelow(key, s, k); }
      } else {
        assert r[..n + 1] == s;
      }
    }
  }

  /** The last element of a sorted sequence is not in a class with smaller key. */
  lemma NoClassBelow<T>(key: T -> Key, s: seq<T>, k: Key)
    requires s != [] && KeyLess(k, key(s[|s| - 1]))
    ensures Class(key, s, k) == Class(key, s[..|s| - 1], k)
  {
  }

  lemma {:induction false} SortIsSorted<T>(key: T -> Key, s: seq<T>)
    ensures Sorted(key, Sort(key, s))
  {
    if s != [] {
      var n := |s| - 1;
      SortIsSorted(key, s[..n]);
      InsertKeepsSorted(key, Sort(key, s[..n]), s[n]);
    }
  }

  lemma {:induction false} SortClass<T>(key: T -> Key, s: seq<T>, k: Key)
    ensures Class(key, s, k) == Class(key, Sort(key, s), k)
  {
    if s != [] {
      var n := |s| - 1;
      SortClass(key, s[..n], k);
      SortIsSorted(key, s[..n]);
      InsertClass(key, Sort(key, s[..n]), s[n], k);
    }
  }

  lemma SortIsSortedAndStable<T(!new)>(key: T -> Key, s: seq<T>)
    ensures Sorted(key, Sort(key, s)) && Stable(key, s, Sort(key, s))
  {
    SortIsSorted(key, s);
    forall k ensures Class(key, s, k) == Class(key, Sort(key, s), k) {
      SortClass(key, s, k);
    }
  }

  lemma SameFront<T>(a: seq<T>, x: T, b: seq<T>, y: T)
    requires a + [x] == b + [y]
    ensures a == b && x == y
  {
    assert a == (a + [x])[..|a|] && b == (b + [y])[..|b|];
    assert |a + [x]| == |b + [y]|;
    assert (a + [x])[|a|] == x && (b + [y])[|b|] == y;
  }

  lemma {:induction false} ClassNonEmpty<T>(key: T -> Key, s: seq<T>, i: nat)
    requires i < |s|
    ensures Class(key, s, key(s[i])) != []
  {
    if i < |s| - 1 { ClassNonEmpty(key, s[..|s| - 1], i); }
  }

  lemma {:induction false} ClassMember<T>(key: T -> Key, s: seq<T>, k: Key) returns (i: nat)
    requires Class(key, s, k) != []
    ensures i < |s| && key(s[i]) == k
  {
    var n := |s| - 1;
    if key(s[n]) == k { i := n; } else { i := ClassMember(key, s[..n], k); }
  }

  /** The last element of a sorted sequence has the greatest key of all classes. */
  lemma LastIsGreatest<T>(key: T -> Key, s: seq<T>, k: Key)
    requires Sorted(key, s) && Class(key, s, k) != []
    ensures s != [] && !KeyLess(key(s[|s| - 1]), k)
  {
    var i := ClassMember(key, s, k);
    assert i == |s| - 1 || !KeyLess(key(s[|s| - 1]), key(s[i]));
  }

  /** A sorted stable rearrangement is unique, so Sort is the only function
      that meets the contract of a stable sort. */
  lemma {:induction false} StableSortIsUnique<T(!new)>(key: T -> Key, a: seq<T>, b: seq<T>)
    requires Sorted(key, a) && Sorted(key, b) && Stable(key, a, b)
    ensures a == b
  {
    if a == [] && b == [] {
    } else if a == [] {
      ClassNonEmpty(key, b, |b| - 1);
    } else if b == [] {
      ClassNonEmpty(key, a, |a| - 1);
    } else {
      var la, lb := |a| - 1, |b| - 1;
      var last := key(a[la]);
      ClassNonEmpty(key, a, la);
      ClassNonEmpty(key, b, lb);
      LastIsGreatest(key, b, last);
      LastIsGreatest(key, a, key(b[lb]));
      assert Class(key, a, last) == Class(key, b, last);
      SameFront(Class(key, a[..la], last), a[la], Class(key, b[..lb], last), b[lb]);
      forall k ensures Class(key, a[..la], k) == Class(key, b[..lb], k) {
        assert Class(key, a, k) == Class(key, b, k);
        if k != last {
          assert Class(key, a, k) == Class(key, a[..la], k);
          assert Class(key, b, k) == Class(key, b[..lb], k);
        }
      }
      StableSortIsUnique(key, a[..la], b[..lb]);
    }
  }

  /** Two listings sort to the same sequence exactly when each lists every key class
      in the order of the other. */
  lemma SameSortIff<T(!new)>(key: T -> Key, a: seq<T>, b: seq<T>)
    ensures Sort(key, a) == Sort(key, b) <==> Stable(key, a, b)
  {
    SortIsSortedAndStable(key, a);
    SortIsSortedAndStable(key, b);
    if Sort(key, a) == Sort(key, b) {
      forall k ensures Class(key, a, k) == Class(key, b, k) {
        assert Class(key, a, k) == Class(key, Sort(key, a), k);
        assert Class(key, b, k) == Class(key, Sort(key, b), k);
      }
    }
    if Stable(key, a, b) {
      forall k ensures Class(key, Sort(key, a), k) == Class(key, Sort(key, b), k) {
        assert Class(key, a, k) == Class(key, b, k);
      }
      StableSortIsUnique(key, Sort(key, a), Sort(key, b));
    }
  }

  /** Sorting changes nothing when the input is in order already. */
  lemma {:induction false} SortOfSorted<T>(key: T -> Key, s: seq<T>)
    requires Sorted(key, s)
    ensures Sort(key, s) == s
  {
    if s != [] { SortOfSorted(key, s[..|s| - 1]); }
  }

  ghost predicate KeysIdentify<T>(key: T -> Key, s: seq<T>)
  {
    forall i, j :: 0 <= i < |s| && 0 <= j < |s| && key(s[i]) == key(s[j]) ==> s[i] == s[j]
  }

  lemma SameMaximum<T(!new)>(key: T -> Key, a: seq<T>, b: seq<T>)
    requires multiset(a) == multiset(b) && a != [] && b != []
    requires Sorted(key, a) && Sorted(key, b) && KeysIdentify(key, a)
    ensures a[|a| - 1] == b[|b| - 1]
  {
    var x, y := a[|a| - 1], b[|b| - 1];
    assert x in multiset(b) && y in multiset(a);
    var i :| 0 <= i < |b| && b[i] == x;
    var j :| 0 <= j < |a| && a[j] == y;
    assert !KeyLess(key(y), key(x));
    assert !KeyLess(key(x), key(y));
  }

  lemma FrontMultiset<T>(s: seq<T>)
    requires s != []
    ensures multiset(s[..|s| - 1]) == multiset(s) - multiset{s[|s| - 1]}
  {
    assert s == s[..|s| - 1] + [s[|s| - 1]];
  }

  lemma FrontOfSorted<T>(key: T -> Key, a: seq<T>, b: seq<T>)
    requires a != [] && b != [] && KeysIdentify(key, a) && Sorted(key, b)
    ensures KeysIdentify(key, a[..|a| - 1]) && Sorted(key, b[..|b| - 1])
  {
  }

  /** When keys identify elements, a multiset has one sorted listing. */
  lemma {:induction false} SortedListingIsUnique<T(!new)>(key: T -> Key, a: seq<T>, b: seq<T>)
    requires multiset(a) == multiset(b)
    requires Sorted(key, a) && Sorted(key, b) && KeysIdentify(key, a)
    ensures a == b
  {
    assert |a| == |multiset(a)| == |multiset(b)| == |b|;
    if a != [] {
      SameMaximum(key, a, b);
      FrontMultiset(a);
      FrontMultiset(b);
      var n := |a| - 1;
      FrontOfSorted(key, a, a);
      FrontOfSorted(key, a, b);
      SortedListingIsUnique(key, a[..n], b[..n]);
      assert a == a[..n] + [a[n]] && b == b[..n] + [b[n]];
    }
  }

  /** Sorting forgets the order of the input when keys identify elements. */
  lemma SortForgetsOrder<T(!new)>(key: T -> Key, a: seq<T>, b: seq<T>)
    requires multiset(a) == multiset(b) && KeysIdentify(key, a)
    ensures Sort(key, a) == Sort(key, b)
  {
    SortIsSortedAndStable(key, a);
    SortIsSortedAndStable(key, b);
    var r := Sort(key, a);
    forall i, j | 0 <= i < |r| && 0 <= j < |r| && key(r[i]) == key(r[j])
      ensures r[i] == r[j]
    {
      assert r[i] in multiset(a) && r[j] in multiset(a);
    }
    SortedListingIsUnique(key, r, Sort(key, b));
  }
}
