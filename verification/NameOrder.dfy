/** Sorting by a key derived from each element, as a stable sort does it. */
module NameOrder {
  import opened Text
  import opened Sequences

  ghost predicate Sorted<T>(s: seq<T>, key: T -> string) {
    forall i, j | 0 <= i < j < |s| :: !StringLess(key(s[j]), key(s[i]))
  }

  /** Of one element, what has the key. */
  function One<T>(x: T, key: T -> string, k: string): seq<T> {
    if key(x) == k then [x] else []
  }

  /** The elements with this key, in their order. */
  function WithKey<T>(s: seq<T>, key: T -> string, k: string): seq<T> {
    if s == [] then [] else One(s[0], key, k) + WithKey(s[1..], key, k)
  }

  /** A stable sort moves no element past another with the same key. */
  ghost predicate IsSortOf<T(!new)>(r: seq<T>, s: seq<T>, key: T -> string) {
    Sorted(r, key) && forall k :: WithKey(r, key, k) == WithKey(s, key, k)
  }

  function Inserted<T>(s: seq<T>, x: T, key: T -> string): seq<T> {
    if s == [] then [x]
    else if StringLess(key(x), key(s[0])) then [x] + s
    else [s[0]] + Inserted(s[1..], x, key)
  }

  lemma {:induction false} WithKeyAppend<T>(a: seq<T>, b: seq<T>, key: T -> string, k: string)
    ensures WithKey(a + b, key, k) == WithKey(a, key, k) + WithKey(b, key, k)
  {
    if a == [] {
      assert a + b == b;
    } else {
      HeadOfAppend(a, b);
      WithKeyAppend(a[1..], b, key, k);
      Associates(One(a[0], key, k), WithKey(a[1..], key, k), WithKey(b, key, k));
    }
  }

  lemma {:induction false} NoneWithKey<T>(s: seq<T>, key: T -> string, k: string)
    requires forall i | 0 <= i < |s| :: key(s[i]) != k
    ensures WithKey(s, key, k) == []
  {
    if s != [] {
      NoneWithKey(s[1..], key, k);
    }
  }

  lemma WithKeyCons<T>(x: T, s: seq<T>, key: T -> string, k: string)
    ensures WithKey([x] + s, key, k) == One(x, key, k) + WithKey(s, key, k)
  {
    TailOf(x, s);
  }

  lemma GreaterThanAll<T>(s: seq<T>, x: T, key: T -> string)
    requires Sorted(s, key) && s != [] && StringLess(key(x), key(s[0]))
    ensures WithKey(s, key, key(x)) == []
  {
    forall i | 0 <= i < |s| ensures key(s[i]) != key(x) {
      StringLessIsStrict(key(x), key(s[0]), key(x));
    }
    NoneWithKey(s, key, key(x));
  }

  lemma {:induction false} InsertedWithKey<T>(s: seq<T>, x: T, key: T -> string, k: string)
    requires Sorted(s, key)
    ensures WithKey(Inserted(s, x, key), key, k) == WithKey(s, key, k) + One(x, key, k)
  {
    if s == [] {
      WithKeyCons(x, [], key, k);
      assert [x] + [] == [x];
    } else if StringLess(key(x), key(s[0])) {
      WithKeyCons(x, s, key, k);
      GreaterThanAll(s, x, key);
    } else {
      InsertedWithKey(s[1..], x, key, k);
      WithKeyCons(s[0], Inserted(s[1..], x, key), key, k);
      WithKeyCons(s[0], s[1..], key, k);
      assert s == [s[0]] + s[1..];
      Associates(One(s[0], key, k), WithKey(s[1..], key, k), One(x, key, k));
    }
  }

  lemma {:induction false} InsertedIsSorted<T>(s: seq<T>, x: T, key: T -> string)
    requires Sorted(s, key)
    ensures Sorted(Inserted(s, x, key), key)
    ensures forall y | y in Inserted(s, x, key) :: y in s || y == x
  {
    if s == [] {
    } else if StringLess(key(x), key(s[0])) {
      forall j | 0 <= j < |s| ensures !StringLess(key(s[j]), key(x)) {
        StringLessIsStrict(key(s[j]), key(x), key(s[0]));
        StringLessIsStrict(key(s[0]), key(s[0]), key(s[0]));
      }
      SortedBehind(x, s, key);
    } else {
      InsertedIsSorted(s[1..], x, key);
      var rest := Inserted(s[1..], x, key);
      forall j | 0 <= j < |rest| ensures !StringLess(key(rest[j]), key(s[0])) {
        assert rest[j] in rest;
        if rest[j] in s[1..] {
          var i :| 0 <= i < |s[1..]| && s[1..][i] == rest[j];
          assert s[i + 1] == rest[j];
        }
      }
      SortedBehind(s[0], rest, key);
      assert s == [s[0]] + s[1..];
    }
  }

  lemma SortedBehind<T>(x: T, s: seq<T>, key: T -> string)
    requires Sorted(s, key) && forall j | 0 <= j < |s| :: !StringLess(key(s[j]), key(x))
    ensures Sorted([x] + s, key)
  {
    var r := [x] + s;
    forall i, j | 0 <= i < j < |r| ensures !StringLess(key(r[j]), key(r[i])) {
      assert r[j] == s[j - 1];
      assert i > 0 ==> r[i] == s[i - 1];
    }
  }

  lemma InsertedOneMore<T(!new)>(r: seq<T>, s: seq<T>, x: T, key: T -> string)
    requires IsSortOf(r, s, key)
    ensures IsSortOf(Inserted(r, x, key), s + [x], key)
  {
    InsertedIsSorted(r, x, key);
    forall k ensures WithKey(Inserted(r, x, key), key, k) == WithKey(s + [x], key, k) {
      InsertedWithKey(r, x, key, k);
      WithKeyAppend(s, [x], key, k);
      WithKeyCons(x, [], key, k);
      assert [x] + [] == [x];
    }
  }

  method SortByKey<T(!new)>(s: seq<T>, key: T -> string) returns (r: seq<T>)
    ensures IsSortOf(r, s, key)
  {
    r := [];
    for i := 0 to |s|
      invariant IsSortOf(r, s[..i], key)
    {
      InsertedOneMore(r, s[..i], s[i], key);
      assert s[..i + 1] == s[..i] + [s[i]];
      r := Inserted(r, s[i], key);
    }
    assert s[..|s|] == s;
  }

  /** Sorting leaves no choice: two sorts of the same list are the same list. */
  lemma {:induction false} SortIsUnique<T(!new)>(a: seq<T>, b: seq<T>, key: T -> string)
    requires Sorted(a, key) && Sorted(b, key) && forall k :: WithKey(a, key, k) == WithKey(b, key, k)
    ensures a == b
    decreases |a|
  {
    if a == [] || b == [] {
      EmptyTogether(a, b, key);
    } else {
      SameFirstKey(a, b, key);
      SameFirstKey(b, a, key);
      StringLessIsStrict(key(a[0]), key(b[0]), key(a[0]));
      assert WithKey(a, key, key(a[0]))[0] == a[0] && WithKey(b, key, key(a[0]))[0] == b[0];
      forall k ensures WithKey(a[1..], key, k) == WithKey(b[1..], key, k) {
        var first := One(a[0], key, k);
        assert WithKey(a, key, k)[|first|..] == WithKey(a[1..], key, k);
        assert WithKey(b, key, k)[|first|..] == WithKey(b[1..], key, k);
      }
      SortIsUnique(a[1..], b[1..], key);
      assert a == [a[0]] + a[1..] && b == [b[0]] + b[1..];
    }
  }

  lemma EmptyTogether<T(!new)>(a: seq<T>, b: seq<T>, key: T -> string)
    requires forall k :: WithKey(a, key, k) == WithKey(b, key, k)
    ensures a == [] <==> b == []
  {
    if a != [] {
      assert WithKey(a, key, key(a[0]))[0] == a[0];
    }
    if b != [] {
      assert WithKey(b, key, key(b[0]))[0] == b[0];
    }
  }

  lemma {:induction false} FromKey<T>(s: seq<T>, key: T -> string, k: string) returns (i: nat)
    requires WithKey(s, key, k) != []
    ensures i < |s| && key(s[i]) == k
  {
    if key(s[0]) == k {
      i := 0;
    } else {
      var j := FromKey(s[1..], key, k);
      i := j + 1;
    }
  }

  lemma SameFirstKey<T(!new)>(a: seq<T>, b: seq<T>, key: T -> string)
    requires a != [] && b != [] && Sorted(b, key) && forall k :: WithKey(a, key, k) == WithKey(b, key, k)
    ensures !StringLess(key(a[0]), key(b[0]))
  {
    assert WithKey(a, key, key(a[0]))[0] == a[0];
    var i := FromKey(b, key, key(a[0]));
    StringLessIsStrict(key(b[0]), key(b[0]), key(b[0]));
  }

  lemma {:induction false} Occurrences<T>(s: seq<T>, key: T -> string, x: T)
    ensures multiset(s)[x] == multiset(WithKey(s, key, key(x)))[x]
  {
    if s != [] {
      Occurrences(s[1..], key, x);
      assert s == [s[0]] + s[1..];
    }
  }

  lemma SortIsPermutation<T(!new)>(r: seq<T>, s: seq<T>, key: T -> string)
    requires IsSortOf(r, s, key)
    ensures multiset(r) == multiset(s)
  {
    forall x ensures multiset(r)[x] == multiset(s)[x] {
      Occurrences(r, key, x);
      Occurrences(s, key, x);
    }
  }
}
