/**
 * Python's `list.sort(key=..., reverse=True)`: a stable sort, largest key first, in which
 * elements with equal keys keep their original relative order. Modelled as a functional
 * insertion sort; an ascending sort is this sort on the negated key.
 */
module StableSort {

  /** `s` is in non-increasing order of `key`. */
  predicate SortedDesc<T>(s: seq<T>, key: T -> real)
  {
    forall i, j :: 0 <= i < j < |s| ==> key(s[i]) >= key(s[j])
  }

  /** The elements of `s` whose key is `k`, in their order in `s`. */
  function WithKey<T>(s: seq<T>, key: T -> real, k: real): (r: seq<T>)
    ensures |r| <= |s|
  {
    if s == [] then [] else (if key(s[0]) == k then [s[0]] else []) + WithKey(s[1..], key, k)
  }

  /** Inserts `x` after every element of `s` whose key is at least `key(x)`. */
  function Insert<T>(x: T, s: seq<T>, key: T -> real): seq<T>
  {
    if s == [] then [x]
    else if key(s[0]) >= key(x) then [s[0]] + Insert(x, s[1..], key)
    else [x] + s
  }

  function SortDesc<T>(s: seq<T>, key: T -> real): seq<T>
  {
    if s == [] then [] else Insert(s[|s| - 1], SortDesc(s[..|s| - 1], key), key)
  }

  /** The first `n` elements (Python `s[:n]`). */
  function Take<T>(s: seq<T>, n: nat): (r: seq<T>)
    ensures |r| == if n <= |s| then n else |s|
    ensures forall i :: 0 <= i < |r| ==> r[i] == s[i]
  {
    if n <= |s| then s[..n] else s
  }

  lemma {:induction false} WithKeyAppend<T>(a: seq<T>, b: seq<T>, key: T -> real, k: real)
    ensures WithKey(a + b, key, k) == WithKey(a, key, k) + WithKey(b, key, k)
  {
    if a == [] {
      assert a + b == b;
    } else {
      var head := if key(a[0]) == k then [a[0]] else [];
      assert (a + b)[0] == a[0];
      assert (a + b)[1..] == a[1..] + b;
      WithKeyAppend(a[1..], b, key, k);
      calc {
        WithKey(a + b, key, k);
        head + WithKey(a[1..] + b, key, k);
        head + (WithKey(a[1..], key, k) + WithKey(b, key, k));
        (head + WithKey(a[1..], key, k)) + WithKey(b, key, k);
      }
    }
  }

  lemma {:induction false} WithKeyNone<T>(s: seq<T>, key: T -> real, k: real)
    requires forall i :: 0 <= i < |s| ==> key(s[i]) != k
    ensures WithKey(s, key, k) == []
  {
    if s != [] {
      WithKeyNone(s[1..], key, k);
    }
  }

  lemma {:induction false} InsertPermutes<T>(x: T, s: seq<T>, key: T -> real)
    ensures multiset(Insert(x, s, key)) == multiset(s) + multiset{x}
  {
    if s != [] && key(s[0]) >= key(x) {
      InsertPermutes(x, s[1..], key);
      assert s == [s[0]] + s[1..];
    }
  }

  lemma {:induction false} InsertSorted<T>(x: T, s: seq<T>, key: T -> real)
    requires SortedDesc(s, key)
    ensures SortedDesc(Insert(x, s, key), key)
  {
    if s != [] && key(s[0]) >= key(x) {
      var t := Insert(x, s[1..], key);
      InsertSorted(x, s[1..], key);
      InsertPermutes(x, s[1..], key);
      forall i | 0 <= i < |t| ensures key(s[0]) >= key(t[i]) {
        assert t[i] in multiset(t);
        assert t[i] == x || t[i] in multiset(s[1..]);
      }
    }
  }

  lemma {:induction false} InsertWithKey<T>(x: T, s: seq<T>, key: T -> real, k: real)
    requires SortedDesc(s, key)
    ensures WithKey(Insert(x, s, key), key, k) == WithKey(s, key, k) + WithKey([x], key, k)
  {
    if s == [] {
      assert Insert(x, s, key) == [x];
    } else if key(s[0]) >= key(x) {
      SortedTail(s, key);
      InsertWithKey(x, s[1..], key, k);
      InsertWithKeyAfter(x, s, key, k);
    } else {
      SortedHead(s, key);
      InsertWithKeyBefore(x, s, key, k);
    }
  }

  lemma SortedTail<T>(s: seq<T>, key: T -> real)
    requires s != [] && SortedDesc(s, key)
    ensures SortedDesc(s[1..], key)
  {
    var rest := s[1..];
    forall i, j | 0 <= i < j < |rest| ensures key(rest[i]) >= key(rest[j]) {
      assert rest[i] == s[i + 1] && rest[j] == s[j + 1];
    }
  }

  lemma SortedHead<T>(s: seq<T>, key: T -> real)
    requires s != [] && SortedDesc(s, key)
    ensures forall i :: 0 <= i < |s| ==> key(s[i]) <= key(s[0])
  {
    forall i | 0 < i < |s| ensures key(s[i]) <= key(s[0]) {
      assert key(s[0]) >= key(s[i]);
    }
  }

  /** The step of `InsertWithKey` where `x` goes past the head of `s`. */
  lemma InsertWithKeyAfter<T>(x: T, s: seq<T>, key: T -> real, k: real)
    requires s != [] && key(s[0]) >= key(x)
    requires WithKey(Insert(x, s[1..], key), key, k) == WithKey(s[1..], key, k) + WithKey([x], key, k)
    ensures WithKey(Insert(x, s, key), key, k) == WithKey(s, key, k) + WithKey([x], key, k)
  {
    var u := Insert(x, s, key);
    assert u[0] == s[0] && u[1..] == Insert(x, s[1..], key);
    WithKeyHead(u, key, k);
    WithKeyHead(s, key, k);
    SeqAssoc(WithKey([s[0]], key, k), WithKey(s[1..], key, k), WithKey([x], key, k));
  }

  /** `WithKey` splits off the head of a sequence. */
  lemma WithKeyHead<T>(s: seq<T>, key: T -> real, k: real)
    requires s != []
    ensures WithKey(s, key, k) == WithKey([s[0]], key, k) + WithKey(s[1..], key, k)
  {
    var one := [s[0]];
    var h := if key(s[0]) == k then one else [];
    assert one[0] == s[0] && one[1..] == [];
    assert WithKey(one, key, k) == h + WithKey([], key, k);
    assert h + [] == h;
  }

  lemma SeqAssoc<T>(a: seq<T>, b: seq<T>, c: seq<T>)
    ensures a + (b + c) == (a + b) + c
  {
  }

  /** The step of `InsertWithKey` where `x` goes in front of `s`, whose keys are all below `key(x)`. */
  lemma InsertWithKeyBefore<T>(x: T, s: seq<T>, key: T -> real, k: real)
    requires s != [] && key(s[0]) < key(x)
    requires forall i :: 0 <= i < |s| ==> key(s[i]) <= key(s[0])
    ensures WithKey(Insert(x, s, key), key, k) == WithKey(s, key, k) + WithKey([x], key, k)
  {
    var u := Insert(x, s, key);
    assert u[0] == x && u[1..] == s;
    WithKeyHead(u, key, k);
    var h := WithKey([x], key, k);
    var w := WithKey(s, key, k);
    if k == key(x) {
      forall i | 0 <= i < |s| ensures key(s[i]) != k {
        assert key(s[i]) <= key(s[0]);
      }
      WithKeyNone(s, key, k);
      assert h + w == h && w + h == h;
    } else {
      assert [x][1..] == [];
      assert h == [];
      assert h + w == w && w + h == w;
    }
  }



  /**
   * The sort's result is ordered, is a permutation of its input, and is stable: for every
   * key value, the elements carrying it appear in the same order as in the input.
   */
  lemma {:induction false} SortDescCorrect<T>(s: seq<T>, key: T -> real)
    ensures SortedDesc(SortDesc(s, key), key)
    ensures multiset(SortDesc(s, key)) == multiset(s)
    ensures |SortDesc(s, key)| == |s|
    ensures forall k :: WithKey(SortDesc(s, key), key, k) == WithKey(s, key, k)
  {
    if s != [] {
      var p := s[..|s| - 1];
      var x := s[|s| - 1];
      SortDescCorrect(p, key);
      InsertSorted(x, SortDesc(p, key), key);
      InsertPermutes(x, SortDesc(p, key), key);
      assert s == p + [x];
      forall k ensures WithKey(SortDesc(s, key), key, k) == WithKey(s, key, k) {
        InsertWithKey(x, SortDesc(p, key), key, k);
        WithKeyAppend(p, [x], key, k);
      }
    }
    assert |SortDesc(s, key)| == |multiset(SortDesc(s, key))|;
  }

  /**
   * Taking the first `n` elements keeps, for every key value, a prefix of the elements
   * with that key: among ties the earliest are the ones kept.
   */
  lemma {:induction false} TakeKeepsEarliestTies<T>(s: seq<T>, n: nat, key: T -> real, k: real)
    ensures WithKey(Take(s, n), key, k) <= WithKey(s, key, k)
  {
    if n <= |s| {
      assert s == s[..n] + s[n..];
      WithKeyAppend(s[..n], s[n..], key, k);
      var a, b := WithKey(s[..n], key, k), WithKey(s[n..], key, k);
      assert a <= a + b;
    } else {
      var a := WithKey(s, key, k);
      assert a <= a;
    }
  }
}
