/** Sorting a sequence by an integer key: the order Go's `sort.Sort`
    establishes for a `Less` that compares keys.  The sort here is insertion
    sort, which keeps elements with equal keys in their input order. */
module KeySort {
  /** The keys of the elements, in order. */
  function Keys<T>(s: seq<T>, key: T -> int): (r: seq<int>)
    ensures |r| == |s| && forall i :: 0 <= i < |s| ==> r[i] == key(s[i])
  {
    seq(|s|, i requires 0 <= i < |s| => key(s[i]))
  }

  predicate SortedBy<T>(s: seq<T>, key: T -> int) {
    forall i, j :: 0 <= i < j < |s| ==> key(s[i]) <= key(s[j])
  }

  lemma KeysCons<T>(x: T, s: seq<T>, key: T -> int)
    ensures Keys([x] + s, key) == [key(x)] + Keys(s, key)
  {
  }

  /** `x` placed before the first element whose key is not smaller. */
  function Insert<T>(x: T, s: seq<T>, key: T -> int): (r: seq<T>)
    ensures |r| == |s| + 1
    ensures multiset(r) == multiset(s) + multiset{x}
    decreases |s|
  {
    if |s| == 0 then [x]
    else if key(x) <= key(s[0]) then [x] + s
    else
      assert s == [s[0]] + s[1..];
      [s[0]] + Insert(x, s[1..], key)
  }

  /** Inserting into a sorted sequence keeps it sorted. */
  lemma {:induction false} InsertSorted<T>(x: T, s: seq<T>, key: T -> int)
    requires SortedBy(s, key)
    ensures SortedBy(Insert(x, s, key), key)
    decreases |s|
  {
    if |s| > 0 && key(x) > key(s[0]) {
      var rest := Insert(x, s[1..], key);
      InsertSorted(x, s[1..], key);
      forall j | 0 <= j < |rest| ensures key(s[0]) <= key(rest[j]) {
        assert rest[j] in multiset(rest);
        if rest[j] != x {
          assert rest[j] in multiset(s[1..]);
          var k :| 0 <= k < |s[1..]| && s[1..][k] == rest[j];
          assert s[k + 1] == rest[j];
        }
      }
      var r := [s[0]] + rest;
      forall a, b | 0 <= a < b < |r| ensures key(r[a]) <= key(r[b]) {
        if a > 0 { assert r[a] == rest[a - 1] && r[b] == rest[b - 1]; }
        else { assert r[b] == rest[b - 1]; }
      }
    }
  }

  /** The keys after inserting are the keys before and the key of `x`. */
  lemma {:induction false} InsertKeys<T>(x: T, s: seq<T>, key: T -> int)
    ensures multiset(Keys(Insert(x, s, key), key)) == multiset(Keys(s, key)) + multiset{key(x)}
    decreases |s|
  {
    if |s| > 0 {
      if key(x) <= key(s[0]) {
        KeysCons(x, s, key);
      } else {
        var rest := Insert(x, s[1..], key);
        InsertKeys(x, s[1..], key);
        assert s == [s[0]] + s[1..];
        KeysCons(s[0], s[1..], key);
        KeysCons(s[0], rest, key);
      }
    }
  }

  /** Inserting the head into the sorted tail sorts the whole sequence. */
  lemma SortStep<T>(s: seq<T>, sorted: seq<T>, key: T -> int)
    requires |s| > 0 && SortedBy(sorted, key)
    requires multiset(sorted) == multiset(s[1..])
    requires multiset(Keys(sorted, key)) == multiset(Keys(s[1..], key))
    ensures SortedBy(Insert(s[0], sorted, key), key)
    ensures multiset(Insert(s[0], sorted, key)) == multiset(s)
    ensures multiset(Keys(Insert(s[0], sorted, key), key)) == multiset(Keys(s, key))
  {
    assert s == [s[0]] + s[1..];
    InsertSorted(s[0], sorted, key);
    InsertKeys(s[0], sorted, key);
    KeysCons(s[0], s[1..], key);
  }

  /** Insertion sort by key. */
  function SortBy<T>(s: seq<T>, key: T -> int): (r: seq<T>)
    ensures |r| == |s|
    ensures SortedBy(r, key)
    ensures multiset(r) == multiset(s)
    ensures multiset(Keys(r, key)) == multiset(Keys(s, key))
    decreases |s|
  {
    if |s| == 0 then []
    else
      var sorted := SortBy(s[1..], key);
      SortStep(s, sorted, key);
      Insert(s[0], sorted, key)
  }

  /** Two equal entries at different places count twice. */
  lemma RepeatedCountsTwice(s: seq<int>, i: nat, j: nat)
    requires i < j < |s| && s[i] == s[j]
    ensures multiset(s)[s[i]] >= 2
  {
    assert s == s[..j] + [s[j]] + s[j + 1..];
    assert s[i] in multiset(s[..j]) by { assert s[..j][i] == s[i]; }
  }

  /** Entries that differ pairwise count at most once. */
  lemma {:induction false} DistinctCountsOnce(s: seq<int>, v: int)
    requires forall i, j :: 0 <= i < j < |s| ==> s[i] != s[j]
    ensures multiset(s)[v] <= 1
    decreases |s|
  {
    if |s| > 0 {
      var init := s[..|s| - 1];
      assert s == init + [s[|s| - 1]];
      DistinctCountsOnce(init, v);
      if v == s[|s| - 1] {
        assert v !in init by {
          forall i | 0 <= i < |init| ensures init[i] != v { assert init[i] == s[i]; }
        }
      }
    }
  }

  /** Sorted distinct keys below the length are exactly the positions. */
  lemma {:induction false} IncreasingKeysArePositions(keys: seq<int>)
    requires forall i, j :: 0 <= i < j < |keys| ==> keys[i] < keys[j]
    requires forall i :: 0 <= i < |keys| ==> 0 <= keys[i] < |keys|
    ensures forall i :: 0 <= i < |keys| ==> keys[i] == i
  {
    forall i | 0 <= i < |keys| ensures keys[i] == i {
      AtLeastPosition(keys, i);
      AtMostPosition(keys, i);
    }
  }

  lemma {:induction false} AtLeastPosition(keys: seq<int>, i: nat)
    requires forall a, b :: 0 <= a < b < |keys| ==> keys[a] < keys[b]
    requires forall a :: 0 <= a < |keys| ==> 0 <= keys[a]
    requires i < |keys|
    ensures keys[i] >= i
  {
    if i > 0 { AtLeastPosition(keys, i - 1); }
  }

  lemma {:induction false} AtMostPosition(keys: seq<int>, i: nat)
    requires forall a, b :: 0 <= a < b < |keys| ==> keys[a] < keys[b]
    requires forall a :: 0 <= a < |keys| ==> keys[a] < |keys|
    requires i < |keys|
    ensures keys[i] <= i
    decreases |keys| - i
  {
    if i < |keys| - 1 {
      AtMostPosition(keys, i + 1);
      assert keys[i + 1] <= i + 1;
    }
  }

  /** Sorting by keys that differ pairwise and fill the positions puts each element at its key. */
  lemma SortedByDistinctPositions<T>(s: seq<T>, key: T -> int)
    requires forall i, j :: 0 <= i < j < |s| ==> key(s[i]) != key(s[j])
    requires forall i :: 0 <= i < |s| ==> 0 <= key(s[i]) < |s|
    ensures forall i :: 0 <= i < |s| ==> key(SortBy(s, key)[i]) == i
  {
    var r := SortBy(s, key);
    var ks, kr := Keys(s, key), Keys(r, key);
    forall i, j | 0 <= i < j < |kr| ensures kr[i] < kr[j] {
      if kr[i] == kr[j] {
        RepeatedCountsTwice(kr, i, j);
        DistinctCountsOnce(ks, kr[i]);
        assert false;
      }
    }
    forall i | 0 <= i < |kr| ensures 0 <= kr[i] < |kr| {
      assert kr[i] in multiset(ks);
      var a :| 0 <= a < |ks| && ks[a] == kr[i];
    }
    IncreasingKeysArePositions(kr);
  }
}
