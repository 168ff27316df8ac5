/**
 * Ordered collections keyed by strings: the lexicographic order on paths
 * (and document ids) and the insert-or-replace and erase operations of an
 * ordered set or map, on a sequence kept strictly sorted by key.
 */
module Ordered {
  import opened Wrappers

  /** Lexicographic order on strings, by character code. */
  predicate Less(a: string, b: string)
    decreases |a|
  {
    if a == [] then b != []
    else if b == [] then false
    else if a[0] != b[0] then a[0] < b[0]
    else Less(a[1..], b[1..])
  }

  lemma {:induction false} LessIrreflexive(a: string)
    ensures !Less(a, a)
    decreases |a|
  {
    if a != [] {
      LessIrreflexive(a[1..]);
    }
  }

  lemma {:induction false} LessTransitive(a: string, b: string, c: string)
    requires Less(a, b) && Less(b, c)
    ensures Less(a, c)
    decreases |a|
  {
    if a != [] && b != [] && c != [] && a[0] == b[0] && b[0] == c[0] {
      LessTransitive(a[1..], b[1..], c[1..]);
    }
  }

  lemma {:induction false} LessTotal(a: string, b: string)
    requires a != b
    ensures Less(a, b) || Less(b, a)
    decreases |a|
  {
    if a != [] && b != [] && a[0] == b[0] {
      assert a == [a[0]] + a[1..] && b == [b[0]] + b[1..];
      LessTotal(a[1..], b[1..]);
    }
  }

  lemma {:induction false} LessAsymmetric(a: string, b: string)
    requires Less(a, b)
    ensures !Less(b, a)
  {
    if Less(b, a) {
      LessTransitive(a, b, a);
      LessIrreflexive(a);
    }
  }

  /** Strictly increasing keys: the shape of an ordered set (or map) keyed by `key`. */
  ghost predicate SortedBy<T>(s: seq<T>, key: T -> string) {
    forall i, j :: 0 <= i < j < |s| ==> Less(key(s[i]), key(s[j]))
  }

  /** Whether some element has key `k`. */
  predicate HasKey<T>(s: seq<T>, key: T -> string, k: string) {
    exists i :: 0 <= i < |s| && key(s[i]) == k
  }

  /**
   * Insert-or-replace: the element with `x`'s key, if any, is replaced by `x`
   * in place; otherwise `x` goes before the first larger key.
   */
  function Upsert<T>(s: seq<T>, key: T -> string, x: T): seq<T>
  {
    if s == [] then [x]
    else if key(s[0]) == key(x) then [x] + s[1..]
    else if Less(key(x), key(s[0])) then [x] + s
    else [s[0]] + Upsert(s[1..], key, x)
  }

  /** Removes the element with key `k`, if any. */
  function Erase<T>(s: seq<T>, key: T -> string, k: string): seq<T>
  {
    if s == [] then []
    else if key(s[0]) == k then s[1..]
    else [s[0]] + Erase(s[1..], key, k)
  }

  lemma SortedTail<T>(s: seq<T>, key: T -> string)
    requires s != [] && SortedBy(s, key)
    ensures SortedBy(s[1..], key)
  {
    forall i, j | 0 <= i < j < |s[1..]| ensures Less(key(s[1..][i]), key(s[1..][j])) {
      assert s[1..][i] == s[i + 1] && s[1..][j] == s[j + 1];
    }
  }

  /** In a sorted sequence no two elements share a key. */
  lemma SortedKeysDistinct<T>(s: seq<T>, key: T -> string, i: int, j: int)
    requires SortedBy(s, key) && 0 <= i < |s| && 0 <= j < |s| && i != j
    ensures key(s[i]) != key(s[j])
  {
    if i < j {
      LessIrreflexive(key(s[i]));
    } else {
      LessIrreflexive(key(s[j]));
    }
  }

  /** Membership after an insert-or-replace, one candidate element at a time. */
  lemma {:induction false} UpsertMember<T>(s: seq<T>, key: T -> string, x: T, y: T)
    requires SortedBy(s, key)
    ensures y in Upsert(s, key, x) <==> y == x || (y in s && key(y) != key(x))
    decreases |s|
  {
    if s != [] {
      assert s == [s[0]] + s[1..];
      if key(s[0]) == key(x) {
        if y in s[1..] {
          var i :| 0 <= i < |s[1..]| && s[1..][i] == y;
          SortedKeysDistinct(s, key, 0, i + 1);
        }
      } else if Less(key(x), key(s[0])) {
        if y in s && key(y) == key(x) {
          var i :| 0 <= i < |s| && s[i] == y;
          if i > 0 {
            LessTransitive(key(x), key(s[0]), key(y));
          }
          LessIrreflexive(key(x));
        }
      } else {
        SortedTail(s, key);
        UpsertMember(s[1..], key, x, y);
      }
    }
  }

  /** Insert-or-replace keeps the sequence strictly sorted. */
  lemma {:induction false} UpsertSorted<T>(s: seq<T>, key: T -> string, x: T)
    requires SortedBy(s, key)
    ensures SortedBy(Upsert(s, key, x), key)
    decreases |s|
  {
    if s != [] {
      var r := Upsert(s, key, x);
      if key(s[0]) == key(x) {
        forall i, j | 0 <= i < j < |r| ensures Less(key(r[i]), key(r[j])) {
          assert i > 0 ==> r[i] == s[i];
          assert r[j] == s[j];
        }
      } else if Less(key(x), key(s[0])) {
        forall i, j | 0 <= i < j < |r| ensures Less(key(r[i]), key(r[j])) {
          assert r[j] == s[j - 1];
          if i == 0 && j > 1 {
            LessTransitive(key(x), key(s[0]), key(s[j - 1]));
          } else if i > 0 {
            assert r[i] == s[i - 1];
          }
        }
      } else {
        SortedTail(s, key);
        UpsertSorted(s[1..], key, x);
        LessTotal(key(x), key(s[0]));
        var t := Upsert(s[1..], key, x);
        assert r == [s[0]] + t;
        forall i, j | 0 <= i < j < |r| ensures Less(key(r[i]), key(r[j])) {
          if i == 0 {
            assert r[j] == t[j - 1] && t[j - 1] in t;
            UpsertMember(s[1..], key, x, r[j]);
            if r[j] != x {
              var m :| 0 <= m < |s[1..]| && s[1..][m] == r[j];
              assert s[m + 1] == r[j];
            }
          } else {
            assert r[i] == t[i - 1] && r[j] == t[j - 1];
          }
        }
      }
    }
  }

  lemma {:induction false} EraseMembers<T>(s: seq<T>, key: T -> string, k: string)
    requires SortedBy(s, key)
    ensures forall y :: y in Erase(s, key, k) <==> y in s && key(y) != k
    ensures forall y :: y in Erase(s, key, k) ==> y in s
    decreases |s|
  {
    if s != [] {
      if key(s[0]) == k {
        forall y | y in s[1..] ensures key(y) != k {
          var i :| 0 <= i < |s[1..]| && s[1..][i] == y;
          assert s[i + 1] == y;
          SortedKeysDistinct(s, key, 0, i + 1);
        }
        assert s == [s[0]] + s[1..];
      } else {
        SortedTail(s, key);
        EraseMembers(s[1..], key, k);
        assert s == [s[0]] + s[1..];
      }
    }
  }

  /** Putting an element below every key of a sorted sequence in front keeps it sorted. */
  lemma ConsSorted<T>(x: T, t: seq<T>, key: T -> string)
    requires SortedBy(t, key)
    requires forall y :: y in t ==> Less(key(x), key(y))
    ensures SortedBy([x] + t, key)
  {
    var r := [x] + t;
    forall i, j | 0 <= i < j < |r| ensures Less(key(r[i]), key(r[j])) {
      assert r[j] == t[j - 1];
      if i > 0 {
        assert r[i] == t[i - 1];
      }
    }
  }

  lemma {:induction false} EraseSorted<T>(s: seq<T>, key: T -> string, k: string)
    requires SortedBy(s, key)
    ensures SortedBy(Erase(s, key, k), key)
    decreases |s|
  {
    if s != [] {
      var r := Erase(s, key, k);
      if key(s[0]) == k {
        SortedTail(s, key);
      } else {
        SortedTail(s, key);
        EraseSorted(s[1..], key, k);
        EraseMembers(s[1..], key, k);
        var t := Erase(s[1..], key, k);
        forall y | y in t ensures Less(key(s[0]), key(y)) {
          var m :| 0 <= m < |s[1..]| && s[1..][m] == y;
          assert s[m + 1] == y;
        }
        ConsSorted(s[0], t, key);
      }
    }
  }

  /** Erasing a key that is not there changes nothing. */
  lemma {:induction false} EraseAbsent<T>(s: seq<T>, key: T -> string, k: string)
    requires !HasKey(s, key, k)
    ensures Erase(s, key, k) == s
    decreases |s|
  {
    if s != [] {
      assert key(s[0]) != k;
      forall i | 0 <= i < |s[1..]| ensures key(s[1..][i]) != k {
        assert s[1..][i] == s[i + 1];
      }
      EraseAbsent(s[1..], key, k);
      assert s == [s[0]] + s[1..];
    }
  }

  /**
   * After an insert-or-replace of `x` exactly one element has `x`'s key, and
   * it is `x`; every element with another key is the one that was there.
   */
  lemma UpsertSpec<T>(s: seq<T>, key: T -> string, x: T)
    requires SortedBy(s, key)
    ensures SortedBy(Upsert(s, key, x), key)
    ensures x in Upsert(s, key, x)
    ensures forall y :: y in Upsert(s, key, x) && key(y) == key(x) ==> y == x
    ensures forall y :: key(y) != key(x) ==> (y in Upsert(s, key, x) <==> y in s)
    ensures forall i, j :: 0 <= i < |Upsert(s, key, x)| && 0 <= j < |Upsert(s, key, x)| && i != j
              ==> key(Upsert(s, key, x)[i]) != key(Upsert(s, key, x)[j])
  {
    UpsertSorted(s, key, x);
    UpsertMember(s, key, x, x);
    forall y ensures y in Upsert(s, key, x) && key(y) == key(x) ==> y == x {
      UpsertMember(s, key, x, y);
    }
    forall y | key(y) != key(x) ensures y in Upsert(s, key, x) <==> y in s {
      UpsertMember(s, key, x, y);
    }
    var r := Upsert(s, key, x);
    forall i, j | 0 <= i < |r| && 0 <= j < |r| && i != j ensures key(r[i]) != key(r[j]) {
      SortedKeysDistinct(r, key, i, j);
    }
  }

  /**
   * After an erase no element has key `k`, every element with another key is
   * the one that was there, and erasing an absent key is a no-op.
   */
  lemma EraseSpec<T>(s: seq<T>, key: T -> string, k: string)
    requires SortedBy(s, key)
    ensures SortedBy(Erase(s, key, k), key)
    ensures !HasKey(Erase(s, key, k), key, k)
    ensures forall y :: key(y) != k ==> (y in Erase(s, key, k) <==> y in s)
    ensures !HasKey(s, key, k) ==> Erase(s, key, k) == s
  {
    EraseSorted(s, key, k);
    EraseMembers(s, key, k);
    var r := Erase(s, key, k);
    forall i | 0 <= i < |r| ensures key(r[i]) != k {
      assert r[i] in r;
    }
    if !HasKey(s, key, k) {
      EraseAbsent(s, key, k);
    }
  }
  /** Inserting the same element twice is the same as inserting it once. */
  lemma {:induction false} UpsertIdempotent<T>(s: seq<T>, key: T -> string, x: T)
    ensures Upsert(Upsert(s, key, x), key, x) == Upsert(s, key, x)
    decreases |s|
  {
    if s != [] && key(s[0]) != key(x) && !Less(key(x), key(s[0])) {
      var t := Upsert(s[1..], key, x);
      assert ([s[0]] + t)[1..] == t;
      UpsertIdempotent(s[1..], key, x);
    }
  }

  /**
   * Erasing the key and then inserting is the same as inserting with
   * replacement: the two ways an ordered set takes a new element.
   */
  lemma {:induction false} UpsertAfterErase<T>(s: seq<T>, key: T -> string, x: T)
    requires SortedBy(s, key)
    ensures Upsert(Erase(s, key, key(x)), key, x) == Upsert(s, key, x)
    decreases |s|
  {
    if s != [] {
      if key(s[0]) == key(x) {
        if |s| > 1 {
          assert Less(key(s[0]), key(s[1]));
          LessIrreflexive(key(x));
          assert s[1..][0] == s[1];
        }
      } else if Less(key(x), key(s[0])) {
        forall i | 0 <= i < |s[1..]| ensures key(s[1..][i]) != key(x) {
          assert s[1..][i] == s[i + 1];
          assert Less(key(s[0]), key(s[i + 1]));
          LessTransitive(key(x), key(s[0]), key(s[i + 1]));
          LessIrreflexive(key(x));
        }
        EraseAbsent(s[1..], key, key(x));
        assert s == [s[0]] + s[1..];
      } else {
        SortedTail(s, key);
        UpsertAfterErase(s[1..], key, x);
        var e := Erase(s[1..], key, key(x));
        assert ([s[0]] + e)[1..] == e;
      }
    }
  }

  /** The element with key `k`, if any: what a map lookup by key returns. */
  function Lookup<T>(s: seq<T>, key: T -> string, k: string): (r: Option<T>)
    ensures r.Some? ==> r.value in s && key(r.value) == k
  {
    if s == [] then None
    else if key(s[0]) == k then Some(s[0])
    else Lookup(s[1..], key, k)
  }

  lemma {:induction false} LookupAbsent<T>(s: seq<T>, key: T -> string, k: string)
    requires !HasKey(s, key, k)
    ensures Lookup(s, key, k) == None
    decreases |s|
  {
    if s != [] {
      assert key(s[0]) != k;
      forall i | 0 <= i < |s[1..]| ensures key(s[1..][i]) != k {
        assert s[1..][i] == s[i + 1];
      }
      LookupAbsent(s[1..], key, k);
    }
  }

  /** In a sorted sequence, the first key occurs nowhere after it. */
  lemma HeadKeyUnique<T>(s: seq<T>, key: T -> string)
    requires s != [] && SortedBy(s, key)
    ensures !HasKey(s[1..], key, key(s[0]))
  {
    forall i | 0 <= i < |s[1..]| ensures key(s[1..][i]) != key(s[0]) {
      assert s[1..][i] == s[i + 1];
      assert Less(key(s[0]), key(s[i + 1]));
      LessIrreflexive(key(s[0]));
    }
  }

  /** Insert-or-replace is a map update: `x` under its key, every other key unchanged. */
  lemma {:induction false} LookupUpsert<T>(s: seq<T>, key: T -> string, x: T, k: string)
    requires SortedBy(s, key)
    ensures Lookup(Upsert(s, key, x), key, k) == if k == key(x) then Some(x) else Lookup(s, key, k)
    decreases |s|
  {
    if s != [] {
      if key(s[0]) == key(x) {
        assert ([x] + s[1..])[1..] == s[1..];
      } else if Less(key(x), key(s[0])) {
        assert ([x] + s)[1..] == s;
      } else {
        var t := Upsert(s[1..], key, x);
        assert ([s[0]] + t)[1..] == t;
        SortedTail(s, key);
        LookupUpsert(s[1..], key, x, k);
      }
    }
  }

  /** Erasing is a map removal: nothing under `k`, every other key unchanged. */
  lemma {:induction false} LookupErase<T>(s: seq<T>, key: T -> string, k: string, k': string)
    requires SortedBy(s, key)
    ensures Lookup(Erase(s, key, k), key, k') == if k' == k then None else Lookup(s, key, k')
    decreases |s|
  {
    if s != [] {
      if key(s[0]) == k {
        if k' == k {
          HeadKeyUnique(s, key);
          LookupAbsent(s[1..], key, k);
        }
      } else {
        var t := Erase(s[1..], key, k);
        assert ([s[0]] + t)[1..] == t;
        SortedTail(s, key);
        LookupErase(s[1..], key, k, k');
      }
    }
  }
}
