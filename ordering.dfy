/**
 * Ordering by a natural-number key with removal of redundancies: the
 * canonical ordering that the join mesh applies to faces (by global face
 * number), to vertices (by global vertex number) and to edges (by their
 * couple of vertices).  Of several entries with the same key, the first one
 * met in the input is kept.
 */
module Ordering {

  /** The keys of s increase strictly: no key appears twice. */
  predicate StrictlySortedBy<T>(key: T -> nat, s: seq<T>)
  {
    forall i, j :: 0 <= i < j < |s| ==> key(s[i]) < key(s[j])
  }

  /** Some entry of s has key k. */
  ghost predicate HasKey<T(!new)>(key: T -> nat, k: nat, s: seq<T>)
  {
    exists y :: y in s && key(y) == k
  }

  /** Two entries of s with the same key are the same entry. */
  ghost predicate KeyDetermines<T>(key: T -> nat, s: seq<T>)
  {
    forall i, j :: 0 <= i < |s| && 0 <= j < |s| && key(s[i]) == key(s[j]) ==> s[i] == s[j]
  }

  /** Position of the first entry of s with key k. */
  function FirstWithKey<T(!new)>(key: T -> nat, k: nat, s: seq<T>): (i: nat)
    requires HasKey(key, k, s)
    ensures i < |s| && key(s[i]) == k
    ensures forall j :: 0 <= j < i ==> key(s[j]) != k
  {
    if key(s[0]) == k then 0
    else
      assert HasKey(key, k, s[1..]) by {
        var y :| y in s && key(y) == k;
        assert y in s[1..];
      }
      1 + FirstWithKey(key, k, s[1..])
  }

  /** The first entry with a key is the one before which no entry has it. */
  lemma FirstWithKeyAt<T(!new)>(key: T -> nat, k: nat, s: seq<T>, i: nat)
    requires i < |s| && key(s[i]) == k
    requires forall j :: 0 <= j < i ==> key(s[j]) != k
    ensures HasKey(key, k, s) && FirstWithKey(key, k, s) == i
  {
    assert s[i] in s;
  }

  /** Position of x in s. */
  function IndexOf<T(==)>(s: seq<T>, x: T): (i: nat)
    requires x in s
    ensures i < |s| && s[i] == x
    ensures forall j :: 0 <= j < i ==> s[j] != x
  {
    if s[0] == x then 0 else 1 + IndexOf(s[1..], x)
  }

  /** In a sequence without repetition, the position of an entry is where it sits. */
  lemma IndexOfAt<T>(s: seq<T>, i: int)
    requires 0 <= i < |s|
    requires forall p, q :: 0 <= p < q < |s| ==> s[p] != s[q]
    ensures IndexOf(s, s[i]) == i
  {
  }

  /** In a strictly ordered sequence, the first entry with the key of s[i] is s[i]. */
  lemma SortedKeyPosition<T(!new)>(key: T -> nat, s: seq<T>, i: int)
    requires StrictlySortedBy(key, s) && 0 <= i < |s|
    ensures HasKey(key, key(s[i]), s) && FirstWithKey(key, key(s[i]), s) == i
  {
    FirstWithKeyAt(key, key(s[i]), s, i);
  }

  /** An entry whose key is below every key of a sorted s can be put in front of it. */
  lemma ConsSorted<T(!new)>(key: T -> nat, x: T, s: seq<T>)
    requires StrictlySortedBy(key, s)
    requires forall y :: y in s ==> key(x) < key(y)
    ensures StrictlySortedBy(key, [x] + s)
  {
    var r := [x] + s;
    forall i, j | 0 <= i < j < |r| ensures key(r[i]) < key(r[j]) {
      assert r[j] == s[j - 1] && s[j - 1] in s;
      if i > 0 { assert r[i] == s[i - 1]; }
    }
  }

  /** Inserts x at its place in s, unless an entry with the same key is present. */
  function InsertBy<T(==,!new)>(key: T -> nat, x: T, s: seq<T>): (r: seq<T>)
    requires StrictlySortedBy(key, s)
    ensures StrictlySortedBy(key, r)
    ensures forall y :: y in r <==> y in s || (y == x && !HasKey(key, key(x), s))
  {
    if s == [] then [x]
    else if key(x) < key(s[0]) then
      assert forall y :: y in s ==> key(x) < key(y) by {
        forall y | y in s ensures key(x) < key(y) {
          var i :| 0 <= i < |s| && s[i] == y;
          assert i == 0 || key(s[0]) < key(s[i]);
        }
      }
      ConsSorted(key, x, s);
      [x] + s
    else if key(x) == key(s[0]) then
      assert s[0] in s;
      s
    else
      var tail := s[1..];
      var r0 := InsertBy(key, x, tail);
      assert HasKey(key, key(x), s) <==> HasKey(key, key(x), tail) by {
        assert s == [s[0]] + tail;
      }
      assert forall y :: y in r0 ==> key(s[0]) < key(y) by {
        forall y | y in r0 ensures key(s[0]) < key(y) {
          if y != x {
            var i :| 0 <= i < |tail| && tail[i] == y;
            assert s[i + 1] == y;
          }
        }
      }
      ConsSorted(key, s[0], r0);
      assert s == [s[0]] + tail;
      [s[0]] + r0
  }

  /** Inserting x adds the key of x and nothing else. */
  lemma InsertByKeys<T(!new)>(key: T -> nat, x: T, s: seq<T>)
    requires StrictlySortedBy(key, s)
    ensures forall k :: HasKey(key, k, InsertBy(key, x, s)) <==> HasKey(key, k, s) || k == key(x)
  {
    var r := InsertBy(key, x, s);
    forall k | k == key(x) ensures HasKey(key, k, r) {
      if !HasKey(key, k, s) { assert x in r; }
    }
  }

  /** Orders s by key and keeps, for each key, the first entry of s that carries it. */
  function SortDedup<T(==,!new)>(key: T -> nat, s: seq<T>): (r: seq<T>)
    ensures StrictlySortedBy(key, r)
    ensures forall y :: y in r ==> y in s
    ensures forall k :: HasKey(key, k, r) <==> HasKey(key, k, s)
  {
    if s == [] then []
    else
      var front := s[..|s| - 1];
      var r0 := SortDedup(key, front);
      InsertByKeys(key, s[|s| - 1], r0);
      assert s == front + [s[|s| - 1]];
      InsertBy(key, s[|s| - 1], r0)
  }

  /** The entry kept for a key is the first entry of the input with that key. */
  lemma {:induction false} SortDedupKeepsFirst<T(!new)>(key: T -> nat, s: seq<T>, y: T)
    requires y in SortDedup(key, s)
    ensures HasKey(key, key(y), s)
    ensures y == s[FirstWithKey(key, key(y), s)]
  {
    var k := key(y);
    var front, x := s[..|s| - 1], s[|s| - 1];
    assert s == front + [x];
    var r0 := SortDedup(key, front);
    if y in r0 {
      SortDedupKeepsFirst(key, front, y);
      var i := FirstWithKey(key, k, front);
      assert s[i] == front[i];
      assert forall j :: 0 <= j < i ==> s[j] == front[j];
      FirstWithKeyAt(key, k, s, i);
    } else {
      assert y == x && !HasKey(key, k, r0);
      assert !HasKey(key, k, front);
      assert forall j :: 0 <= j < |s| - 1 ==> s[j] in front;
      FirstWithKeyAt(key, k, s, |s| - 1);
    }
  }

  /** Inserting an entry whose key exceeds every key of s appends it. */
  lemma {:induction false} InsertByLast<T(!new)>(key: T -> nat, x: T, s: seq<T>)
    requires StrictlySortedBy(key, s)
    requires forall i :: 0 <= i < |s| ==> key(s[i]) < key(x)
    ensures InsertBy(key, x, s) == s + [x]
  {
    if s != [] {
      var tail := s[1..];
      assert StrictlySortedBy(key, tail);
      assert forall i :: 0 <= i < |tail| ==> key(tail[i]) < key(x) by {
        forall i | 0 <= i < |tail| ensures key(tail[i]) < key(x) {
          assert tail[i] == s[i + 1];
        }
      }
      InsertByLast(key, x, tail);
      assert key(s[0]) < key(x);
      assert InsertBy(key, x, s) == [s[0]] + InsertBy(key, x, tail);
      assert [s[0]] + (tail + [x]) == s + [x];
    }
  }

  /** Ordering an already ordered, redundancy-free sequence changes nothing. */
  lemma {:induction false} SortDedupSorted<T(!new)>(key: T -> nat, s: seq<T>)
    requires StrictlySortedBy(key, s)
    ensures SortDedup(key, s) == s
  {
    if s != [] {
      var front := s[..|s| - 1];
      assert StrictlySortedBy(key, front);
      SortDedupSorted(key, front);
      InsertByLast(key, s[|s| - 1], front);
      assert front + [s[|s| - 1]] == s;
    }
  }

  /** Two strictly ordered sequences with the same entries are equal. */
  lemma {:induction false} SortedUnique<T(!new)>(key: T -> nat, a: seq<T>, b: seq<T>)
    requires StrictlySortedBy(key, a) && StrictlySortedBy(key, b)
    requires forall y :: y in a <==> y in b
    ensures a == b
    decreases |a|
  {
    assert |b| == 0 || b[0] in a;
    if a != [] {
      assert a[0] in b;
      var i :| 0 <= i < |a| && a[i] == b[0];
      var j :| 0 <= j < |b| && b[j] == a[0];
      assert key(a[0]) <= key(a[i]);
      assert key(b[0]) <= key(b[j]);
      assert key(a[0]) == key(a[i]);
      assert a[0] == b[0];
      forall y ensures y in a[1..] <==> y in b[1..] {
        if y in a[1..] {
          var m :| 0 <= m < |a[1..]| && a[1..][m] == y;
          assert a[m + 1] == y && key(a[0]) < key(a[m + 1]);
          assert y in b;
          var n :| 0 <= n < |b| && b[n] == y;
          assert n != 0;
          assert b[1..][n - 1] == y;
        }
        if y in b[1..] {
          var m :| 0 <= m < |b[1..]| && b[1..][m] == y;
          assert b[m + 1] == y && key(b[0]) < key(b[m + 1]);
          assert y in a;
          var n :| 0 <= n < |a| && a[n] == y;
          assert n != 0;
          assert a[1..][n - 1] == y;
        }
      }
      SortedUnique(key, a[1..], b[1..]);
      assert a == [a[0]] + a[1..] && b == [b[0]] + b[1..];
    }
  }

  /**
   * When entries with equal keys are equal, the result of SortDedup depends
   * only on which entries occur: not on their order nor on their repetitions.
   */
  lemma SortDedupDeterministic<T(!new)>(key: T -> nat, s: seq<T>, t: seq<T>)
    requires KeyDetermines(key, s)
    requires forall y :: y in s <==> y in t
    ensures SortDedup(key, s) == SortDedup(key, t)
  {
    var rs, rt := SortDedup(key, s), SortDedup(key, t);
    forall y | y in rs ensures y in rt {
      assert HasKey(key, key(y), rs);
      var w :| w in s && key(w) == key(y);
      assert w in t;
      assert HasKey(key, key(y), t);
      var z :| z in rt && key(z) == key(y);
      SameKeySame(key, s, y, z);
    }
    forall y | y in rt ensures y in rs {
      assert HasKey(key, key(y), rt);
      var w :| w in t && key(w) == key(y);
      assert w in s;
      assert HasKey(key, key(y), s);
      var z :| z in rs && key(z) == key(y);
      SameKeySame(key, s, y, z);
    }
    SortedUnique(key, rs, rt);
  }

  /** Under KeyDetermines, two entries of s with equal keys are equal. */
  lemma SameKeySame<T>(key: T -> nat, s: seq<T>, y: T, z: T)
    requires KeyDetermines(key, s)
    requires y in s && z in s && key(y) == key(z)
    ensures y == z
  {
    var p :| 0 <= p < |s| && s[p] == y;
    var q :| 0 <= q < |s| && s[q] == z;
  }
}
