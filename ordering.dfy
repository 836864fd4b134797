/**
 * `list.sort(key=..., reverse=...)` as the scraper uses it. Every sort key in
 * the program is a tuple of at most an integer, a string and a boolean, so the
 * keys are `SortKey` values compared the way Python compares such tuples.
 */
module Ordering {
  import opened Text

  /** A tuple key `(num, text, flag)`; a key with fewer parts fills the rest with constants. */
  datatype SortKey = SortKey(num: int, text: string, flag: bool)

  /** Python's `<` on the tuple: lexicographic, with `False < True`. */
  predicate KeyLess(a: SortKey, b: SortKey) {
    || a.num < b.num
    || (a.num == b.num && StrLess(a.text, b.text))
    || (a.num == b.num && a.text == b.text && !a.flag && b.flag)
  }

  lemma KeyLessIrreflexive(a: SortKey)
    ensures !KeyLess(a, a)
  {
    StrLessIrreflexive(a.text);
  }

  lemma KeyLessAsymmetric(a: SortKey, b: SortKey)
    requires KeyLess(a, b)
    ensures !KeyLess(b, a)
  {
    if a.num == b.num && StrLess(a.text, b.text) {
      StrLessAsymmetric(a.text, b.text);
    } else if a.num == b.num && a.text == b.text {
      StrLessIrreflexive(a.text);
    }
  }

  lemma KeyLessTransitive(a: SortKey, b: SortKey, c: SortKey)
    requires KeyLess(a, b) && KeyLess(b, c)
    ensures KeyLess(a, c)
  {
    if a.num == b.num == c.num && StrLess(a.text, b.text) && StrLess(b.text, c.text) {
      StrLessTransitive(a.text, b.text, c.text);
    }
  }

  /** Two different keys are ordered one way or the other. */
  lemma KeyLessTotal(a: SortKey, b: SortKey)
    requires a != b
    ensures KeyLess(a, b) || KeyLess(b, a)
  {
    if a.num == b.num && a.text != b.text {
      StrLessTotal(a.text, b.text);
    }
  }

  /** `x` must come strictly before `y` in `sort(key=key, reverse=desc)`. */
  predicate Before<T>(key: T -> SortKey, desc: bool, x: T, y: T) {
    if desc then KeyLess(key(y), key(x)) else KeyLess(key(x), key(y))
  }

  /** No element is placed after one it must precede. */
  predicate SortedBy<T>(s: seq<T>, key: T -> SortKey, desc: bool) {
    forall i, j :: 0 <= i < j < |s| ==> !Before(key, desc, s[j], s[i])
  }

  /** "Not less" (that is, at most) is transitive too. */
  lemma NotKeyLessTransitive(a: SortKey, b: SortKey, c: SortKey)
    requires !KeyLess(b, a) && !KeyLess(c, b)
    ensures !KeyLess(c, a)
  {
    if a != b && b != c {
      KeyLessTotal(a, b);
      KeyLessTotal(b, c);
      KeyLessTransitive(a, b, c);
      KeyLessAsymmetric(a, c);
    }
  }

  lemma NotBeforeTransitive<T>(key: T -> SortKey, desc: bool, x: T, y: T, z: T)
    requires !Before(key, desc, y, x) && !Before(key, desc, z, y)
    ensures !Before(key, desc, z, x)
  {
    if desc {
      NotKeyLessTransitive(key(z), key(y), key(x));
    } else {
      NotKeyLessTransitive(key(x), key(y), key(z));
    }
  }

  /** Places `x` after every element of `r` that it need not precede (keeps equal keys in order). */
  function Insert<T>(r: seq<T>, x: T, key: T -> SortKey, desc: bool): (r': seq<T>)
    ensures multiset(r') == multiset(r) + multiset{x}
  {
    if r == [] then [x]
    else if Before(key, desc, x, r[|r| - 1]) then
      assert r == r[..|r| - 1] + [r[|r| - 1]];
      Insert(r[..|r| - 1], x, key, desc) + [r[|r| - 1]]
    else r + [x]
  }

  /** The list `s` after `s.sort(key=key, reverse=desc)`: a stable insertion sort. */
  function SortBy<T>(s: seq<T>, key: T -> SortKey, desc: bool): (r: seq<T>)
    ensures multiset(r) == multiset(s)
  {
    if s == [] then []
    else
      assert s == s[..|s| - 1] + [s[|s| - 1]];
      Insert(SortBy(s[..|s| - 1], key, desc), s[|s| - 1], key, desc)
  }

  lemma {:induction false} InsertSorted<T>(r: seq<T>, x: T, key: T -> SortKey, desc: bool)
    requires SortedBy(r, key, desc)
    ensures SortedBy(Insert(r, x, key, desc), key, desc)
  {
    if r == [] {
    } else {
      var n := |r|;
      var last := r[n - 1];
      var r0 := r[..n - 1];
      assert forall k :: 0 <= k < |r0| ==> r0[k] == r[k];
      if Before(key, desc, x, last) {
        InsertSorted(r0, x, key, desc);
        var ins := Insert(r0, x, key, desc);
        InsertedBeforeLast(r0, x, last, key, desc);
        assert Insert(r, x, key, desc) == ins + [last];
        SortedSnoc(ins, last, key, desc);
      } else {
        forall i | 0 <= i < n
          ensures !Before(key, desc, x, r[i])
        {
          if i < n - 1 {
            NotBeforeTransitive(key, desc, r[i], last, x);
          }
        }
        SortedSnoc(r, x, key, desc);
      }
    }
  }

  /** What `last` need not precede, it still need not precede once `x` (which precedes it) is inserted. */
  lemma InsertedBeforeLast<T>(r0: seq<T>, x: T, last: T, key: T -> SortKey, desc: bool)
    requires Before(key, desc, x, last)
    requires forall k :: 0 <= k < |r0| ==> !Before(key, desc, last, r0[k])
    ensures forall i :: 0 <= i < |Insert(r0, x, key, desc)| ==> !Before(key, desc, last, Insert(r0, x, key, desc)[i])
  {
    var ins := Insert(r0, x, key, desc);
    forall i | 0 <= i < |ins|
      ensures !Before(key, desc, last, ins[i])
    {
      var e := ins[i];
      assert e in multiset(ins);
      if e == x {
        if desc { KeyLessAsymmetric(key(last), key(x)); }
        else { KeyLessAsymmetric(key(x), key(last)); }
      } else {
        assert e in multiset(r0);
        var k :| 0 <= k < |r0| && r0[k] == e;
      }
    }
  }

  /** Order depends only on the keys: a list with the same keys position by position is as sorted. */
  lemma SortedBySameKeys<T>(s: seq<T>, t: seq<T>, key: T -> SortKey, desc: bool)
    requires SortedBy(s, key, desc) && |s| == |t|
    requires forall i :: 0 <= i < |s| ==> key(t[i]) == key(s[i])
    ensures SortedBy(t, key, desc)
  {
    forall i, j | 0 <= i < j < |t| ensures !Before(key, desc, t[j], t[i]) {
      assert !Before(key, desc, s[j], s[i]);
    }
  }

  /** A sorted list stays sorted when an element none of its elements must follow goes last. */
  lemma SortedSnoc<T>(s: seq<T>, y: T, key: T -> SortKey, desc: bool)
    requires SortedBy(s, key, desc)
    requires forall i :: 0 <= i < |s| ==> !Before(key, desc, y, s[i])
    ensures SortedBy(s + [y], key, desc)
  {
    var t := s + [y];
    forall i, j | 0 <= i < j < |t| ensures !Before(key, desc, t[j], t[i]) {
      if j < |s| {
        assert t[i] == s[i] && t[j] == s[j];
      } else {
        assert t[i] == s[i];
      }
    }
  }

  /** Sorting leaves the list ordered by its key, and (above) a permutation of the input. */
  lemma {:induction false} SortBySorted<T>(s: seq<T>, key: T -> SortKey, desc: bool)
    ensures SortedBy(SortBy(s, key, desc), key, desc)
  {
    if s != [] {
      SortBySorted(s[..|s| - 1], key, desc);
      InsertSorted(SortBy(s[..|s| - 1], key, desc), s[|s| - 1], key, desc);
    }
  }

  /** The head of a sorted list must not be preceded by any of its elements. */
  lemma SortedHeadFirst<T>(a: seq<T>, e: T, key: T -> SortKey, desc: bool)
    requires SortedBy(a, key, desc) && e in a
    ensures !Before(key, desc, e, a[0])
  {
    var j :| 0 <= j < |a| && a[j] == e;
    if j == 0 {
      KeyLessIrreflexive(key(e));
    }
  }

  lemma MultisetTail<T>(s: seq<T>)
    requires |s| > 0
    ensures multiset(s[1..]) == multiset(s) - multiset{s[0]}
  {
    assert s == [s[0]] + s[1..];
  }

  lemma SortedTail<T>(a: seq<T>, key: T -> SortKey, desc: bool)
    requires SortedBy(a, key, desc) && |a| > 0
    ensures SortedBy(a[1..], key, desc)
  {
    forall i, j | 0 <= i < j < |a| - 1
      ensures !Before(key, desc, a[1..][j], a[1..][i])
    {
      assert a[1..][j] == a[j + 1] && a[1..][i] == a[i + 1];
    }
  }

  lemma KeyInjectiveTail<T>(a: seq<T>, key: T -> SortKey)
    requires |a| > 0
    requires forall i, j :: 0 <= i < |a| && 0 <= j < |a| && key(a[i]) == key(a[j]) ==> a[i] == a[j]
    ensures forall i, j :: 0 <= i < |a| - 1 && 0 <= j < |a| - 1 && key(a[1..][i]) == key(a[1..][j]) ==> a[1..][i] == a[1..][j]
  {
    forall i, j | 0 <= i < |a| - 1 && 0 <= j < |a| - 1 && key(a[1..][i]) == key(a[1..][j])
      ensures a[1..][i] == a[1..][j]
    {
      assert a[1..][i] == a[i + 1] && a[1..][j] == a[j + 1];
    }
  }

  /** Two sorted permutations of each other start with the same element, when keys tell elements apart. */
  lemma SortedHeadsEqual<T>(a: seq<T>, b: seq<T>, key: T -> SortKey, desc: bool)
    requires SortedBy(a, key, desc) && SortedBy(b, key, desc)
    requires multiset(a) == multiset(b) && |a| > 0
    requires forall i, j :: 0 <= i < |a| && 0 <= j < |a| && key(a[i]) == key(a[j]) ==> a[i] == a[j]
    ensures |b| > 0 && a[0] == b[0]
  {
    assert |b| == |multiset(b)| == |multiset(a)| == |a|;
    assert a[0] in multiset(b) && b[0] in multiset(a);
    SortedHeadFirst(b, a[0], key, desc);
    SortedHeadFirst(a, b[0], key, desc);
    if key(a[0]) != key(b[0]) {
      KeyLessTotal(key(a[0]), key(b[0]));
      assert false;
    }
    var i :| 0 <= i < |a| && a[i] == b[0];
  }

  /**
   * When the key tells elements apart, there is only one ordering of a
   * multiset: two sorted permutations of each other are equal.
   */
  lemma {:induction false} SortedUnique<T>(a: seq<T>, b: seq<T>, key: T -> SortKey, desc: bool)
    requires SortedBy(a, key, desc) && SortedBy(b, key, desc)
    requires multiset(a) == multiset(b)
    requires forall i, j :: 0 <= i < |a| && 0 <= j < |a| && key(a[i]) == key(a[j]) ==> a[i] == a[j]
    ensures a == b
  {
    if a == [] {
      assert |b| == |multiset(b)| == 0;
    } else {
      SortedHeadsEqual(a, b, key, desc);
      MultisetTail(a);
      MultisetTail(b);
      SortedTail(a, key, desc);
      SortedTail(b, key, desc);
      KeyInjectiveTail(a, key);
      SortedUnique(a[1..], b[1..], key, desc);
    }
  }
}
