/**
 * Two list shapes the scraper produces again and again: "scan every entry and
 * let the last one that matches win" (dict entries overwritten in a loop), and
 * "extend one list by each list in turn" (`links += page_links`,
 * `food.extend(r)`).
 */
module Seqs {
  import opened Wrappers

  /** The value `f` gives for the last entry of `s` it accepts, or None if it accepts none. */
  function LastMatch<T, U>(s: seq<T>, f: T -> Option<U>): Option<U> {
    if s == [] then None
    else if f(s[|s| - 1]).Some? then f(s[|s| - 1])
    else LastMatch(s[..|s| - 1], f)
  }

  /** Extending the scanned prefix by one entry: a match there overrides what came before. */
  lemma LastMatchSnoc<T, U>(s: seq<T>, x: T, f: T -> Option<U>)
    ensures LastMatch(s + [x], f) == if f(x).Some? then f(x) else LastMatch(s, f)
  {
    assert (s + [x])[..|s|] == s;
  }

  /** The scan of a prefix one entry longer. */
  lemma LastMatchPrefix<T, U>(s: seq<T>, i: nat, f: T -> Option<U>)
    requires i < |s|
    ensures LastMatch(s[..i + 1], f) == if f(s[i]).Some? then f(s[i]) else LastMatch(s[..i], f)
  {
    assert s[..i + 1][..i] == s[..i];
  }

  /**
   * "The last match wins", both ways: the scan yields `v` exactly when some
   * entry gives `v` and no later entry matches at all.
   */
  lemma {:induction false} LastMatchSpec<T, U>(s: seq<T>, f: T -> Option<U>, v: U)
    ensures LastMatch(s, f) == Some(v) <==>
            exists i :: 0 <= i < |s| && f(s[i]) == Some(v) && forall j :: i < j < |s| ==> f(s[j]).None?
  {
    if s != [] {
      var n := |s| - 1;
      LastMatchSpec(s[..n], f, v);
      if f(s[n]).Some? {
        if f(s[n]) != Some(v) {
          forall i | 0 <= i < |s| && f(s[i]) == Some(v)
            ensures exists j :: i < j < |s| && f(s[j]).Some?
          {
            assert i < n && f(s[n]).Some?;
          }
        }
      } else {
        forall i | 0 <= i < n
          ensures (f(s[i]) == Some(v) && forall j :: i < j < |s| ==> f(s[j]).None?)
              <==> (f(s[..n][i]) == Some(v) && forall j :: i < j < n ==> f(s[..n][j]).None?)
        {
          assert s[..n][i] == s[i];
          assert forall j :: i < j < n ==> s[..n][j] == s[j];
        }
      }
    }
  }

  /** No match anywhere is exactly the None case. */
  lemma {:induction false} LastMatchNone<T, U>(s: seq<T>, f: T -> Option<U>)
    ensures LastMatch(s, f).None? <==> forall i :: 0 <= i < |s| ==> f(s[i]).None?
  {
    if s != [] {
      var n := |s| - 1;
      LastMatchNone(s[..n], f);
      assert forall i :: 0 <= i < n ==> s[..n][i] == s[i];
    }
  }

  /** The lists of `ss` one after the other. */
  function Flatten<T>(ss: seq<seq<T>>): seq<T> {
    if ss == [] then [] else Flatten(ss[..|ss| - 1]) + ss[|ss| - 1]
  }

  lemma {:induction false} FlattenAppend<T>(a: seq<seq<T>>, b: seq<seq<T>>)
    ensures Flatten(a + b) == Flatten(a) + Flatten(b)
  {
    if b != [] {
      var n := |b| - 1;
      assert (a + b)[..|a + b| - 1] == a + b[..n];
      FlattenAppend(a, b[..n]);
    } else {
      assert a + b == a;
    }
  }

  /**
   * Collecting lists in another order collects the same elements: the
   * multiset of the result depends only on the multiset of the lists.
   */
  lemma {:induction false} FlattenPermutation<T>(a: seq<seq<T>>, b: seq<seq<T>>)
    requires multiset(a) == multiset(b)
    ensures multiset(Flatten(a)) == multiset(Flatten(b))
  {
    if a == [] {
      assert |b| == |multiset(b)| == 0;
    } else {
      var n := |a| - 1;
      var x, rest := a[n], a[..n];
      assert x in multiset(b);
      var j :| 0 <= j < |b| && b[j] == x;
      var b' := b[..j] + b[j + 1..];
      RemoveOne(b, j);
      RemoveOne(a, n);
      assert a[..n] + a[n + 1..] == rest;
      FlattenPermutation(rest, b');
      FlattenRemove(b, j);
    }
  }

  /** Taking out the element at `j` takes one occurrence of it out of the multiset. */
  lemma RemoveOne<T>(s: seq<T>, j: nat)
    requires j < |s|
    ensures multiset(s[..j] + s[j + 1..]) == multiset(s) - multiset{s[j]}
  {
    assert s == s[..j] + [s[j]] + s[j + 1..];
  }

  /** Taking the list at `j` out of `b` takes its elements out of the flattening. */
  lemma {:induction false} FlattenRemove<T>(b: seq<seq<T>>, j: nat)
    requires j < |b|
    ensures multiset(Flatten(b)) == multiset(Flatten(b[..j] + b[j + 1..])) + multiset(b[j])
  {
    var x, left, right := b[j], b[..j], b[j + 1..];
    assert b == (left + [x]) + right;
    FlattenAppend(left + [x], right);
    FlattenAppend(left, [x]);
    FlattenAppend(left, right);
    assert Flatten([x]) == x by { assert [x][..0] == []; }
    var fl, fr := Flatten(left), Flatten(right);
    assert Flatten(b) == fl + x + fr;
    assert Flatten(left + right) == fl + fr;
    calc {
      multiset(Flatten(b));
      multiset(fl + x + fr);
      multiset(fl) + multiset(x) + multiset(fr);
      multiset(fl + fr) + multiset(x);
    }
  }

  /** `f` applied to each element of `s`, in order. */
  function MapSeq<T, U>(f: T --> U, s: seq<T>): (r: seq<U>)
    requires forall i :: 0 <= i < |s| ==> f.requires(s[i])
    ensures |r| == |s| && forall i :: 0 <= i < |s| ==> r[i] == f(s[i])
  {
    seq(|s|, i requires 0 <= i < |s| => f(s[i]))
  }

  /** Mapping a permutation gives a permutation of the mapped list. */
  lemma {:induction false} MapPermutation<T, U>(f: T --> U, a: seq<T>, b: seq<T>)
    requires multiset(a) == multiset(b)
    requires forall i :: 0 <= i < |a| ==> f.requires(a[i])
    ensures forall i :: 0 <= i < |b| ==> f.requires(b[i])
    ensures multiset(MapSeq(f, a)) == multiset(MapSeq(f, b))
  {
    forall i | 0 <= i < |b| ensures f.requires(b[i]) {
      assert b[i] in multiset(a);
    }
    if a == [] {
      assert |b| == |multiset(b)| == 0;
    } else {
      var n := |a| - 1;
      var x, rest := a[n], a[..n];
      assert x in multiset(b);
      var j :| 0 <= j < |b| && b[j] == x;
      var b' := b[..j] + b[j + 1..];
      RemoveOne(b, j);
      RemoveOne(a, n);
      assert a[..n] + a[n + 1..] == rest;
      MapPermutation(f, rest, b');
      MapRemove(f, a, n);
      MapRemove(f, b, j);
    }
  }

  /** Taking the element at `j` out of `s` takes its image out of the mapped list. */
  lemma MapRemove<T, U>(f: T --> U, s: seq<T>, j: nat)
    requires j < |s| && forall i :: 0 <= i < |s| ==> f.requires(s[i])
    ensures multiset(MapSeq(f, s)) == multiset(MapSeq(f, s[..j] + s[j + 1..])) + multiset{f(s[j])}
  {
    var m := MapSeq(f, s);
    assert MapSeq(f, s[..j] + s[j + 1..]) == m[..j] + m[j + 1..];
    RemoveOne(m, j);
    assert m[j] in multiset(m);
  }

  /** The map `m` cut down to the keys of `keys`. */
  function Restrict<K, V>(m: map<K, V>, keys: seq<K>): (r: map<K, V>)
    requires forall k :: k in keys ==> k in m
    ensures r.Keys == set k | k in keys
    ensures forall k :: k in keys ==> r[k] == m[k]
  {
    if keys == [] then map[]
    else
      var n := |keys| - 1;
      Restrict(m, keys[..n])[keys[n] := m[keys[n]]]
  }

  /** Restricting to one more key adds that key's entry. */
  lemma RestrictSnoc<K, V>(m: map<K, V>, keys: seq<K>, i: nat)
    requires i < |keys| && forall k :: k in keys ==> k in m
    ensures Restrict(m, keys[..i + 1]) == Restrict(m, keys[..i])[keys[i] := m[keys[i]]]
  {
    assert keys[..i + 1][..i] == keys[..i];
  }
}
