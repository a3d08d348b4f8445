/**
 * Sequence operations that behave like the java.util.Vector calls the
 * zeroconf code makes: `remove(Object)` drops the first equal element,
 * `contains`, and an Enumeration that reads the vector by a running index.
 */
module Vectors {

  /** No element occurs twice. */
  ghost predicate Distinct<T>(s: seq<T>) {
    forall i, j :: 0 <= i < j < |s| ==> s[i] != s[j]
  }

  /** Position of the first occurrence of `x` (Vector.indexOf). */
  function IndexOf<T(==)>(s: seq<T>, x: T): (i: nat)
    requires x in s
    ensures i < |s| && s[i] == x && x !in s[..i]
  {
    if s[0] == x then 0 else 1 + IndexOf(s[1..], x)
  }

  /** Vector.remove(Object): the first occurrence of `x` is dropped, if there is one. */
  function RemoveFirst<T(==)>(s: seq<T>, x: T): (r: seq<T>)
    ensures x !in s ==> r == s
  {
    if s == [] then []
    else if s[0] == x then
      assert s == [s[0]] + s[1..];
      s[1..]
    else
      assert s == [s[0]] + s[1..];
      [s[0]] + RemoveFirst(s[1..], x)
  }

  /** Removal of an element that is present closes the gap at its first position. */
  lemma {:induction false} RemoveFirstAt<T>(s: seq<T>, x: T)
    requires x in s
    ensures RemoveFirst(s, x) == s[..IndexOf(s, x)] + s[IndexOf(s, x) + 1..]
  {
    if s[0] != x {
      var t := s[1..];
      assert x in t;
      var j := IndexOf(t, x);
      assert IndexOf(s, x) == j + 1;
      RemoveFirstAt(t, x);
      assert RemoveFirst(s, x) == [s[0]] + (t[..j] + t[j + 1..]);
      assert t[..j] == s[1..j + 1] && t[j + 1..] == s[j + 2..];
      assert [s[0]] + s[1..j + 1] == s[..j + 1];
    }
  }

  /** What is left after a removal: the elements before the removed one, then the ones after it, shifted down. */
  lemma RemoveFirstShape<T>(s: seq<T>, x: T, i: nat)
    requires x in s && i < |s| - 1
    ensures |RemoveFirst(s, x)| == |s| - 1
    ensures RemoveFirst(s, x)[i] == if i < IndexOf(s, x) then s[i] else s[i + 1]
  {
    RemoveFirstAt(s, x);
  }

  lemma DistinctTail<T>(s: seq<T>)
    requires |s| > 0 && Distinct(s)
    ensures Distinct(s[1..]) && s[0] !in s[1..]
  {
  }

  lemma {:induction false} RemoveFirstDistinct<T>(s: seq<T>, x: T)
    requires Distinct(s)
    ensures Distinct(RemoveFirst(s, x))
    ensures forall y :: y in RemoveFirst(s, x) <==> y in s && y != x
    ensures x in s ==> |RemoveFirst(s, x)| == |s| - 1
  {
    if s != [] {
      DistinctTail(s);
      if s[0] != x {
        RemoveFirstDistinct(s[1..], x);
        var r := RemoveFirst(s[1..], x);
        assert RemoveFirst(s, x) == [s[0]] + r;
        forall i, j | 0 <= i < j < |[s[0]] + r| ensures ([s[0]] + r)[i] != ([s[0]] + r)[j] {
          if i == 0 { assert ([s[0]] + r)[j] == r[j - 1]; assert r[j - 1] in r; }
        }
      }
    }
  }

  lemma DistinctAppend<T>(s: seq<T>, x: T)
    requires Distinct(s) && x !in s
    ensures Distinct(s + [x])
  {
  }

  lemma DistinctPrepend<T>(s: seq<T>, x: T)
    requires Distinct(s) && x !in s
    ensures Distinct([x] + s)
  {
  }

  /** The elements of `s` that are not in `xs`, in their order. */
  function Without<T(==)>(s: seq<T>, xs: set<T>): (r: seq<T>)
    ensures forall i :: 0 <= i < |r| ==> r[i] in s && r[i] !in xs
    ensures forall i :: 0 <= i < |s| && s[i] !in xs ==> s[i] in r
  {
    if s == [] then [] else (if s[0] in xs then [] else [s[0]]) + Without(s[1..], xs)
  }

  /** Removing `x` from a distinct sequence already filtered by `xs` is filtering by `xs + {x}`. */
  lemma {:induction false} RemoveFirstWithout<T>(s: seq<T>, xs: set<T>, x: T)
    requires Distinct(s)
    ensures RemoveFirst(Without(s, xs), x) == Without(s, xs + {x})
  {
    if s != [] {
      DistinctTail(s);
      var a, t := s[0], s[1..];
      RemoveFirstWithout(t, xs, x);
      if a in xs {
        assert Without(s, xs) == Without(t, xs);
        assert Without(s, xs + {x}) == Without(t, xs + {x});
      } else if a == x {
        assert Without(s, xs) == [x] + Without(t, xs);
        WithoutAbsent(t, xs, x);
        assert Without(s, xs + {x}) == Without(t, xs + {x});
      } else {
        assert Without(s, xs) == [a] + Without(t, xs);
        assert Without(s, xs + {x}) == [a] + Without(t, xs + {x});
      }
    }
  }

  lemma {:induction false} WithoutAbsent<T>(s: seq<T>, xs: set<T>, x: T)
    requires x !in s
    ensures Without(s, xs + {x}) == Without(s, xs)
  {
    if s != [] { WithoutAbsent(s[1..], xs, x); }
  }

  lemma {:induction false} WithoutNothing<T>(s: seq<T>)
    ensures Without(s, {}) == s
  {
    if s != [] { WithoutNothing(s[1..]); }
  }

  lemma WithoutEverything<T>(s: seq<T>, xs: set<T>)
    requires forall y :: y in s ==> y in xs
    ensures Without(s, xs) == []
  {
  }

  /** The elements of `s` as a set: a distinct sequence has as many elements as its set. */
  lemma {:induction false} DistinctCard<T>(s: seq<T>)
    requires Distinct(s)
    ensures |set x | x in s| == |s|
  {
    if s != [] {
      DistinctTail(s);
      DistinctCard(s[1..]);
      assert (set x | x in s) == (set x | x in s[1..]) + {s[0]};
    }
  }

  /**
   * What a Vector still holds after the loop
   *   e = v.elements(); while (e.hasMoreElements()) { t = e.nextElement(); if (v.contains(t)) v.remove(t); }
   * The enumeration reads v by a running index, so every removal shifts the
   * next element under the index already passed: only the elements at odd
   * positions survive.
   */
  function EnumerationSurvivors<T>(s: seq<T>): (r: seq<T>)
    ensures |r| == |s| / 2
  {
    if |s| < 2 then [] else [s[1]] + EnumerationSurvivors(s[2..])
  }

  lemma {:induction false} SurvivorsStep<T>(p: seq<T>, x: T, y: T)
    requires |p| % 2 == 0
    ensures EnumerationSurvivors(p + [x]) == EnumerationSurvivors(p)
    ensures EnumerationSurvivors(p + [x, y]) == EnumerationSurvivors(p) + [y]
  {
    if |p| >= 2 {
      SurvivorsStep(p[2..], x, y);
      assert (p + [x])[2..] == p[2..] + [x];
      assert (p + [x, y])[2..] == p[2..] + [x, y];
    } else {
      assert p == [];
    }
  }

  lemma {:induction false} SurvivorsAreOdd<T>(s: seq<T>, k: nat)
    requires k < |s| / 2
    ensures EnumerationSurvivors(s)[k] == s[2 * k + 1]
  {
    if k > 0 { SurvivorsAreOdd(s[2..], k - 1); }
  }

  /** Every survivor of the enumeration was an element of the vector. */
  lemma SurvivorsSubset<T>(s: seq<T>)
    ensures forall x :: x in EnumerationSurvivors(s) ==> x in s
  {
    forall x | x in EnumerationSurvivors(s) ensures x in s {
      var k :| 0 <= k < |EnumerationSurvivors(s)| && EnumerationSurvivors(s)[k] == x;
      SurvivorsAreOdd(s, k);
    }
  }

  /** The survivors of a vector without repetitions have none either. */
  lemma SurvivorsDistinct<T>(s: seq<T>)
    requires Distinct(s)
    ensures Distinct(EnumerationSurvivors(s))
  {
    var r := EnumerationSurvivors(s);
    forall i, j | 0 <= i < j < |r| ensures r[i] != r[j] {
      SurvivorsAreOdd(s, i);
      SurvivorsAreOdd(s, j);
    }
  }

  /** Whatever is left after a removal was there before. */
  lemma RemoveFirstSubset<T>(s: seq<T>, x: T)
    ensures forall y :: y in RemoveFirst(s, x) ==> y in s
  {
    if x in s {
      RemoveFirstAt(s, x);
    }
  }

  /** Removing an element that does not occur before a given position removes it there. */
  lemma RemoveFirstAfter<T>(a: seq<T>, x: T, b: seq<T>)
    requires x !in a
    ensures RemoveFirst(a + [x] + b, x) == a + b
  {
    var s := a + [x] + b;
    var i := IndexOf(s, x);
    assert s[|a|] == x;
    assert forall j :: 0 <= j < i ==> s[j] != x by {
      forall j | 0 <= j < i ensures s[j] != x {
        assert s[j] == s[..i][j];
      }
    }
    assert forall j :: 0 <= j < |a| ==> s[j] != x by {
      forall j | 0 <= j < |a| ensures s[j] != x {
        assert s[j] == a[j];
      }
    }
    RemoveFirstAt(s, x);
    assert s[..i] == a && s[i + 1..] == b;
  }

  /** The elements of `o` that are no longer in `types`. */
  function Dropped<T(==)>(o: seq<T>, types: seq<T>): set<T> {
    set n | n in o && n !in types
  }

  /**
   * What the vector holds after the removing enumeration loop has returned
   * `k` elements of the list `o` it started from.
   */
  function EnumerationCursor<T>(o: seq<T>, k: nat): (r: seq<T>)
    ensures |r| == if 2 * k <= |o| then |o| - k else |o| / 2
  {
    if 2 * k <= |o| then EnumerationSurvivors(o[..2 * k]) + o[2 * k..] else EnumerationSurvivors(o)
  }

  /**
   * One round of the removing enumeration loop: the index `k` is still
   * inside the list, it returns the element that was at position 2k of the
   * original list, and removing that element gives the next cursor.
   */
  lemma EnumerationCursorStep<T>(o: seq<T>, k: nat)
    requires Distinct(o) && k < |EnumerationCursor(o, k)|
    ensures 2 * k < |o| && 2 * (k + 1) <= |o| + 1
    ensures EnumerationCursor(o, k)[k] == o[2 * k]
    ensures RemoveFirst(EnumerationCursor(o, k), o[2 * k]) == EnumerationCursor(o, k + 1)
  {
    var p := o[..2 * k];
    var a := EnumerationSurvivors(p);
    var x := o[2 * k];
    assert EnumerationCursor(o, k) == a + o[2 * k..];
    SurvivorsSubset(p);
    assert x !in a by {
      assert x !in p;
    }
    assert o[2 * k..] == [x] + o[2 * k + 1..];
    assert a + o[2 * k..] == a + [x] + o[2 * k + 1..];
    RemoveFirstAfter(a, x, o[2 * k + 1..]);
    CursorNext(o, k);
  }

  /** The cursor after one more step: the next survivor, if any, joins the prefix. */
  lemma CursorNext<T>(o: seq<T>, k: nat)
    requires 2 * k < |o|
    ensures EnumerationCursor(o, k + 1) == EnumerationSurvivors(o[..2 * k]) + o[2 * k + 1..]
  {
    if 2 * k + 2 <= |o| {
      CursorNextPair(o, k);
    } else {
      CursorNextLast(o, k);
    }
  }

  lemma CursorNextPair<T>(o: seq<T>, k: nat)
    requires 2 * k + 2 <= |o|
    ensures EnumerationCursor(o, k + 1) == EnumerationSurvivors(o[..2 * k]) + o[2 * k + 1..]
  {
    var p := o[..2 * k];
    var x, y := o[2 * k], o[2 * k + 1];
    assert o[..2 * k + 2] == p + [x, y];
    SurvivorsStep(p, x, y);
    assert EnumerationCursor(o, k + 1) == EnumerationSurvivors(p) + [y] + o[2 * k + 2..];
    assert o[2 * k + 1..] == [y] + o[2 * k + 2..];
  }

  lemma CursorNextLast<T>(o: seq<T>, k: nat)
    requires 2 * k < |o| < 2 * k + 2
    ensures EnumerationCursor(o, k + 1) == EnumerationSurvivors(o[..2 * k]) + o[2 * k + 1..]
  {
    var p := o[..2 * k];
    var x := o[2 * k];
    assert o == p + [x];
    SurvivorsStep(p, x, x);
    assert o[2 * k + 1..] == [];
  }

  /** Removing a listed element drops exactly that element. */
  lemma DroppedStep<T>(o: seq<T>, types: seq<T>, n: T)
    requires Distinct(types) && n in types && n in o
    ensures Distinct(RemoveFirst(types, n))
    ensures n !in Dropped(o, types) && Dropped(o, RemoveFirst(types, n)) == Dropped(o, types) + {n}
  {
    RemoveFirstDistinct(types, n);
  }

  /** When the removing enumeration loop stops, exactly the odd-indexed elements are left. */
  lemma EnumerationCursorEnd<T>(o: seq<T>, k: nat)
    requires 2 * k <= |o| + 1 && |EnumerationCursor(o, k)| <= k
    ensures EnumerationCursor(o, k) == EnumerationSurvivors(o)
  {
    if 2 * k <= |o| {
      assert o[..2 * k] == o;
    }
  }

  /** A slice that holds a concatenation holds each part in its own place. */
  lemma SliceSplit<T>(s: seq<T>, pos: nat, a: seq<T>, b: seq<T>)
    requires pos + |a| + |b| <= |s| && s[pos..pos + |a| + |b|] == a + b
    ensures s[pos..pos + |a|] == a && s[pos + |a|..pos + |a| + |b|] == b
  {
    var w := s[pos..pos + |a| + |b|];
    assert s[pos..pos + |a|] == w[..|a|];
    assert s[pos + |a|..pos + |a| + |b|] == w[|a|..];
  }

  /** Concatenation is associative (stated so that callers can name the two groupings). */
  lemma AppendAssoc<T>(a: seq<T>, b: seq<T>, c: seq<T>)
    ensures (a + b) + c == a + (b + c)
  {
  }

  /**
   * One pair of a two-sided membership record (connection `d` lists bucket `n`
   * exactly when `n`'s subscribers hold `d`) survives `c` leaving the buckets
   * in `dropped`.
   */
  lemma CrossAfterLeaving<K, C>(n: K, d: C, c: C, types: seq<K>, types': seq<K>,
                                subs: seq<C>, subs': seq<C>, dropped: set<K>)
    requires (n in types <==> d in subs) && Distinct(subs)
    requires subs' == if n in dropped then RemoveFirst(subs, c) else subs
    requires d != c ==> types' == types
    requires d == c ==> (n in types' <==> n in types && n !in dropped)
    ensures n in types' <==> d in subs'
  {
    RemoveFirstDistinct(subs, c);
  }
}
