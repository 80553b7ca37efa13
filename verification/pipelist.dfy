/** The list operations the frame loop performs on its pipes: picking out the
    pipes that have left the window, and removing entries one at a time. */
module PipeList {

  /** No entry occurs twice. */
  predicate Distinct<T(==)>(s: seq<T>) {
    forall i, j :: 0 <= i < j < |s| ==> s[i] != s[j]
  }

  function Elems<T>(s: seq<T>): set<T> {
    set x | x in s
  }

  lemma ElemsConcat<T>(a: seq<T>, b: seq<T>)
    ensures Elems(a + b) == Elems(a) + Elems(b)
  {
  }

  /** Among the first n entries, those ps[i] whose right edge xs[i] + width lies
      left of the window (gone) or not (!gone), in their original order. */
  function Select<T(==)>(ps: seq<T>, xs: seq<int>, width: int, gone: bool, n: nat): (r: seq<T>)
    requires n <= |ps| == |xs|
    ensures |r| <= n
    ensures Elems(r) <= Elems(ps)
  {
    if n == 0 then []
    else
      var last := if (xs[n - 1] + width < 0) == gone then [ps[n - 1]] else [];
      ElemsConcat(Select(ps, xs, width, gone, n - 1), last);
      Select(ps, xs, width, gone, n - 1) + last
  }

  /** The entries that stay. */
  function Kept<T(==)>(ps: seq<T>, xs: seq<int>, width: int): seq<T>
    requires |xs| == |ps|
  {
    Select(ps, xs, width, false, |ps|)
  }

  /** The entries that have left the window. */
  function Gone<T(==)>(ps: seq<T>, xs: seq<int>, width: int): seq<T>
    requires |xs| == |ps|
  {
    Select(ps, xs, width, true, |ps|)
  }

  /** An entry of a list without repetitions is selected exactly when it is
      among the first n and its right edge is on the selected side of the
      window's left border. */
  lemma {:induction false} SelectMember<T>(ps: seq<T>, xs: seq<int>, width: int, gone: bool, n: nat, i: int)
    requires n <= |ps| == |xs| && Distinct(ps)
    requires 0 <= i < |ps|
    ensures ps[i] in Select(ps, xs, width, gone, n) <==> i < n && (xs[i] + width < 0) == gone
  {
    if n > 0 {
      SelectMember(ps, xs, width, gone, n - 1, i);
      if i != n - 1 {
        assert ps[n - 1] != ps[i];
      }
    }
  }

  /** Selecting from a list without repetitions gives a list without repetitions. */
  lemma {:induction false} SelectDistinct<T>(ps: seq<T>, xs: seq<int>, width: int, gone: bool, n: nat)
    requires n <= |ps| == |xs| && Distinct(ps)
    ensures Distinct(Select(ps, xs, width, gone, n))
  {
    if n > 0 {
      var front := Select(ps, xs, width, gone, n - 1);
      SelectDistinct(ps, xs, width, gone, n - 1);
      SelectMember(ps, xs, width, gone, n - 1, n - 1);
      if (xs[n - 1] + width < 0) == gone {
        var r := front + [ps[n - 1]];
        forall i, j | 0 <= i < j < |r| ensures r[i] != r[j] {
          if j == |front| {
            assert r[i] in front;
          }
        }
      }
    }
  }

  /** The entries of s that are not in d, in their original order. */
  function Drop<T(==)>(s: seq<T>, d: set<T>): (r: seq<T>)
    ensures Elems(r) == Elems(s) - d
    decreases |s|
  {
    if s == [] then []
    else
      assert s == [s[0]] + s[1..];
      ElemsConcat([s[0]], s[1..]);
      if s[0] in d then Drop(s[1..], d)
      else
        ElemsConcat([s[0]], Drop(s[1..], d));
        [s[0]] + Drop(s[1..], d)
  }

  /** Dropping nothing keeps the list. */
  lemma {:induction false} DropNothing<T>(s: seq<T>)
    ensures Drop(s, {}) == s
    decreases |s|
  {
    if s != [] {
      DropNothing(s[1..]);
    }
  }

  /** Dropping distributes over concatenation. */
  lemma {:induction false} DropConcat<T>(a: seq<T>, b: seq<T>, d: set<T>)
    ensures Drop(a + b, d) == Drop(a, d) + Drop(b, d)
    decreases |a|
  {
    if a != [] {
      DropConcat(a[1..], b, d);
      assert (a + b)[1..] == a[1..] + b;
    } else {
      assert a + b == b;
    }
  }

  /** Adding to d an entry that s does not hold changes nothing. */
  lemma {:induction false} DropAbsent<T>(s: seq<T>, d: set<T>, x: T)
    requires x !in s
    ensures Drop(s, d + {x}) == Drop(s, d)
    decreases |s|
  {
    if s != [] {
      DropAbsent(s[1..], d, x);
    }
  }

  /** Dropping a set that s has no entry of changes nothing. */
  lemma {:induction false} DropAbsentAll<T>(s: seq<T>, d: set<T>)
    requires forall x :: x in s ==> x !in d
    ensures Drop(s, d) == s
    decreases |s|
  {
    if s != [] {
      DropAbsentAll(s[1..], d);
    }
  }

  /** Python's list.remove: delete the first occurrence of x, which must be present. */
  function RemoveFirst<T(==)>(s: seq<T>, x: T): (r: seq<T>)
    requires x in s
    ensures |r| == |s| - 1
    ensures multiset(r) == multiset(s) - multiset{x}
    decreases |s|
  {
    assert s == [s[0]] + s[1..];
    if s[0] == x then s[1..] else [s[0]] + RemoveFirst(s[1..], x)
  }

  /** Removing one more entry from a list without repetitions is the same as
      dropping it along with the others. */
  lemma {:induction false} DropRemove<T>(s: seq<T>, d: set<T>, t: T)
    requires Distinct(s) && t in s && t !in d
    ensures t in Drop(s, d)
    ensures RemoveFirst(Drop(s, d), t) == Drop(s, d + {t})
    decreases |s|
  {
    assert Distinct(s[1..]) by {
      forall i, j | 0 <= i < j < |s[1..]| ensures s[1..][i] != s[1..][j] {
        assert s[1..][i] == s[i + 1] && s[1..][j] == s[j + 1];
      }
    }
    if s[0] == t {
      assert t !in s[1..];
      DropAbsent(s[1..], d, t);
    } else if s[0] in d {
      DropRemove(s[1..], d, t);
    } else {
      DropRemove(s[1..], d, t);
      assert Drop(s, d) == [s[0]] + Drop(s[1..], d);
    }
  }

  /** The entries before j + 1 are those before j and entry j; in a list
      without repetitions entry j is not among those before it. */
  lemma PrefixElems<T>(s: seq<T>, j: int)
    requires Distinct(s) && 0 <= j < |s|
    ensures Elems(s[..j + 1]) == Elems(s[..j]) + {s[j]}
    ensures s[j] !in Elems(s[..j])
  {
    assert s[..j + 1] == s[..j] + [s[j]];
    ElemsConcat(s[..j], [s[j]]);
  }

  /** Removing entry j of toRemove from what is left after removing the ones
      before it drops one more entry. */
  lemma RemoveStep<T>(s: seq<T>, toRemove: seq<T>, j: int)
    requires Distinct(s) && Distinct(toRemove) && Elems(toRemove) <= Elems(s)
    requires 0 <= j < |toRemove|
    ensures toRemove[j] in Drop(s, Elems(toRemove[..j]))
    ensures RemoveFirst(Drop(s, Elems(toRemove[..j])), toRemove[j]) == Drop(s, Elems(toRemove[..j + 1]))
  {
    PrefixElems(toRemove, j);
    assert toRemove[j] in Elems(toRemove);
    DropRemove(s, Elems(toRemove[..j]), toRemove[j]);
  }

  /** Removing every entry among the first n that has left the window, one by
      one, leaves exactly the first n entries that stay, in their original order. */
  lemma {:induction false} DropGonePrefix<T>(ps: seq<T>, xs: seq<int>, width: int, n: nat)
    requires n <= |ps| == |xs| && Distinct(ps)
    ensures Drop(ps[..n], Elems(Select(ps, xs, width, true, n))) == Select(ps, xs, width, false, n)
  {
    if n > 0 {
      var p, q := ps[n - 1], ps[..n - 1];
      assert ps[..n] == q + [p];
      var gq := Select(ps, xs, width, true, n - 1);
      var g := Select(ps, xs, width, true, n);
      DropGonePrefix(ps, xs, width, n - 1);
      DropConcat(q, [p], Elems(g));
      SelectMember(ps, xs, width, true, n - 1, n - 1);
      assert p !in q;
      if xs[n - 1] + width < 0 {
        assert Elems(g) == Elems(gq) + {p};
        DropAbsent(q, Elems(gq), p);
      } else {
        assert Elems(g) == Elems(gq);
      }
    }
  }

  /** Removing every pipe that has left the window, one by one, leaves exactly
      the pipes that stay, in their original order. */
  lemma DropGone<T>(ps: seq<T>, xs: seq<int>, width: int)
    requires |xs| == |ps| && Distinct(ps)
    ensures Drop(ps, Elems(Gone(ps, xs, width))) == Kept(ps, xs, width)
  {
    DropGonePrefix(ps, xs, width, |ps|);
    assert ps[..|ps|] == ps;
  }
}
