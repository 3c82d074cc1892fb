/** The canonical lock order of the inventory service: Python's `<` on
    `str` (code-point-wise lexicographic comparison) and the list
    `sorted(set(ids))` that a reservation locks in. */
module KeyOrder {

  /** `a < b` on Python strings: the first differing code point decides, and
      a proper prefix sorts first. */
  predicate Below(a: string, b: string)
  {
    if |a| == 0 then |b| > 0
    else |b| > 0 && (a[0] < b[0] || (a[0] == b[0] && Below(a[1..], b[1..])))
  }

  lemma {:induction false} BelowIrreflexive(a: string)
    ensures !Below(a, a)
  {
    if |a| > 0 {
      BelowIrreflexive(a[1..]);
    }
  }

  lemma {:induction false} BelowTransitive(a: string, b: string, c: string)
    requires Below(a, b) && Below(b, c)
    ensures Below(a, c)
  {
    if |a| > 0 && a[0] == b[0] && b[0] == c[0] {
      BelowTransitive(a[1..], b[1..], c[1..]);
    }
  }

  /** Any two strings are equal or ordered one way or the other. */
  lemma {:induction false} BelowTotal(a: string, b: string)
    ensures a == b || Below(a, b) || Below(b, a)
  {
    if |a| > 0 && |b| > 0 && a[0] == b[0] {
      assert a == [a[0]] + a[1..] && b == [b[0]] + b[1..];
      BelowTotal(a[1..], b[1..]);
    }
  }

  lemma BelowAsymmetric(a: string, b: string)
    requires Below(a, b)
    ensures !Below(b, a)
  {
    if Below(b, a) {
      BelowTransitive(a, b, a);
      BelowIrreflexive(a);
    }
  }

  /** Strictly increasing, hence also free of repetitions. */
  ghost predicate StrictlySorted(s: seq<string>)
  {
    forall i, j :: 0 <= i < j < |s| ==> Below(s[i], s[j])
  }

  /** Insert `x` into a strictly sorted list unless it is already there. */
  function Insert(s: seq<string>, x: string): (r: seq<string>)
    requires StrictlySorted(s)
    ensures StrictlySorted(r)
    ensures forall y :: y in r <==> y in s || y == x
    decreases |s|
  {
    if s == [] then [x]
    else if x == s[0] then s
    else if Below(x, s[0]) then
      assert forall j :: 0 < j < |s| ==> Below(x, s[j]) by {
        forall j | 0 < j < |s| ensures Below(x, s[j]) {
          BelowTransitive(x, s[0], s[j]);
        }
      }
      [x] + s
    else
      BelowTotal(x, s[0]);
      var rest := Insert(s[1..], x);
      assert forall y :: y in rest ==> Below(s[0], y);
      [s[0]] + rest
  }

  /** `sorted(set(ids))`: the distinct ids in ascending order. */
  function SortedDistinct(ids: seq<string>): (r: seq<string>)
    ensures StrictlySorted(r)
    ensures forall y :: y in r <==> y in ids
  {
    if ids == [] then []
    else Insert(SortedDistinct(ids[..|ids| - 1]), ids[|ids| - 1])
  }

  /** The lock order depends only on the set of ids requested: two strictly
      sorted lists with the same elements are the same list. */
  lemma {:induction false} SortedIsCanonical(s: seq<string>, t: seq<string>)
    requires StrictlySorted(s) && StrictlySorted(t)
    requires forall y :: y in s <==> y in t
    ensures s == t
    decreases |s|
  {
    assert s != [] ==> s[0] in t;
    assert t != [] ==> t[0] in s;
    if s != [] && t != [] {
      // neither head can lie strictly below the other
      NotBelowHead(t, s[0]);
      NotBelowHead(s, t[0]);
      BelowTotal(s[0], t[0]);
      forall y ensures y in s[1..] <==> y in t[1..] {
        NotHead(s, y);
        NotHead(t, y);
        assert y in s <==> y == s[0] || y in s[1..];
        assert y in t <==> y == t[0] || y in t[1..];
      }
      SortedIsCanonical(s[1..], t[1..]);
    }
  }

  /** No member of a strictly sorted list lies below its head. */
  lemma NotBelowHead(s: seq<string>, y: string)
    requires StrictlySorted(s) && y in s
    ensures !Below(y, s[0])
  {
    var k :| 0 <= k < |s| && s[k] == y;
    if k == 0 {
      BelowIrreflexive(y);
    } else {
      BelowAsymmetric(s[0], s[k]);
    }
  }

  /** A strictly sorted list does not repeat its head. */
  lemma NotHead(s: seq<string>, y: string)
    requires StrictlySorted(s) && s != []
    ensures y in s[1..] ==> y != s[0]
  {
    if y in s[1..] {
      var i :| 1 <= i < |s| && s[i] == y;
      BelowIrreflexive(s[0]);
      assert Below(s[0], s[i]);
    }
  }

  /** Two lock orders that share two keys (`s[i] == t[k]`, `s[j] == t[l]`)
      take them in the same relative order, so no two reservations can wait on each other in a
      cycle. */
  lemma SharedKeysSameOrder(s: seq<string>, t: seq<string>, i: nat, j: nat, k: nat, l: nat)
    requires StrictlySorted(s) && StrictlySorted(t)
    requires i < |s| && j < |s| && k < |t| && l < |t|
    requires s[i] == t[k] && s[j] == t[l]
    ensures i < j <==> k < l
  {
    if i < j && l <= k {
      if l == k { BelowIrreflexive(s[i]); } else { BelowAsymmetric(s[i], s[j]); }
    }
    if k < l && j <= i {
      if j == i { BelowIrreflexive(t[k]); } else { BelowAsymmetric(t[k], t[l]); }
    }
  }
}
