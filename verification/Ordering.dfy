/** What a comparison sort promises when it need not be stable, and when that is enough to fix its
    result. */
module Ordering {
  ghost predicate TotalPreorder<T(!new)>(le: (T, T) -> bool) {
    && (forall a, b :: le(a, b) || le(b, a))
    && (forall a, b, c :: le(a, b) && le(b, c) ==> le(a, c))
  }

  ghost predicate SortedBy<T>(le: (T, T) -> bool, s: seq<T>) {
    forall i, j :: 0 <= i < j < |s| ==> le(s[i], s[j])
  }

  ghost predicate IsSortOf<T>(le: (T, T) -> bool, s: seq<T>, t: seq<T>) {
    multiset(s) == multiset(t) && SortedBy(le, t)
  }

  /** A sort whose contract, like that of an unstable library sort, leaves the order of
      equivalent elements open. */
  method SortUnstableBy<T(!new)>(le: (T, T) -> bool, s: seq<T>) returns (t: seq<T>)
    requires TotalPreorder(le)
    ensures IsSortOf(le, s, t)
  {
    t := [];
    for i := 0 to |s|
      invariant IsSortOf(le, s[..i], t)
    {
      t := Insert(le, s[i], t);
      assert s[..i + 1] == s[..i] + [s[i]];
    }
    assert s[..|s|] == s;
  }

  method Insert<T(!new)>(le: (T, T) -> bool, x: T, s: seq<T>) returns (t: seq<T>)
    requires TotalPreorder(le) && SortedBy(le, s)
    ensures multiset(t) == multiset(s) + multiset{x} && SortedBy(le, t)
  {
    var k := 0;
    while k < |s| && le(s[k], x)
      invariant 0 <= k <= |s|
      invariant forall i :: 0 <= i < k ==> le(s[i], x)
    {
      k := k + 1;
    }
    forall i | k <= i < |s| ensures le(x, s[i]) {
      assert le(x, s[k]) && (i == k || le(s[k], s[i]));
    }
    t := s[..k] + [x] + s[k..];
    assert s == s[..k] + s[k..];
    InsertedSorted(le, s[..k], x, s[k..]);
  }

  lemma InsertedSorted<T>(le: (T, T) -> bool, below: seq<T>, x: T, above: seq<T>)
    requires SortedBy(le, below + above)
    requires forall i :: 0 <= i < |below| ==> le(below[i], x)
    requires forall i :: 0 <= i < |above| ==> le(x, above[i])
    ensures SortedBy(le, below + [x] + above)
  {
    var s, t, k := below + above, below + [x] + above, |below|;
    forall i, j | 0 <= i < j < |t| ensures le(t[i], t[j]) {
      if i != k && j != k {
        var p, q := if i < k then i else i - 1, if j < k then j else j - 1;
        assert t[i] == s[p] && t[j] == s[q] && le(s[p], s[q]);
      } else if i == k {
        assert t[j] == above[j - k - 1];
      } else {
        assert t[i] == below[i];
      }
    }
  }

  lemma TailMultiset<T>(s: seq<T>)
    requires s != []
    ensures multiset(s[1..]) == multiset(s) - multiset{s[0]}
  {
    assert s == [s[0]] + s[1..];
  }

  lemma HeadIsLeast<T>(le: (T, T) -> bool, s: seq<T>, x: T)
    requires SortedBy(le, s) && x in s
    ensures x == s[0] || le(s[0], x)
  {
  }

  lemma TailSorted<T>(le: (T, T) -> bool, s: seq<T>)
    requires s != [] && SortedBy(le, s)
    ensures SortedBy(le, s[1..])
    ensures forall a :: a in s[1..] ==> a in s
  {
  }

  /** When elements that compare equal are equal, any two sorts of one multiset agree: an unstable
      sort is then deterministic. */
  lemma {:induction false} SortUnique<T(!new)>(le: (T, T) -> bool, s: seq<T>, t: seq<T>)
    requires SortedBy(le, s) && SortedBy(le, t) && multiset(s) == multiset(t)
    requires forall a, b :: a in s && b in s && le(a, b) && le(b, a) ==> a == b
    ensures s == t
  {
    assert |s| == |multiset(s)| == |multiset(t)| == |t|;
    if s == [] {
    } else {
      assert s[0] in multiset(t) && t[0] in multiset(s);
      HeadIsLeast(le, s, t[0]);
      HeadIsLeast(le, t, s[0]);
      TailMultiset(s);
      TailMultiset(t);
      TailSorted(le, s);
      TailSorted(le, t);
      hide SortedBy;
      SortUnique(le, s[1..], t[1..]);
      assert s == [s[0]] + s[1..] && t == [t[0]] + t[1..];
    }
  }

  function Map<A, B>(f: A -> B, s: seq<A>): (r: seq<B>)
    ensures |r| == |s| && forall i :: 0 <= i < |s| ==> r[i] == f(s[i])
  {
    seq(|s|, i requires 0 <= i < |s| => f(s[i]))
  }

  lemma MapAppend<A, B>(f: A -> B, s: seq<A>, t: seq<A>)
    ensures Map(f, s + t) == Map(f, s) + Map(f, t)
  {
  }

  function Without<T>(t: seq<T>, j: nat): seq<T>
    requires j < |t|
  {
    t[..j] + t[j + 1..]
  }

  lemma WithoutMultiset<T>(t: seq<T>, j: nat)
    requires j < |t|
    ensures multiset(Without(t, j)) == multiset(t) - multiset{t[j]}
    ensures |Without(t, j)| == |t| - 1
  {
    assert t == t[..j] + [t[j]] + t[j + 1..];
  }

  lemma MapWithout<A, B>(f: A -> B, t: seq<A>, j: nat)
    requires j < |t|
    ensures Map(f, Without(t, j)) == Without(Map(f, t), j)
  {
  }

  /** Mapping two permutations of each other gives permutations of each other. */
  lemma {:induction false} MapMultiset<A, B>(f: A -> B, s: seq<A>, t: seq<A>)
    requires multiset(s) == multiset(t)
    ensures multiset(Map(f, s)) == multiset(Map(f, t))
    decreases |s|
  {
    assert |s| == |multiset(s)| == |multiset(t)| == |t|;
    if s == [] {
    } else {
      assert s[0] in multiset(t);
      var j :| 0 <= j < |t| && t[j] == s[0];
      WithoutMultiset(s, 0);
      WithoutMultiset(t, j);
      MapMultiset(f, Without(s, 0), Without(t, j));
      MapWithout(f, s, 0);
      MapWithout(f, t, j);
      MultisetByParts(Map(f, s), 0, Map(f, t), j);
    }
  }

  lemma MultisetByParts<T>(s: seq<T>, i: nat, t: seq<T>, j: nat)
    requires i < |s| && j < |t| && s[i] == t[j] && multiset(Without(s, i)) == multiset(Without(t, j))
    ensures multiset(s) == multiset(t)
  {
    assert s == s[..i] + [s[i]] + s[i + 1..];
    assert t == t[..j] + [t[j]] + t[j + 1..];
    assert multiset(s) == multiset(Without(s, i)) + multiset{s[i]};
    assert multiset(t) == multiset(Without(t, j)) + multiset{t[j]};
  }

  ghost predicate Distinct<T>(s: seq<T>) {
    forall i, j :: 0 <= i < j < |s| ==> s[i] != s[j]
  }

  lemma {:induction false} DistinctCount<T>(s: seq<T>, x: T)
    requires Distinct(s)
    ensures multiset(s)[x] <= 1
  {
    if s == [] {
    } else {
      assert s == [s[0]] + s[1..];
      DistinctCount(s[1..], x);
    }
  }

  lemma CountBoth<T>(t: seq<T>, i: nat, j: nat)
    requires i < j < |t|
    ensures t[i] == t[j] ==> multiset(t)[t[i]] >= 2
  {
    var rest := t[i + 1..];
    assert t == t[..i] + [t[i]] + rest && rest[j - i - 1] == t[j];
    assert t[j] in multiset(rest);
  }

  /** A permutation of distinct elements has distinct elements. */
  lemma DistinctPermutation<T>(s: seq<T>, t: seq<T>)
    requires Distinct(s) && multiset(s) == multiset(t)
    ensures Distinct(t)
  {
    forall i, j | 0 <= i < j < |t| ensures t[i] != t[j] {
      DistinctCount(s, t[i]);
      CountBoth(t, i, j);
    }
  }
}
