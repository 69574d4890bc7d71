/** Stable sorting by a total preorder, as `Vec::sort_by` and SQL `ORDER BY` give it,
    and the order of strings by code point, which is what both adapters of the registry
    and the directory listing use. A sorted sequence without duplicates is determined by
    its elements, so it does not matter by which algorithm, nor from which order, it was
    sorted. */
module Sorting {

  ghost predicate TotalPreorder<T(!new)>(le: (T, T) -> bool)
  {
    && (forall x, y :: le(x, y) || le(y, x))
    && (forall x, y, z :: le(x, y) && le(y, z) ==> le(x, z))
  }

  ghost predicate Sorted<T>(s: seq<T>, le: (T, T) -> bool)
  {
    forall i, j | 0 <= i < j < |s| :: le(s[i], s[j])
  }

  function Insert<T>(x: T, s: seq<T>, le: (T, T) -> bool): (r: seq<T>)
    ensures multiset(r) == multiset{x} + multiset(s)
    ensures |r| == |s| + 1
  {
    if s == [] then [x]
    else if le(x, s[0]) then [x] + s
    else
      assert s == [s[0]] + s[1..];
      [s[0]] + Insert(x, s[1..], le)
  }

  function Sort<T>(s: seq<T>, le: (T, T) -> bool): (r: seq<T>)
    ensures multiset(r) == multiset(s)
    ensures |r| == |s|
  {
    if s == [] then [] else
    assert s == [s[0]] + s[1..];
    Insert(s[0], Sort(s[1..], le), le)
  }

  lemma {:induction false} InsertSorted<T(!new)>(x: T, s: seq<T>, le: (T, T) -> bool)
    requires TotalPreorder(le) && Sorted(s, le)
    ensures Sorted(Insert(x, s, le), le)
  {
    if s != [] && !le(x, s[0]) {
      InsertSorted(x, s[1..], le);
      var r := Insert(x, s[1..], le);
      forall y | y in r
        ensures le(s[0], y)
      {
        assert y in multiset(r);
        assert y == x || y in s[1..];
      }
    }
  }

  lemma {:induction false} SortSorted<T(!new)>(s: seq<T>, le: (T, T) -> bool)
    requires TotalPreorder(le)
    ensures Sorted(Sort(s, le), le)
  {
    if s != [] {
      SortSorted(s[1..], le);
      InsertSorted(s[0], Sort(s[1..], le), le);
    }
  }

  function TiedOne<T>(y: T, x: T, le: (T, T) -> bool): (r: seq<T>)
  {
    if le(y, x) && le(x, y) then [y] else []
  }

  /** The elements that are neither before nor after `x`, in their order. */
  function Tied<T>(s: seq<T>, x: T, le: (T, T) -> bool): (r: seq<T>)
  {
    if s == [] then [] else TiedOne(s[0], x, le) + Tied(s[1..], x, le)
  }

  /** The sort is stable: elements that are tied keep their order. */
  lemma {:induction false} SortStable<T(!new)>(s: seq<T>, x: T, le: (T, T) -> bool)
    requires TotalPreorder(le)
    ensures Tied(Sort(s, le), x, le) == Tied(s, x, le)
  {
    if s != [] {
      SortStable(s[1..], x, le);
      InsertTied(s[0], Sort(s[1..], le), x, le);
      TiedHead(s[0], Sort(s[1..], le), x, le);
    }
  }

  lemma TiedHead<T>(y: T, s: seq<T>, x: T, le: (T, T) -> bool)
    ensures Tied([y] + s, x, le) == TiedOne(y, x, le) + Tied(s, x, le)
  {
    assert ([y] + s)[1..] == s;
  }

  lemma Exchanged<T>(a: seq<T>, b: seq<T>, c: seq<T>)
    requires a == [] || b == []
    ensures a + (b + c) == b + (a + c)
  {
    assert [] + c == c && a + [] == a && b + [] == b;
  }

  lemma {:induction false} InsertTied<T(!new)>(y: T, s: seq<T>, x: T, le: (T, T) -> bool)
    requires TotalPreorder(le)
    ensures Tied(Insert(y, s, le), x, le) == Tied([y] + s, x, le)
  {
    if s != [] && !le(y, s[0]) {
      InsertTied(y, s[1..], x, le);
      NotBothTied(y, s[0], x, le);
      PassedOver(y, s, x, le, Insert(y, s[1..], le));
    }
  }

  lemma PassedOver<T>(y: T, s: seq<T>, x: T, le: (T, T) -> bool, rest: seq<T>)
    requires s != [] && Tied(rest, x, le) == Tied([y] + s[1..], x, le)
    requires TiedOne(y, x, le) == [] || TiedOne(s[0], x, le) == []
    ensures Tied([s[0]] + rest, x, le) == Tied([y] + s, x, le)
  {
    TiedHead(s[0], rest, x, le);
    TiedHead(y, s[1..], x, le);
    TiedHead(y, s, x, le);
    Exchanged(TiedOne(s[0], x, le), TiedOne(y, x, le), Tied(s[1..], x, le));
  }

  lemma NotBothTied<T(!new)>(y: T, z: T, x: T, le: (T, T) -> bool)
    requires TotalPreorder(le) && !le(y, z)
    ensures TiedOne(y, x, le) == [] || TiedOne(z, x, le) == []
  {
  }

  lemma SameElements<T>(s: seq<T>, t: seq<T>)
    requires multiset(s) == multiset(t)
    ensures forall x :: x in s <==> x in t
  {
    forall x
      ensures x in s <==> x in t
    {
      assert x in s <==> x in multiset(s);
      assert x in t <==> x in multiset(t);
    }
  }

  predicate NoDuplicates<T(==)>(s: seq<T>)
  {
    forall i, j | 0 <= i < j < |s| :: s[i] != s[j]
  }

  lemma {:induction false} NoDuplicatesCount<T>(s: seq<T>)
    ensures NoDuplicates(s) <==> forall x :: multiset(s)[x] <= 1
  {
    if s != [] {
      var init, last := s[..|s| - 1], s[|s| - 1];
      assert s == init + [last];
      NoDuplicatesCount(init);
      if NoDuplicates(s) {
        assert NoDuplicates(init) && last !in init;
        assert last !in multiset(init);
      }
      if forall x :: multiset(s)[x] <= 1 {
        assert forall x :: multiset(init)[x] <= multiset(s)[x];
        assert multiset(s)[last] == multiset(init)[last] + 1;
        assert last !in multiset(init);
        assert last !in init;
        forall i, j | 0 <= i < j < |s|
          ensures s[i] != s[j]
        {
          if j == |s| - 1 {
            assert s[i] == init[i] && init[i] in init;
          } else {
            assert s[i] == init[i] && s[j] == init[j];
          }
        }
      }
    }
  }

  lemma PermutationNoDuplicates<T>(s: seq<T>, t: seq<T>)
    requires multiset(s) == multiset(t) && NoDuplicates(s)
    ensures NoDuplicates(t)
  {
    NoDuplicatesCount(s);
    NoDuplicatesCount(t);
  }

  // ------------------------------------------------------- strings, by code point

  predicate StrLe(a: string, b: string)
  {
    if a == [] then true
    else if b == [] then false
    else if a[0] != b[0] then a[0] < b[0]
    else StrLe(a[1..], b[1..])
  }

  /** A string comes before another when it is a prefix of it, or has the smaller character
      where they first differ. */
  lemma {:induction false} StrLeMeans(a: string, b: string)
    ensures StrLe(a, b) <==>
              a <= b || exists k | 0 <= k < |a| && k < |b| :: a[..k] == b[..k] && a[k] < b[k]
  {
    if a != [] && b != [] {
      if a[0] != b[0] {
        assert a[..0] == b[..0];
        assert forall k | 0 < k < |a| && k < |b| :: a[..k][0] != b[..k][0];
      } else {
        StrLeMeans(a[1..], b[1..]);
        assert a <= b <==> a[1..] <= b[1..];
        forall k | 0 < k < |a| && k < |b|
          ensures a[..k] == b[..k] <==> a[1..][..k - 1] == b[1..][..k - 1]
        {
          assert a[..k] == [a[0]] + a[1..][..k - 1] && b[..k] == [b[0]] + b[1..][..k - 1];
        }
        if k :| 0 <= k < |a[1..]| && k < |b[1..]| && a[1..][..k] == b[1..][..k] && a[1..][k] < b[1..][k] {
          assert a[..k + 1] == b[..k + 1] && a[k + 1] < b[k + 1];
        }
        if k :| 0 <= k < |a| && k < |b| && a[..k] == b[..k] && a[k] < b[k] {
          assert a[1..][k - 1] < b[1..][k - 1];
        }
      }
    }
  }

  lemma {:induction false} StrLeTotal(a: string, b: string)
    ensures StrLe(a, b) || StrLe(b, a)
    ensures StrLe(a, b) && StrLe(b, a) ==> a == b
  {
    if a != [] && b != [] && a[0] == b[0] {
      StrLeTotal(a[1..], b[1..]);
      assert a == [a[0]] + a[1..] && b == [b[0]] + b[1..];
    }
  }

  lemma {:induction false} StrLeTransitive(a: string, b: string, c: string)
    requires StrLe(a, b) && StrLe(b, c)
    ensures StrLe(a, c)
  {
    if a != [] && b != [] && c != [] && a[0] == b[0] == c[0] {
      StrLeTransitive(a[1..], b[1..], c[1..]);
    }
  }

  lemma StrLeIsPreorder()
    ensures TotalPreorder(StrLe)
    ensures forall a, b :: StrLe(a, b) && StrLe(b, a) ==> a == b
  {
    forall a, b {
      StrLeTotal(a, b);
    }
    forall a, b, c | StrLe(a, b) && StrLe(b, c)
      ensures StrLe(a, c)
    {
      StrLeTransitive(a, b, c);
    }
  }

  /** A strictly sorted sequence is determined by its elements. */
  lemma {:induction false} SortedUnique<T(!new)>(s: seq<T>, t: seq<T>, le: (T, T) -> bool)
    requires Sorted(s, le) && Sorted(t, le) && NoDuplicates(s) && NoDuplicates(t)
    requires forall x, y | x in s && y in s && le(x, y) && le(y, x) :: x == y
    requires forall x :: x in s <==> x in t
    ensures s == t
  {
    if s == [] {
      HasMember(t);
    } else {
      assert s[0] in t;
      assert t != [] && t[0] in s;
      HeadIsLeast(s, le, t[0]);
      HeadIsLeast(t, le, s[0]);
      forall x
        ensures x in s[1..] <==> x in t[1..]
      {
        TailMember(s, x);
        TailMember(t, x);
      }
      SortedUnique(s[1..], t[1..], le);
      assert s == [s[0]] + s[1..] && t == [t[0]] + t[1..];
    }
  }

  lemma HasMember<T>(s: seq<T>)
    ensures s == [] || exists x :: x in s
  {
    if s != [] {
      assert s[0] in s;
    }
  }

  lemma HeadIsLeast<T>(s: seq<T>, le: (T, T) -> bool, x: T)
    requires Sorted(s, le) && x in s
    ensures x == s[0] || le(s[0], x)
  {
  }

  lemma TailMember<T>(s: seq<T>, x: T)
    requires s != [] && NoDuplicates(s)
    ensures x in s[1..] <==> x in s && x != s[0]
  {
  }

  function Keys<T>(rows: seq<T>, key: T -> string): (r: seq<string>)
    ensures |r| == |rows| && forall i | 0 <= i < |r| :: r[i] == key(rows[i])
  {
    if rows == [] then [] else [key(rows[0])] + Keys(rows[1..], key)
  }

  lemma KeysConcat<T>(a: seq<T>, b: seq<T>, key: T -> string)
    ensures Keys(a + b, key) == Keys(a, key) + Keys(b, key)
  {
  }

  function Without<T>(b: seq<T>, k: nat): (r: seq<T>)
    requires k < |b|
    ensures |r| == |b| - 1
  {
    b[..k] + b[k + 1..]
  }

  lemma WithoutCounts<T>(b: seq<T>, k: nat)
    requires k < |b|
    ensures multiset(Without(b, k)) == multiset(b) - multiset{b[k]}
  {
    assert b == b[..k] + ([b[k]] + b[k + 1..]);
  }

  lemma KeysMiddle<T>(before: seq<T>, x: T, after: seq<T>, key: T -> string)
    ensures Keys(before + ([x] + after), key) == Keys(before, key) + ([key(x)] + Keys(after, key))
  {
    KeysConcat(before, [x] + after, key);
    assert ([x] + after)[1..] == after;
  }

  lemma KeysOfParts<T>(before: seq<T>, x: T, after: seq<T>, key: T -> string)
    ensures multiset(Keys(before + ([x] + after), key)) == multiset(Keys(before + after, key)) + multiset{key(x)}
  {
    KeysMiddle(before, x, after, key);
    KeysConcat(before, after, key);
    MiddleCounts(Keys(before, key), key(x), Keys(after, key));
  }

  lemma Parted<T>(b: seq<T>, k: nat)
    requires k < |b|
    ensures b == b[..k] + ([b[k]] + b[k + 1..])
  {
  }

  /** Taking one element out takes its key out. */
  lemma KeysWithout<T>(b: seq<T>, k: nat, key: T -> string)
    requires k < |b|
    ensures multiset(Keys(b, key)) == multiset(Keys(Without(b, k), key)) + multiset{key(b[k])}
  {
    KeysOfParts(b[..k], b[k], b[k + 1..], key);
    Parted(b, k);
  }

  lemma MiddleCounts<T>(p: seq<T>, x: T, q: seq<T>)
    ensures multiset(p + ([x] + q)) == multiset(p + q) + multiset{x}
  {
  }

  lemma IndexOf<T>(a: seq<T>, b: seq<T>) returns (k: nat)
    requires multiset(a) == multiset(b) && a != []
    ensures k < |b| && b[k] == a[0]
  {
    SameElements(a, b);
    assert a[0] in b;
    k :| 0 <= k < |b| && b[k] == a[0];
  }

  lemma {:induction false} KeysPermuted<T>(a: seq<T>, b: seq<T>, key: T -> string)
    requires multiset(a) == multiset(b)
    ensures multiset(Keys(a, key)) == multiset(Keys(b, key))
    decreases |a|
  {
    if a == [] {
      assert |multiset(b)| == 0;
    } else {
      var k := IndexOf(a, b);
      var ra, rb := Without(a, 0), Without(b, k);
      assert multiset(ra) == multiset(rb) by {
        WithoutCounts(a, 0);
        WithoutCounts(b, k);
      }
      KeysPermuted(ra, rb, key);
      KeysWithout(a, 0, key);
      KeysWithout(b, k, key);
    }
  }

  /** A sorted sequence of strings is determined by its multiset. */
  lemma {:induction false} SortedStringsUnique(a: seq<string>, b: seq<string>)
    requires multiset(a) == multiset(b)
    requires Sorted(a, (x, y) => StrLe(y, x)) && Sorted(b, (x, y) => StrLe(y, x))
    ensures a == b
  {
    if a == [] {
      assert |multiset(b)| == 0;
    } else {
      SameElements(a, b);
      assert a[0] in b && b[0] in a;
      HeadIsLeast(a, (x, y) => StrLe(y, x), b[0]);
      HeadIsLeast(b, (x, y) => StrLe(y, x), a[0]);
      StrLeTotal(a[0], b[0]);
      assert a == [a[0]] + a[1..] && b == [b[0]] + b[1..];
      assert multiset(a[1..]) == multiset(a) - multiset{a[0]};
      assert multiset(b[1..]) == multiset(b) - multiset{b[0]};
      SortedStringsUnique(a[1..], b[1..]);
    }
  }
}
