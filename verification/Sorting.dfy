/** What the library sorts promise: `sort.Strings` and `sort.Slice` some sorted permutation,
    `sort.SliceStable` the one that keeps equals in order. */
module Sorting {
  import opened Text

  /** `le` is a total preorder. */
  ghost predicate Preorder<T(!new)>(le: (T, T) -> bool) {
    (forall x, y :: le(x, y) || le(y, x)) &&
    (forall x, y, z :: le(x, y) && le(y, z) ==> le(x, z))
  }

  ghost predicate Sorted<T>(le: (T, T) -> bool, s: seq<T>) {
    forall i: nat, j: nat | i < j < |s| :: le(s[i], s[j])
  }

  /** Elements of `s` that compare equal are equal. */
  ghost predicate Distinguishes<T>(le: (T, T) -> bool, s: seq<T>) {
    forall x, y | x in s && y in s && le(x, y) && le(y, x) :: x == y
  }

  /** Puts `x` in front of the first element it is not after. */
  function Insert<T>(le: (T, T) -> bool, x: T, s: seq<T>): seq<T> {
    if s == [] || le(x, s[0]) then [x] + s else [s[0]] + Insert(le, x, s[1..])
  }

  /** The stable sort. */
  function SortStable<T>(le: (T, T) -> bool, s: seq<T>): seq<T> {
    if s == [] then [] else Insert(le, s[0], SortStable(le, s[1..]))
  }

  lemma {:induction false} InsertKeeps<T>(le: (T, T) -> bool, x: T, s: seq<T>)
    ensures multiset(Insert(le, x, s)) == multiset(s) + multiset{x}
  {
    if s != [] && !le(x, s[0]) {
      InsertKeeps(le, x, s[1..]);
      assert s == [s[0]] + s[1..];
    }
  }

  lemma {:induction false} SortKeeps<T>(le: (T, T) -> bool, s: seq<T>)
    ensures multiset(SortStable(le, s)) == multiset(s) && |SortStable(le, s)| == |s|
  {
    if s != [] {
      SortKeeps(le, s[1..]);
      InsertKeeps(le, s[0], SortStable(le, s[1..]));
      assert s == [s[0]] + s[1..];
    }
    assert |multiset(SortStable(le, s))| == |SortStable(le, s)| && |multiset(s)| == |s|;
  }

  lemma SameElements<T>(s: seq<T>, t: seq<T>, x: T)
    requires multiset(s) == multiset(t)
    ensures x in s <==> x in t
  {
    assert x in s <==> x in multiset(s);
    assert x in t <==> x in multiset(t);
  }

  lemma {:induction false} InsertSorted<T(!new)>(le: (T, T) -> bool, x: T, s: seq<T>)
    requires Preorder(le) && Sorted(le, s)
    ensures Sorted(le, Insert(le, x, s))
  {
    if s != [] && !le(x, s[0]) {
      InsertSorted(le, x, s[1..]);
      var r := Insert(le, x, s[1..]);
      InsertKeeps(le, x, s[1..]);
      forall j: nat | j < |r|
        ensures le(s[0], r[j])
      {
        assert r[j] in multiset(r);
        assert r[j] in s[1..] || r[j] == x;
      }
    }
  }

  lemma {:induction false} SortSorts<T(!new)>(le: (T, T) -> bool, s: seq<T>)
    requires Preorder(le)
    ensures Sorted(le, SortStable(le, s))
  {
    if s != [] {
      SortSorts(le, s[1..]);
      InsertSorted(le, s[0], SortStable(le, s[1..]));
    }
  }

  /** Taking one element out of the middle. */
  lemma WithoutOne<T>(left: seq<T>, x: T, right: seq<T>)
    ensures multiset(left + right) == multiset(left + [x] + right) - multiset{x}
  {
  }

  lemma SortedHead<T>(le: (T, T) -> bool, s: seq<T>, x: T)
    requires Sorted(le, s) && x in s
    ensures x == s[0] || le(s[0], x)
  {
  }

  lemma TailOf<T>(s: seq<T>)
    requires s != []
    ensures multiset(s[1..]) == multiset(s) - multiset{s[0]}
    ensures forall x | x in s[1..] :: x in s
  {
    WithoutOne([], s[0], s[1..]);
    assert [] + [s[0]] + s[1..] == s && [] + s[1..] == s[1..];
  }

  /** There is only one way to sort elements that the order tells apart, whatever algorithm does it. */
  lemma {:induction false} SortedIsUnique<T>(le: (T, T) -> bool, s: seq<T>, t: seq<T>)
    requires Sorted(le, s) && Sorted(le, t) && multiset(s) == multiset(t) && Distinguishes(le, s)
    ensures s == t
  {
    assert |s| == |multiset(s)| == |multiset(t)| == |t|;
    if s != [] {
      SameElements(s, t, s[0]);
      SameElements(s, t, t[0]);
      SortedHead(le, s, t[0]);
      SortedHead(le, t, s[0]);
      assert s[0] == t[0];
      var s', t' := s[1..], t[1..];
      TailOf(s);
      TailOf(t);
      SortedIsUnique(le, s', t');
    }
  }

  /** The library sort without a stability promise: some sorted permutation. */
  method SortSlice<T(!new)>(le: (T, T) -> bool, s: seq<T>) returns (r: seq<T>)
    requires Preorder(le)
    ensures Sorted(le, r) && multiset(r) == multiset(s)
  {
    SortKeeps(le, s);
    SortSorts(le, s);
    r := SortStable(le, s);
  }

  /** Strings in byte order. */
  const StringLe: (string, string) -> bool := (a, b) => !StrLess(b, a)

  lemma StringLePreorder()
    ensures Preorder(StringLe)
    ensures forall a, b :: StringLe(a, b) && StringLe(b, a) ==> a == b
  {
    forall a: string, b: string
      ensures StringLe(a, b) || StringLe(b, a)
      ensures StringLe(a, b) && StringLe(b, a) ==> a == b
    {
      if StrLess(a, b) && StrLess(b, a) {
        StrLessTransitive(a, b, a);
        StrLessIrreflexive(a);
      }
      if a != b {
        StrLessConnected(a, b);
      }
    }
    forall a: string, b: string, c: string | StringLe(a, b) && StringLe(b, c)
      ensures StringLe(a, c)
    {
      if StrLess(c, a) {
        if a != b {
          StrLessConnected(a, b);
          StrLessTransitive(c, a, b);
        }
      }
    }
  }
}
