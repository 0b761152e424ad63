/** Counting the elements of a sequence that satisfy a predicate. */
module Counting {
  import opened Sorting

  ghost function Count<T(!new)>(s: seq<T>, p: T -> bool): nat
  {
    if s == [] then 0 else (if p(s[0]) then 1 else 0) + Count(s[1..], p)
  }

  lemma {:induction false} CountBound<T(!new)>(s: seq<T>, p: T -> bool)
    ensures Count(s, p) <= |s|
    ensures (forall x :: x in s ==> p(x)) ==> Count(s, p) == |s|
    ensures (forall x :: x in s ==> !p(x)) ==> Count(s, p) == 0
  {
    if s != [] {
      CountBound(s[1..], p);
      assert s[0] in s;
    }
  }

  lemma {:induction false} CountConcat<T(!new)>(s: seq<T>, t: seq<T>, p: T -> bool)
    ensures Count(s + t, p) == Count(s, p) + Count(t, p)
  {
    if s == [] {
      assert s + t == t;
    } else {
      assert (s + t)[1..] == s[1..] + t;
      CountConcat(s[1..], t, p);
    }
  }

  lemma {:induction false} CountMonotone<T(!new)>(s: seq<T>, p: T -> bool, q: T -> bool)
    requires forall x :: x in s && p(x) ==> q(x)
    ensures Count(s, p) <= Count(s, q)
  {
    if s != [] {
      assert s[0] in s;
      CountMonotone(s[1..], p, q);
    }
  }

  lemma {:induction false} CountDisjoint<T(!new)>(s: seq<T>, p: T -> bool, q: T -> bool)
    requires forall x :: x in s ==> !(p(x) && q(x))
    ensures Count(s, p) + Count(s, q) <= |s|
  {
    if s != [] {
      assert s[0] in s;
      CountDisjoint(s[1..], p, q);
    }
  }

  lemma {:induction false} CountInsert<T(!new)>(le: (T, T) -> bool, x: T, s: seq<T>, p: T -> bool)
    ensures Count(Insert(le, x, s), p) == Count(s, p) + if p(x) then 1 else 0
  {
    if s == [] || le(x, s[0]) {
      assert ([x] + s)[1..] == s;
    } else {
      CountInsert(le, x, s[1..], p);
      assert ([s[0]] + Insert(le, x, s[1..]))[1..] == Insert(le, x, s[1..]);
    }
  }

  /** Sorting does not change how many elements satisfy a predicate. */
  lemma {:induction false} CountSort<T(!new)>(le: (T, T) -> bool, s: seq<T>, p: T -> bool)
    ensures Count(Sort(le, s), p) == Count(s, p)
  {
    if s != [] {
      CountSort(le, s[1..], p);
      CountInsert(le, s[0], Sort(le, s[1..]), p);
    }
  }
}
