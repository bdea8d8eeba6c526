/** Stable sorting by a strict weak order, as sort.SliceStable and ORDER BY do it, and Go's order on strings. */
module Sorting {
  function Insert<T>(less: (T, T) -> bool, x: T, s: seq<T>): seq<T> {
    if s == [] || !less(s[0], x) then [x] + s else [s[0]] + Insert(less, x, s[1..])
  }

  function Sort<T>(less: (T, T) -> bool, s: seq<T>): seq<T> {
    if s == [] then [] else Insert(less, s[0], Sort(less, s[1..]))
  }

  ghost predicate Ordered<T>(less: (T, T) -> bool, s: seq<T>) {
    forall i, j :: 0 <= i < j < |s| ==> !less(s[j], s[i])
  }

  ghost predicate Strict<T>(less: (T, T) -> bool, s: seq<T>) {
    forall i, j :: 0 <= i < j < |s| ==> less(s[i], s[j])
  }

  /** Not being less is transitive, and nothing is less both ways. */
  ghost predicate WeakOrder<T(!new)>(less: (T, T) -> bool) {
    && (forall a, b, c :: !less(b, a) && !less(c, b) ==> !less(c, a))
    && (forall a, b :: less(a, b) ==> !less(b, a))
  }

  lemma {:induction false} InsertKeeps<T>(less: (T, T) -> bool, x: T, s: seq<T>)
    ensures multiset(Insert(less, x, s)) == multiset(s) + multiset{x}
  {
    if s != [] && less(s[0], x) {
      InsertKeeps(less, x, s[1..]);
      assert s == [s[0]] + s[1..];
    }
  }

  lemma {:induction false} SortKeeps<T>(less: (T, T) -> bool, s: seq<T>)
    ensures multiset(Sort(less, s)) == multiset(s)
  {
    if s != [] {
      SortKeeps(less, s[1..]);
      InsertKeeps(less, s[0], Sort(less, s[1..]));
      assert s == [s[0]] + s[1..];
    }
  }

  lemma SortMembers<T>(less: (T, T) -> bool, s: seq<T>)
    ensures |Sort(less, s)| == |s| && forall x :: x in Sort(less, s) <==> x in s
  {
    SortKeeps(less, s);
    assert |multiset(Sort(less, s))| == |multiset(s)|;
    forall x ensures x in Sort(less, s) <==> x in s {
      assert x in multiset(Sort(less, s)) <==> x in multiset(s);
    }
  }

  lemma InsertMember<T>(less: (T, T) -> bool, x: T, s: seq<T>, i: nat)
    requires i < |Insert(less, x, s)|
    ensures Insert(less, x, s)[i] == x || Insert(less, x, s)[i] in s
  {
    InsertKeeps(less, x, s);
    assert Insert(less, x, s)[i] in multiset(Insert(less, x, s));
  }

  lemma {:induction false} InsertOrders<T(!new)>(less: (T, T) -> bool, x: T, s: seq<T>)
    requires WeakOrder(less) && Ordered(less, s)
    ensures Ordered(less, Insert(less, x, s))
  {
    if s != [] && less(s[0], x) {
      InsertOrders(less, x, s[1..]);
      var rest := Insert(less, x, s[1..]);
      forall j | 0 <= j < |rest| ensures !less(rest[j], s[0]) {
        InsertMember(less, x, s[1..], j);
      }
    } else if s != [] {
      forall j | 0 <= j < |s| ensures !less(s[j], x) {
        assert j > 0 ==> !less(s[j], s[0]);
      }
    }
  }

  lemma {:induction false} SortOrders<T(!new)>(less: (T, T) -> bool, s: seq<T>)
    requires WeakOrder(less)
    ensures Ordered(less, Sort(less, s))
  {
    if s != [] {
      SortOrders(less, s[1..]);
      InsertOrders(less, s[0], Sort(less, s[1..]));
    }
  }

  /** Being stable, the sort leaves an ordered list alone, equal elements included. */
  lemma {:induction false} OrderedIsFixed<T>(less: (T, T) -> bool, s: seq<T>)
    requires Ordered(less, s)
    ensures Sort(less, s) == s
  {
    if s != [] {
      OrderedIsFixed(less, s[1..]);
      assert s == [s[0]] + s[1..];
    }
  }

  /** No two elements at different places are equal in the order. */
  ghost predicate Apart<T>(less: (T, T) -> bool, s: seq<T>) {
    forall i, j :: 0 <= i < j < |s| ==> less(s[i], s[j]) || less(s[j], s[i])
  }

  lemma {:induction false} InsertStrict<T(!new)>(less: (T, T) -> bool, x: T, s: seq<T>)
    requires WeakOrder(less) && Strict(less, s) && forall i :: 0 <= i < |s| ==> less(s[i], x) || less(x, s[i])
    ensures Strict(less, Insert(less, x, s))
  {
    if s != [] && less(s[0], x) {
      InsertStrict(less, x, s[1..]);
      var rest := Insert(less, x, s[1..]);
      forall j | 0 <= j < |rest| ensures less(s[0], rest[j]) {
        InsertMember(less, x, s[1..], j);
      }
    } else if s != [] {
      forall j | 0 <= j < |s| ensures less(x, s[j]) {
        assert j > 0 ==> !less(s[j], s[0]);
        assert !less(s[j], x);
      }
    }
  }

  lemma {:induction false} SortStrict<T(!new)>(less: (T, T) -> bool, s: seq<T>)
    requires WeakOrder(less) && Apart(less, s)
    ensures Strict(less, Sort(less, s))
  {
    if s != [] {
      SortStrict(less, s[1..]);
      SortMembers(less, s[1..]);
      var rest := Sort(less, s[1..]);
      forall i | 0 <= i < |rest| ensures less(rest[i], s[0]) || less(s[0], rest[i]) {
        assert rest[i] in s[1..];
      }
      InsertStrict(less, s[0], rest);
    }
  }

  /** There is only one strictly increasing list with given elements. */
  lemma {:induction false} StrictUnique<T(!new)>(less: (T, T) -> bool, a: seq<T>, b: seq<T>)
    requires WeakOrder(less) && Strict(less, a) && Strict(less, b) && forall x :: x in a <==> x in b
    ensures a == b
    decreases |a| + |b|
  {
    if a == [] {
      assert forall i :: 0 <= i < |b| ==> b[i] in b;
      assert !(0 < |b|);
    } else {
      assert a[0] in b;
      assert b != [] && b[0] in a;
      assert a[0] == b[0];
      TailsAgree(less, a, b);
      StrictUnique(less, a[1..], b[1..]);
      assert a == [a[0]] + a[1..] && b == [b[0]] + b[1..];
    }
  }

  lemma TailsAgree<T(!new)>(less: (T, T) -> bool, a: seq<T>, b: seq<T>)
    requires WeakOrder(less) && Strict(less, a) && Strict(less, b) && a != [] && b != [] && a[0] == b[0]
    requires forall x :: x in a <==> x in b
    ensures forall x :: x in a[1..] <==> x in b[1..]
  {
    forall x ensures x in a[1..] <==> x in b[1..] {
      assert x in a <==> x == a[0] || x in a[1..];
      assert x in b <==> x == b[0] || x in b[1..];
      HeadNotInTail(less, a);
      HeadNotInTail(less, b);
    }
  }

  lemma HeadNotInTail<T(!new)>(less: (T, T) -> bool, s: seq<T>)
    requires WeakOrder(less) && Strict(less, s) && s != []
    ensures s[0] !in s[1..]
  {
    var rest := s[1..];
    forall i | 0 <= i < |rest| ensures rest[i] != s[0] {
      assert less(s[0], rest[i]);
    }
  }

  // ---- Strings ----

  /** Byte by byte, a proper prefix first. */
  predicate Before(a: string, b: string) {
    b != [] && (a == [] || a[0] < b[0] || (a[0] == b[0] && Before(a[1..], b[1..])))
  }

  lemma {:induction false} BeforeOneWay(a: string, b: string)
    ensures !(Before(a, b) && Before(b, a)) && (Before(a, b) || Before(b, a) || a == b) && !Before(a, a)
  {
    if a != [] { BeforeOneWay(a[1..], a[1..]); }
    if a != [] && b != [] {
      BeforeOneWay(a[1..], b[1..]);
      assert a == [a[0]] + a[1..] && b == [b[0]] + b[1..];
    }
  }

  lemma {:induction false} BeforeTransitive(a: string, b: string, c: string)
    requires !Before(b, a) && !Before(c, b)
    ensures !Before(c, a)
  {
    if a != [] && b != [] && c != [] && a[0] == b[0] == c[0] {
      BeforeTransitive(a[1..], b[1..], c[1..]);
    }
  }

  /** One comes before the other at the first place where they differ, by that character or by ending there. */
  lemma {:induction false} BeforeMeaning(a: string, b: string)
    ensures Before(a, b) <==>
              exists i :: 0 <= i <= |a| && i < |b| && a[..i] == b[..i] && (i == |a| || a[i] < b[i])
  {
    if a != [] && b != [] && a[0] == b[0] {
      BeforeMeaning(a[1..], b[1..]);
      if Before(a, b) {
        var c, d := a[1..], b[1..];
        var i :| 0 <= i <= |c| && i < |d| && c[..i] == d[..i] && (i == |c| || c[i] < d[i]);
        assert a[..i + 1] == [a[0]] + c[..i] && b[..i + 1] == [b[0]] + d[..i];
      }
      if i :| 0 <= i <= |a| && i < |b| && a[..i] == b[..i] && (i == |a| || a[i] < b[i]) {
        assert i > 0;
        assert a[1..][..i - 1] == a[..i][1..] && b[1..][..i - 1] == b[..i][1..];
      }
    } else if b != [] {
      assert a[..0] == b[..0];
      assert forall i :: 0 < i <= |a| && i < |b| ==> a[..i][0] == a[0] && b[..i][0] == b[0];
    }
  }
}
