/** Python's `sorted` with a key made of strings. */
module Ordering {

  /** Strings compare by code point. */
  predicate Less(s: string, t: string) {
    if t == "" then false
    else if s == "" then true
    else s[0] < t[0] || (s[0] == t[0] && Less(s[1..], t[1..]))
  }

  /** Tuples compare by their first difference. */
  predicate TupleLess(a: seq<string>, b: seq<string>) {
    if b == [] then false
    else if a == [] then true
    else Less(a[0], b[0]) || (a[0] == b[0] && TupleLess(a[1..], b[1..]))
  }

  lemma {:induction false} LessIsTotal(s: string, t: string)
    ensures s == t || Less(s, t) || Less(t, s)
    ensures !(Less(s, t) && Less(t, s)) && !Less(s, s)
  {
    if s != "" && t != "" {
      LessIsTotal(s[1..], t[1..]);
      assert s == [s[0]] + s[1..] && t == [t[0]] + t[1..];
    }
    if s != "" {
      LessIsTotal(s[1..], s[1..]);
    }
  }

  lemma {:induction false} LessIsTransitive(s: string, t: string, u: string)
    requires Less(s, t) && Less(t, u)
    ensures Less(s, u)
  {
    if s != "" && s[0] == t[0] == u[0] {
      LessIsTransitive(s[1..], t[1..], u[1..]);
    }
  }

  lemma {:induction false} TupleLessIsTotal(a: seq<string>, b: seq<string>)
    ensures a == b || TupleLess(a, b) || TupleLess(b, a)
    ensures !(TupleLess(a, b) && TupleLess(b, a)) && !TupleLess(a, a)
  {
    if a != [] && b != [] {
      LessIsTotal(a[0], b[0]);
      TupleLessIsTotal(a[1..], b[1..]);
      assert a == [a[0]] + a[1..] && b == [b[0]] + b[1..];
    }
    if a != [] {
      LessIsTotal(a[0], a[0]);
      TupleLessIsTotal(a[1..], a[1..]);
    }
  }

  lemma {:induction false} TupleLessIsTransitive(a: seq<string>, b: seq<string>, c: seq<string>)
    requires TupleLess(a, b) && TupleLess(b, c)
    ensures TupleLess(a, c)
  {
    if a != [] {
      LessIsTotal(a[0], a[0]);
      if a[0] == b[0] == c[0] {
        TupleLessIsTransitive(a[1..], b[1..], c[1..]);
      } else if Less(a[0], b[0]) && Less(b[0], c[0]) {
        LessIsTransitive(a[0], b[0], c[0]);
      }
    }
  }

  function Inserted<T>(x: T, xs: seq<T>, key: T -> seq<string>): seq<T> {
    if xs == [] || !TupleLess(key(xs[0]), key(x)) then [x] + xs
    else [xs[0]] + Inserted(x, xs[1..], key)
  }

  /** `sorted(xs, key=key)`: stable. */
  function SortedBy<T>(xs: seq<T>, key: T -> seq<string>): seq<T> {
    if xs == [] then [] else Inserted(xs[0], SortedBy(xs[1..], key), key)
  }

  ghost predicate DistinctBy<T>(xs: seq<T>, key: T -> seq<string>) {
    forall i, j :: 0 <= i < j < |xs| ==> key(xs[i]) != key(xs[j])
  }

  ghost predicate AscendingBy<T>(xs: seq<T>, key: T -> seq<string>) {
    forall i, j :: 0 <= i < j < |xs| ==> TupleLess(key(xs[i]), key(xs[j]))
  }

  lemma {:induction false} InsertedEntries<T>(x: T, xs: seq<T>, key: T -> seq<string>)
    ensures multiset(Inserted(x, xs, key)) == multiset(xs) + multiset{x}
  {
    if xs != [] && TupleLess(key(xs[0]), key(x)) {
      InsertedEntries(x, xs[1..], key);
      assert xs == [xs[0]] + xs[1..];
    }
  }

  lemma {:induction false} SortedEntries<T>(xs: seq<T>, key: T -> seq<string>)
    ensures multiset(SortedBy(xs, key)) == multiset(xs)
    ensures forall x :: x in SortedBy(xs, key) <==> x in xs
  {
    if xs != [] {
      SortedEntries(xs[1..], key);
      InsertedEntries(xs[0], SortedBy(xs[1..], key), key);
      assert xs == [xs[0]] + xs[1..];
    }
    forall x ensures x in SortedBy(xs, key) <==> x in xs {
      assert x in SortedBy(xs, key) <==> x in multiset(SortedBy(xs, key));
    }
  }

  lemma AscendingCons<T>(x: T, xs: seq<T>, key: T -> seq<string>)
    requires AscendingBy(xs, key)
    requires xs != [] ==> TupleLess(key(x), key(xs[0]))
    ensures AscendingBy([x] + xs, key)
  {
    forall k | 0 <= k < |xs| ensures TupleLess(key(x), key(xs[k])) {
      if k > 0 { TupleLessIsTransitive(key(x), key(xs[0]), key(xs[k])); }
    }
  }

  lemma {:induction false} InsertedAscending<T>(x: T, xs: seq<T>, key: T -> seq<string>)
    requires AscendingBy(xs, key) && forall i :: 0 <= i < |xs| ==> key(xs[i]) != key(x)
    ensures AscendingBy(Inserted(x, xs, key), key)
    ensures Inserted(x, xs, key)[0] == x || (xs != [] && Inserted(x, xs, key)[0] == xs[0])
  {
    if xs == [] {
    } else if !TupleLess(key(xs[0]), key(x)) {
      TupleLessIsTotal(key(x), key(xs[0]));
      AscendingCons(x, xs, key);
    } else {
      InsertedAscending(x, xs[1..], key);
      AscendingCons(xs[0], Inserted(x, xs[1..], key), key);
    }
  }

  lemma {:induction false} SortedAscending<T>(xs: seq<T>, key: T -> seq<string>)
    requires DistinctBy(xs, key)
    ensures AscendingBy(SortedBy(xs, key), key)
  {
    if xs != [] {
      var rest := SortedBy(xs[1..], key);
      SortedAscending(xs[1..], key);
      SortedEntries(xs[1..], key);
      forall i | 0 <= i < |rest| ensures key(rest[i]) != key(xs[0]) {
        var y := rest[i];
        assert y in rest;
        assert y in multiset(rest);
        assert y in multiset(xs[1..]);
        var j :| 0 <= j < |xs[1..]| && xs[1..][j] == y;
        assert xs[j + 1] == y;
      }
      InsertedAscending(xs[0], rest, key);
    }
  }

  lemma AscendingIsDistinct<T>(xs: seq<T>, key: T -> seq<string>)
    requires AscendingBy(xs, key)
    ensures DistinctBy(xs, key)
  {
    forall i, j | 0 <= i < j < |xs| ensures key(xs[i]) != key(xs[j]) {
      TupleLessIsTotal(key(xs[i]), key(xs[j]));
    }
  }

  /** A set of entries has one ascending list. */
  lemma {:induction false} AscendingUnique<T>(a: seq<T>, b: seq<T>, key: T -> seq<string>)
    requires AscendingBy(a, key) && AscendingBy(b, key)
    requires forall x :: x in a <==> x in b
    ensures a == b
    decreases |a|
  {
    assert (a == [] || a[0] in a) && (b == [] || b[0] in b);
    if a != [] {
      AscendingHead(a, b, key);
      AscendingHead(b, a, key);
      TupleLessIsTotal(key(a[0]), key(b[0]));
      AscendingTail(a, key);
      AscendingTail(b, key);
      assert a == [a[0]] + a[1..] && b == [b[0]] + b[1..];
      AscendingUnique(a[1..], b[1..], key);
    }
  }

  lemma AscendingHead<T>(a: seq<T>, b: seq<T>, key: T -> seq<string>)
    requires AscendingBy(a, key) && a != [] && b != []
    requires forall x :: x in b ==> x in a
    ensures b[0] == a[0] || TupleLess(key(a[0]), key(b[0]))
  {
    assert b[0] in b;
    var i :| 0 <= i < |a| && a[i] == b[0];
  }

  lemma AscendingTail<T>(a: seq<T>, key: T -> seq<string>)
    requires AscendingBy(a, key) && a != []
    ensures AscendingBy(a[1..], key) && forall x :: x in a[1..] <==> x in a && x != a[0]
  {
    forall x | x in a[1..] ensures x in a && x != a[0] {
      var i :| 0 <= i < |a[1..]| && a[1..][i] == x;
      assert a[i + 1] == x && TupleLess(key(a[0]), key(x));
      TupleLessIsTotal(key(a[0]), key(x));
    }
  }

  /** Sorting forgets the order of the input, and nothing else. */
  lemma SortingDecidesEntries<T>(a: seq<T>, b: seq<T>, key: T -> seq<string>)
    requires DistinctBy(a, key) && DistinctBy(b, key)
    ensures SortedBy(a, key) == SortedBy(b, key) <==> |a| == |b| && forall i :: 0 <= i < |a| ==> a[i] in b
  {
    SortedAscending(a, key);
    SortedAscending(b, key);
    SortedEntries(a, key);
    SortedEntries(b, key);
    if SortedBy(a, key) == SortedBy(b, key) {
      assert |a| == |multiset(a)| == |multiset(b)| == |b|;
      forall i | 0 <= i < |a| ensures a[i] in b {
        assert a[i] in SortedBy(a, key);
      }
    }
    if |a| == |b| && forall i :: 0 <= i < |a| ==> a[i] in b {
      SameEntries(a, b, key);
      AscendingUnique(SortedBy(a, key), SortedBy(b, key), key);
    }
  }

  /** Equally many distinct entries, one list inside the other: the same entries. */
  lemma SameEntries<T>(a: seq<T>, b: seq<T>, key: T -> seq<string>)
    requires DistinctBy(a, key) && DistinctBy(b, key) && |a| == |b|
    requires forall i :: 0 <= i < |a| ==> a[i] in b
    ensures forall x :: x in b ==> x in a
  {
    var sa, sb := set x | x in a, set x | x in b;
    EntryCount(a, key);
    EntryCount(b, key);
    assert sa <= sb;
    assert sb == sa + (sb - sa);
    forall x | x in b ensures x in a {
      assert x in sb;
    }
  }

  lemma {:induction false} EntryCount<T>(a: seq<T>, key: T -> seq<string>)
    requires DistinctBy(a, key)
    ensures |set x | x in a| == |a|
  {
    if a != [] {
      var n := |a| - 1;
      EntryCount(a[..n], key);
      assert a == a[..n] + [a[n]];
      var before := set x | x in a[..n];
      assert (set x | x in a) == before + {a[n]};
      assert a[n] !in before;
    }
  }
}
