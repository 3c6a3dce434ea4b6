/**
 Keeping the best k elements of a set, and sorted sequences without ties.

 `above(x, y)` reads "x ranks before y". Nothing here depends on what is ranked: the
 history table and the conversation view both prune with it.
 */
module Ranking {

  ghost predicate StrictOrder<T(!new)>(above: (T, T) -> bool) {
    && (forall x :: !above(x, x))
    && (forall x, y, z {:trigger above(x, y), above(y, z)} :: above(x, y) && above(y, z) ==> above(x, z))
  }

  ghost predicate TotalOn<T(!new)>(above: (T, T) -> bool, s: set<T>) {
    forall x, y | x in s && y in s :: x == y || above(x, y) || above(y, x)
  }

  function Better<T>(s: set<T>, above: (T, T) -> bool, x: T): set<T> {
    set y | y in s && above(y, x)
  }

  /** The k best elements of s. */
  function Top<T>(s: set<T>, above: (T, T) -> bool, k: nat): set<T> {
    set x | x in s && |Better(s, above, x)| < k
  }

  lemma SubsetSize<T>(a: set<T>, b: set<T>)
    requires a <= b
    ensures |a| <= |b|
  {
    assert b == a + (b - a);
  }

  /** Every non-empty totally ordered finite set has a worst element. */
  lemma {:induction false} Worst<T(!new)>(s: set<T>, above: (T, T) -> bool) returns (w: T)
    requires s != {} && StrictOrder(above) && TotalOn(above, s)
    ensures w in s && forall x | x in s :: x == w || above(x, w)
  {
    var first :| first in s;
    var rest := s - {first};
    w := first;
    if rest != {} {
      var v := Worst(rest, above);
      if above(first, v) { w := v; }
    }
    assert forall x | x in s :: x == first || x in rest;
  }

  lemma BetterGrows<T(!new)>(s: set<T>, t: set<T>, above: (T, T) -> bool, x: T)
    requires s <= t
    ensures |Better(s, above, x)| <= |Better(t, above, x)|
  {
    SubsetSize(Better(s, above, x), Better(t, above, x));
  }

  lemma TopIsUpward<T(!new)>(s: set<T>, above: (T, T) -> bool, k: nat, x: T, y: T)
    requires StrictOrder(above)
    requires x in Top(s, above, k) && y in s && above(y, x)
    ensures y in Top(s, above, k)
  {
    SubsetSize(Better(s, above, y), Better(s, above, x));
  }

  /** An element worse than all of s is among the best k only if s leaves room for it. */
  lemma AddWorst<T(!new)>(s: set<T>, w: T, above: (T, T) -> bool, k: nat)
    requires StrictOrder(above) && w !in s && forall x | x in s :: above(x, w)
    ensures Top(s + {w}, above, k) == if |s| < k then Top(s, above, k) + {w} else Top(s, above, k)
  {
    assert Better(s + {w}, above, w) == s;
    forall x | x in s
      ensures Better(s + {w}, above, x) == Better(s, above, x)
    {
      assert !above(w, x);
    }
  }

  /** Top really is "the k best": it has min(k, |s|) elements and none outside beats one inside. */
  lemma {:induction false} TopSize<T(!new)>(s: set<T>, above: (T, T) -> bool, k: nat)
    requires StrictOrder(above) && TotalOn(above, s)
    ensures |Top(s, above, k)| == if |s| < k then |s| else k
    ensures forall x, y | x in Top(s, above, k) && y in s - Top(s, above, k) :: above(x, y)
  {
    if s == {} {
      assert Top(s, above, k) == {};
    } else {
      var w := Worst(s, above);
      var rest := s - {w};
      TopSize(rest, above, k);
      assert s == rest + {w};
      AddWorst(rest, w, above, k);
    }
    forall x, y | x in Top(s, above, k) && y in s - Top(s, above, k)
      ensures above(x, y)
    {
      if above(y, x) { TopIsUpward(s, above, k, x, y); }
    }
  }

  /** Forgetting elements that were not among the best does not change the best. */
  lemma TopStable<T(!new)>(s: set<T>, t: set<T>, above: (T, T) -> bool, k: nat)
    requires StrictOrder(above) && TotalOn(above, s)
    requires Top(s, above, k) <= t <= s
    ensures Top(t, above, k) == Top(s, above, k)
  {
    TopSize(s, above, k);
    forall x | x in t
      ensures x in Top(t, above, k) <==> x in Top(s, above, k)
    {
      BetterGrows(t, s, above, x);
      if x !in Top(s, above, k) {
        BetterGrows(s, s, above, x);
        SubsetSize(Better(s, above, x), s);
        SubsetSize(Top(s, above, k), Better(t, above, x));
      }
    }
  }

  /** Streaming: pruning before adding more loses nothing. */
  lemma TopStreams<T(!new)>(s: set<T>, more: set<T>, above: (T, T) -> bool, k: nat)
    requires StrictOrder(above) && TotalOn(above, s + more)
    ensures Top(Top(s, above, k) + more, above, k) == Top(s + more, above, k)
  {
    forall x | x in Top(s + more, above, k)
      ensures x in Top(s, above, k) + more
    {
      if x in s { BetterGrows(s, s + more, above, x); }
    }
    TopStable(s + more, Top(s, above, k) + more, above, k);
  }

  // ------------------------------------------------------------ sorted sequences

  ghost predicate Ascending<T(!new)>(s: seq<T>, less: (T, T) -> bool) {
    forall i, j | 0 <= i < j < |s| :: less(s[i], s[j])
  }

  ghost function Elements<T>(s: seq<T>): set<T> {
    set x | x in s
  }

  /** A set has at most one strictly ascending listing. */
  lemma {:induction false} AscendingIsUnique<T(!new)>(a: seq<T>, b: seq<T>, less: (T, T) -> bool)
    requires StrictOrder(less)
    requires Ascending(a, less) && Ascending(b, less)
    requires Elements(a) == Elements(b)
    ensures a == b
  {
    assert a != [] ==> a[0] in Elements(b);
    assert b != [] ==> b[0] in Elements(a);
    if a != [] {
      assert forall i | 1 <= i < |b| :: less(b[0], b[i]);
      assert forall j | 1 <= j < |a| :: less(a[0], a[j]);
      assert Elements(a[1..]) == Elements(a) - {a[0]} by { HeadIsNotInTail(a, less); }
      assert Elements(b[1..]) == Elements(b) - {b[0]} by { HeadIsNotInTail(b, less); }
      AscendingIsUnique(a[1..], b[1..], less);
      assert a == [a[0]] + a[1..] && b == [b[0]] + b[1..];
    }
  }

  lemma HeadIsNotInTail<T(!new)>(a: seq<T>, less: (T, T) -> bool)
    requires StrictOrder(less) && Ascending(a, less) && a != []
    ensures Elements(a[1..]) == Elements(a) - {a[0]}
  {
    forall x | x in a
      ensures x == a[0] || x in a[1..]
    {
      var i :| 0 <= i < |a| && a[i] == x;
      if i > 0 { assert a[1..][i - 1] == x; }
    }
    assert a[0] !in a[1..] by {
      assert forall i | 1 <= i < |a| :: less(a[0], a[i]);
    }
  }

  lemma {:induction false} AscendingSize<T(!new)>(v: seq<T>, less: (T, T) -> bool)
    requires StrictOrder(less) && Ascending(v, less)
    ensures |Elements(v)| == |v|
  {
    if v != [] {
      AscendingSize(v[1..], less);
      HeadIsNotInTail(v, less);
      assert v[0] in Elements(v);
    }
  }

  function Tail<T>(v: seq<T>, k: nat): seq<T> {
    if |v| > k then v[|v| - k..] else v
  }

  /** The tail of an ascending sequence holds its greatest elements. */
  lemma {:induction false} TailIsTop<T(!new)>(v: seq<T>, less: (T, T) -> bool, above: (T, T) -> bool, k: nat)
    requires StrictOrder(less) && StrictOrder(above) && Ascending(v, less)
    requires forall x, y {:trigger less(x, y)} {:trigger above(y, x)} :: less(x, y) <==> above(y, x)
    ensures Elements(Tail(v, k)) == Top(Elements(v), above, k)
  {
    if v == [] {
      assert Elements(v) == {};
    } else {
      var rest := v[1..];
      TailIsTop(rest, less, above, k);
      AscendingSize(rest, less);
      HeadIsWorst(v, less, above);
      AddWorst(Elements(rest), v[0], above, k);
      TailOfTail(v, k);
    }
  }

  lemma TailOfTail<T>(v: seq<T>, k: nat)
    requires v != []
    ensures Tail(v, k) == if |v| > k then Tail(v[1..], k) else v
    ensures |v| <= k ==> Tail(v[1..], k) == v[1..]
  {
  }

  lemma HeadIsWorst<T(!new)>(v: seq<T>, less: (T, T) -> bool, above: (T, T) -> bool)
    requires StrictOrder(less) && Ascending(v, less) && v != []
    requires forall x, y {:trigger less(x, y)} {:trigger above(y, x)} :: less(x, y) <==> above(y, x)
    ensures v[0] !in Elements(v[1..]) && Elements(v) == Elements(v[1..]) + {v[0]}
    ensures forall x | x in Elements(v[1..]) :: above(x, v[0])
  {
    var rest := v[1..];
    HeadIsNotInTail(v, less);
    assert v[0] in Elements(v);
    assert Elements(v) == Elements(rest) + {v[0]};
    forall x | x in Elements(rest) ensures above(x, v[0]) {
      var i :| 0 <= i < |rest| && rest[i] == x;
      assert less(v[0], v[i + 1]);
    }
  }

  /** Stable insertion sort: an element goes before every later one that is not smaller. */
  function Insert<T>(x: T, s: seq<T>, less: (T, T) -> bool): (r: seq<T>)
    ensures multiset(r) == multiset(s) + multiset{x}
  {
    if s == [] || !less(s[0], x) then [x] + s
    else
      assert s == [s[0]] + s[1..];
      [s[0]] + Insert(x, s[1..], less)
  }

  function Sort<T>(s: seq<T>, less: (T, T) -> bool): (r: seq<T>)
    ensures multiset(r) == multiset(s)
  {
    if s == [] then []
    else
      assert s == [s[0]] + s[1..];
      Insert(s[0], Sort(s[1..], less), less)
  }

  lemma SameElements<T>(a: seq<T>, b: seq<T>)
    requires multiset(a) == multiset(b)
    ensures Elements(a) == Elements(b) && |a| == |b|
  {
    assert |multiset(a)| == |a| && |multiset(b)| == |b|;
    forall x ensures x in a <==> x in b { assert x in multiset(a) <==> x in multiset(b); }
  }

  ghost predicate Distinct<T>(s: seq<T>) {
    forall i, j | 0 <= i < j < |s| :: s[i] != s[j]
  }

  lemma {:induction false} InsertAscending<T(!new)>(x: T, s: seq<T>, less: (T, T) -> bool)
    requires StrictOrder(less) && TotalOn(less, Elements(s) + {x})
    requires Ascending(s, less) && x !in s
    ensures Ascending(Insert(x, s, less), less)
  {
    if s != [] && less(s[0], x) {
      InsertAscending(x, s[1..], less);
      var tail := Insert(x, s[1..], less);
      forall j | 0 <= j < |tail| ensures less(s[0], tail[j]) {
        assert tail[j] in multiset(tail);
        if tail[j] != x { assert tail[j] in s[1..]; }
      }
    } else if s != [] {
      assert s[0] in Elements(s);
      assert less(x, s[0]);
    }
  }

  /** With no ties the sorted sequence is strictly ascending. */
  lemma {:induction false} SortAscending<T(!new)>(s: seq<T>, less: (T, T) -> bool)
    requires StrictOrder(less) && TotalOn(less, Elements(s)) && Distinct(s)
    ensures Ascending(Sort(s, less), less)
  {
    if s != [] {
      SortAscending(s[1..], less);
      SameElements(s[1..], Sort(s[1..], less));
      assert s[0] !in s[1..];
      assert Elements(Sort(s[1..], less)) + {s[0]} <= Elements(s);
      InsertAscending(s[0], Sort(s[1..], less), less);
    }
  }

  // ------------------------------------------------------------ sorting with ties

  /** Nothing comes before itself, and not coming after is transitive: ties are alike. */
  ghost predicate WeakOrder<T(!new)>(less: (T, T) -> bool) {
    && (forall x, y :: less(x, y) ==> !less(y, x))
    && forall x, y, z {:trigger less(y, x), less(z, y)} :: !less(y, x) && !less(z, y) ==> !less(z, x)
  }

  ghost predicate InOrder<T(!new)>(s: seq<T>, less: (T, T) -> bool) {
    forall i, j | 0 <= i < j < |s| :: !less(s[j], s[i])
  }

  lemma {:induction false} InsertKeepsOrder<T(!new)>(x: T, s: seq<T>, less: (T, T) -> bool)
    requires WeakOrder(less) && InOrder(s, less)
    ensures InOrder(Insert(x, s, less), less)
    decreases |s|
  {
    if s == [] || !less(s[0], x) {
      forall j | 0 <= j < |s| ensures !less(s[j], x) {
        if j > 0 { assert !less(s[j], s[0]); }
      }
    } else {
      InsertKeepsOrder(x, s[1..], less);
      var rest := Insert(x, s[1..], less);
      forall j | 0 <= j < |rest| ensures !less(rest[j], s[0]) {
        assert rest[j] in multiset(rest);
        assert rest[j] in s[1..] || rest[j] == x;
      }
    }
  }

  lemma {:induction false} SortInOrder<T(!new)>(s: seq<T>, less: (T, T) -> bool)
    requires WeakOrder(less)
    ensures InOrder(Sort(s, less), less)
    decreases |s|
  {
    if s != [] {
      SortInOrder(s[1..], less);
      InsertKeepsOrder(s[0], Sort(s[1..], less), less);
    }
  }

  predicate Ties<T>(x: T, y: T, less: (T, T) -> bool) {
    !less(x, y) && !less(y, x)
  }

  /** The elements that tie with z, in their order. */
  function Tied<T>(s: seq<T>, z: T, less: (T, T) -> bool): seq<T> {
    if s == [] then [] else (if Ties(s[0], z, less) then [s[0]] else []) + Tied(s[1..], z, less)
  }

  lemma {:induction false} TiedStep<T>(x: T, s: seq<T>, z: T, less: (T, T) -> bool)
    ensures Tied([x] + s, z, less) == (if Ties(x, z, less) then [x] else []) + Tied(s, z, less)
  {
    assert ([x] + s)[1..] == s;
  }

  lemma {:induction false} InsertIsStable<T(!new)>(x: T, s: seq<T>, z: T, less: (T, T) -> bool)
    requires WeakOrder(less)
    ensures Tied(Insert(x, s, less), z, less) == Tied([x] + s, z, less)
    decreases |s|
  {
    if s != [] && less(s[0], x) {
      var first, more := s[0], s[1..];
      InsertIsStable(x, more, z, less);
      TiedStep(first, Insert(x, more, less), z, less);
      TiedStep(x, more, z, less);
      TiedStep(x, s, z, less);
      OneTies(first, x, z, less);
    }
  }

  /** Of two elements in order at most one ties with a third. */
  lemma OneTies<T(!new)>(x: T, y: T, z: T, less: (T, T) -> bool)
    requires WeakOrder(less) && less(x, y)
    ensures !(Ties(x, z, less) && Ties(y, z, less))
  {
  }

  /** Sorting leaves elements that tie in the order they had. */
  lemma {:induction false} SortIsStable<T(!new)>(s: seq<T>, z: T, less: (T, T) -> bool)
    requires WeakOrder(less)
    ensures Tied(Sort(s, less), z, less) == Tied(s, z, less)
    decreases |s|
  {
    if s != [] {
      SortIsStable(s[1..], z, less);
      var sorted := Sort(s[1..], less);
      InsertIsStable(s[0], sorted, z, less);
      TiedStep(s[0], sorted, z, less);
    }
  }
}
