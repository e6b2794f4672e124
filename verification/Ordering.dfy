/** Lexicographic order on strings, and sorting by a string key: the order in
    which the scheduler walks pending tasks, breaks ties and lists addresses. */
module Ordering {

  predicate Less(a: string, b: string) {
    if b == "" then false
    else if a == "" then true
    else a[0] < b[0] || (a[0] == b[0] && Less(a[1..], b[1..]))
  }

  lemma LessIrreflexive(a: string)
    ensures !Less(a, a)
  {
  }

  lemma {:induction false} LessTransitive(a: string, b: string, c: string)
    requires Less(a, b) && Less(b, c)
    ensures Less(a, c)
  {
    if a != "" && a[0] == b[0] && b[0] == c[0] {
      LessTransitive(a[1..], b[1..], c[1..]);
    }
  }

  lemma {:induction false} LessTotal(a: string, b: string)
    ensures Less(a, b) || a == b || Less(b, a)
    ensures !(Less(a, b) && Less(b, a))
  {
    if a != "" && b != "" && a[0] == b[0] {
      LessTotal(a[1..], b[1..]);
      assert a == [a[0]] + a[1..] && b == [b[0]] + b[1..];
    }
  }

  /** `a` and `b` agree before position `k`, where `a` ends or has the smaller
      character. */
  predicate FallsBehindAt(a: string, b: string, k: nat) {
    && k <= |a| && k < |b| && a[..k] == b[..k]
    && (k == |a| || a[k] < b[k])
  }

  lemma SameHead(a: string, b: string)
    ensures forall k: nat | k > 0 && FallsBehindAt(a, b, k) :: a[0] == b[0]
  {
    forall k: nat | k > 0 && FallsBehindAt(a, b, k) ensures a[0] == b[0] {
      assert a[..k][0] == b[..k][0];
    }
  }

  /** The order of a dictionary. */
  lemma {:induction false} LessIff(a: string, b: string)
    ensures Less(a, b) <==> exists k: nat :: FallsBehindAt(a, b, k)
  {
    if a != "" && b != "" && a[0] == b[0] {
      LessIff(a[1..], b[1..]);
      if k: nat :| FallsBehindAt(a[1..], b[1..], k) {
        assert a[..k + 1] == [a[0]] + a[1..][..k] && b[..k + 1] == [b[0]] + b[1..][..k];
        assert FallsBehindAt(a, b, k + 1);
      }
      if k: nat :| FallsBehindAt(a, b, k) {
        assert k > 0;
        assert a[1..][..k - 1] == a[..k][1..] && b[1..][..k - 1] == b[..k][1..];
        assert FallsBehindAt(a[1..], b[1..], k - 1);
      }
    } else {
      assert b != "" && (a == "" || a[0] < b[0]) ==> FallsBehindAt(a, b, 0);
      assert forall k: nat | FallsBehindAt(a, b, k) :: k == 0 by { SameHead(a, b); }
    }
  }

  // ---------------------------------------------------------------------
  // Sorting by a key
  // ---------------------------------------------------------------------

  ghost predicate SortedBy<T>(key: T -> string, s: seq<T>) {
    forall i, j | 0 <= i < j < |s| :: !Less(key(s[j]), key(s[i]))
  }

  /** Different elements of `s` have different keys. */
  ghost predicate KeyDetermines<T>(key: T -> string, s: seq<T>) {
    forall x, y | x in s && y in s && key(x) == key(y) :: x == y
  }

  /** `s` with `x` after every element whose key is not larger. */
  function Insert<T>(key: T -> string, x: T, s: seq<T>): (r: seq<T>)
    ensures multiset(r) == multiset(s) + multiset{x}
  {
    if s == [] then [x]
    else if Less(key(x), key(s[|s| - 1])) then
      assert s == s[..|s| - 1] + [s[|s| - 1]];
      Insert(key, x, s[..|s| - 1]) + [s[|s| - 1]]
    else s + [x]
  }

  /** Stable sort by key. */
  function Sort<T>(key: T -> string, s: seq<T>): (r: seq<T>)
    ensures multiset(r) == multiset(s)
  {
    if s == [] then [] else
      assert s == s[..|s| - 1] + [s[|s| - 1]];
      Insert(key, s[|s| - 1], Sort(key, s[..|s| - 1]))
  }

  lemma InMultiset<T>(x: T, s: seq<T>)
    ensures x in s <==> x in multiset(s)
  {
  }

  /** `y` goes behind everything of `s`. */
  ghost predicate Behind<T>(key: T -> string, s: seq<T>, y: T) {
    forall x | x in s :: !Less(key(y), key(x))
  }

  lemma SortedExtend<T>(key: T -> string, s: seq<T>, y: T)
    requires SortedBy(key, s) && Behind(key, s, y)
    ensures SortedBy(key, s + [y])
  {
    var r := s + [y];
    forall i, j | 0 <= i < j < |r| ensures !Less(key(r[j]), key(r[i])) {
      assert s != [] ==> r[i] == s[i] && s[i] in s;
      assert j < |s| ==> r[j] == s[j];
    }
  }

  /** The last element of a sorted sequence goes behind the others. */
  lemma SortedFront<T>(key: T -> string, s: seq<T>)
    requires SortedBy(key, s) && s != []
    ensures SortedBy(key, s[..|s| - 1]) && Behind(key, s[..|s| - 1], s[|s| - 1])
  {
  }

  lemma InsertElements<T>(key: T -> string, x: T, s: seq<T>)
    ensures forall y | y in Insert(key, x, s) :: y == x || y in s
  {
    hide Insert;
    forall y | y in Insert(key, x, s) ensures y == x || y in s {
      InMultiset(y, Insert(key, x, s));
      InMultiset(y, s);
    }
  }

  lemma BehindLast<T>(key: T -> string, s: seq<T>, x: T)
    requires s != [] && Behind(key, s[..|s| - 1], s[|s| - 1]) && !Less(key(x), key(s[|s| - 1]))
    ensures Behind(key, s, x)
  {
    var last := s[|s| - 1];
    assert s == s[..|s| - 1] + [last];
    forall y | y in s ensures !Less(key(x), key(y)) {
      if y != last && Less(key(x), key(y)) {
        assert y in s[..|s| - 1];
        LessTotal(key(y), key(last));
        if Less(key(y), key(last)) {
          LessTransitive(key(x), key(y), key(last));
        }
      }
    }
  }

  lemma {:induction false} InsertSorted<T>(key: T -> string, x: T, s: seq<T>)
    requires SortedBy(key, s)
    ensures SortedBy(key, Insert(key, x, s))
  {
    hide SortedBy, Behind, Less;
    if s == [] {
      SingleSorted(key, x);
    } else {
      var front, last := s[..|s| - 1], s[|s| - 1];
      SortedFront(key, s);
      if Less(key(x), key(last)) {
        InsertSorted(key, x, front);
        InsertElements(key, x, front);
        LessTotal(key(x), key(last));
        BehindToo(key, front, x, Insert(key, x, front), last);
        SortedExtend(key, Insert(key, x, front), last);
      } else {
        BehindLast(key, s, x);
        SortedExtend(key, s, x);
      }
    }
  }

  lemma BehindToo<T>(key: T -> string, s: seq<T>, x: T, r: seq<T>, y: T)
    requires Behind(key, s, y) && !Less(key(y), key(x)) && forall w | w in r :: w == x || w in s
    ensures Behind(key, r, y)
  {
  }

  lemma SingleSorted<T>(key: T -> string, x: T)
    ensures SortedBy(key, [x])
  {
  }

  lemma {:induction false} SortSorted<T>(key: T -> string, s: seq<T>)
    ensures SortedBy(key, Sort(key, s))
  {
    if s != [] {
      SortSorted(key, s[..|s| - 1]);
      InsertSorted(key, s[|s| - 1], Sort(key, s[..|s| - 1]));
    }
  }

  lemma LastIsMaximal<T>(key: T -> string, s: seq<T>, x: T)
    requires SortedBy(key, s) && x in s
    ensures !Less(key(s[|s| - 1]), key(x))
  {
    var i :| 0 <= i < |s| && s[i] == x;
    LessIrreflexive(key(x));
  }

  lemma SameMultisetSameElements<T>(a: seq<T>, b: seq<T>, x: T)
    requires multiset(a) == multiset(b)
    ensures |a| == |b|
    ensures x in a <==> x in b
  {
    InMultiset(x, a);
    InMultiset(x, b);
    assert |multiset(a)| == |a| && |multiset(b)| == |b|;
  }

  lemma SameLast<T>(key: T -> string, a: seq<T>, b: seq<T>)
    requires SortedBy(key, a) && SortedBy(key, b) && KeyDetermines(key, a)
    requires multiset(a) == multiset(b) && a != []
    ensures |a| == |b| && a[|a| - 1] == b[|b| - 1]
  {
    var x := a[|a| - 1];
    SameMultisetSameElements(a, b, x);
    var y := b[|b| - 1];
    SameMultisetSameElements(a, b, y);
    LastIsMaximal(key, a, y);
    LastIsMaximal(key, b, x);
    LessTotal(key(x), key(y));
  }

  lemma DropLast<T>(s: seq<T>)
    requires s != []
    ensures s == s[..|s| - 1] + [s[|s| - 1]]
    ensures multiset(s[..|s| - 1]) == multiset(s) - multiset{s[|s| - 1]}
  {
    assert s == s[..|s| - 1] + [s[|s| - 1]];
  }

  /** A sorted sequence is determined by its elements. */
  lemma {:induction false} SortedUnique<T>(key: T -> string, a: seq<T>, b: seq<T>)
    requires SortedBy(key, a) && SortedBy(key, b) && KeyDetermines(key, a)
    requires multiset(a) == multiset(b)
    ensures a == b
  {
    if a == [] {
      assert |multiset(a)| == 0 && |multiset(b)| == |b|;
    } else {
      SameLast(key, a, b);
      var front, front' := a[..|a| - 1], b[..|b| - 1];
      DropLast(a);
      DropLast(b);
      assert SortedBy(key, front) && SortedBy(key, front');
      assert KeyDetermines(key, front);
      SortedUnique(key, front, front');
    }
  }

  /** Sorting does not depend on the order the elements arrive in. */
  lemma {:induction false} SortOrderIndependent<T>(key: T -> string, a: seq<T>, b: seq<T>)
    requires multiset(a) == multiset(b) && KeyDetermines(key, a)
    ensures Sort(key, a) == Sort(key, b)
  {
    SortSorted(key, a);
    SortSorted(key, b);
    forall x | x in Sort(key, a) ensures x in a {
      InMultiset(x, Sort(key, a));
    }
    SortedUnique(key, Sort(key, a), Sort(key, b));
  }

  // ---------------------------------------------------------------------
  // Sorted listings of sets of strings
  // ---------------------------------------------------------------------

  function Self(x: string): string {
    x
  }

  /** No element occurs twice. */
  ghost predicate Distinct<T>(s: seq<T>) {
    forall i, j | 0 <= i < j < |s| :: s[i] != s[j]
  }

  /** `s` lists exactly the elements of `elements`, each once, in some order. */
  ghost predicate Enumerates<T(!new)>(s: seq<T>, elements: set<T>) {
    Distinct(s) && forall x :: x in s <==> x in elements
  }

  lemma HeadIsElement<T>(s: seq<T>)
    ensures s != [] ==> s[0] in s
  {
  }

  lemma {:induction false} DistinctMultiset<T>(s: seq<T>)
    requires Distinct(s)
    ensures multiset(s) == multiset(set x | x in s)
  {
    if s != [] {
      var front, last := s[..|s| - 1], s[|s| - 1];
      assert s == front + [last];
      DistinctMultiset(front);
      assert (set x | x in s) == (set x | x in front) + {last};
      assert last !in front;
    } else {
      assert (set x | x in s) == {};
    }
  }

  lemma EnumerationsArePermutations<T(!new)>(a: seq<T>, b: seq<T>, elements: set<T>)
    requires Enumerates(a, elements) && Enumerates(b, elements)
    ensures multiset(a) == multiset(b)
  {
    DistinctMultiset(a);
    DistinctMultiset(b);
    assert (set x | x in a) == elements == (set x | x in b);
  }

  /** The elements of a set of strings in increasing order. */
  ghost function Listing(elements: set<string>): (r: seq<string>)
    ensures multiset(r) == multiset(elements)
  {
    if elements == {} then [] else
      var x :| x in elements;
      Insert(Self, x, Listing(elements - {x}))
  }

  lemma RepeatCountsTwice<T>(s: seq<T>, i: nat, j: nat)
    requires i < j < |s|
    ensures s[i] == s[j] ==> multiset(s)[s[i]] >= 2
  {
    assert s == s[..j] + s[j..];
    assert s[..j][i] == s[i];
    assert s[j..][0] == s[j];
    InMultiset(s[i], s[..j]);
    InMultiset(s[j], s[j..]);
  }

  lemma {:induction false} ListingEnumerates(elements: set<string>)
    ensures Enumerates(Listing(elements), elements)
    ensures SortedBy(Self, Listing(elements))
  {
    var s := Listing(elements);
    forall x ensures x in s <==> x in elements {
      InMultiset(x, s);
    }
    forall i, j | 0 <= i < j < |s| ensures s[i] != s[j] {
      RepeatCountsTwice(s, i, j);
    }
    ListingSorted(elements);
  }

  lemma {:induction false} ListingSorted(elements: set<string>)
    ensures SortedBy(Self, Listing(elements))
    decreases |elements|
  {
    if elements != {} {
      var x :| x in elements && Listing(elements) == Insert(Self, x, Listing(elements - {x}));
      ListingSorted(elements - {x});
      InsertSorted(Self, x, Listing(elements - {x}));
    }
  }

  /** Any enumeration of a set sorts to its listing. */
  lemma SortIsListing(s: seq<string>, elements: set<string>)
    requires Enumerates(s, elements)
    ensures Sort(Self, s) == Listing(elements)
  {
    DistinctMultiset(s);
    assert (set x | x in s) == elements;
    SortSorted(Self, s);
    ListingSorted(elements);
    SortedUnique(Self, Sort(Self, s), Listing(elements));
  }

  /** The elements of a hash table in the order the table happens to deliver
      them: any order. */
  method AnyOrder<T(==,!new)>(elements: set<T>) returns (order: seq<T>)
    ensures Enumerates(order, elements)
  {
    order := [];
    var rest := elements;
    while rest != {}
      invariant Distinct(order)
      invariant forall x :: x in elements <==> x in order || x in rest
      invariant forall x | x in order :: x !in rest
      decreases |rest|
    {
      var x :| x in rest;
      order := order + [x];
      rest := rest - {x};
    }
  }
}
