/**
 * The order in which the catalogue lists its recipes (most viewed first, then
 * the quickest to cook), what it means for a sequence to list a table of
 * recipes, and the in-place sort that puts a listing into that order.
 */
module Listing {
  import opened Schemas

  /** The stored table: each recipe under its own id. */
  type Table = map<int, RecipeOut>

  /** The two fields a listing is ordered by: views, then cooking time. */
  function ListingKey(r: RecipeOut): (k: (int, int)) {
    (r.views, r.cookingTime)
  }

  /** Key `p` may come first: more views, or as many views and no longer cooking time. */
  predicate KeyBefore(p: (int, int), q: (int, int)) {
    p.0 > q.0 || (p.0 == q.0 && p.1 <= q.1)
  }

  /**
   * `x` may come before `y` in a listing: `x` has more views, or the same
   * number of views and a cooking time no longer than that of `y`.
   */
  predicate ListedBefore(x: RecipeOut, y: RecipeOut) {
    KeyBefore(ListingKey(x), ListingKey(y))
  }

  /** Views descending, ties broken by cooking time ascending. */
  ghost predicate InListingOrder(s: seq<RecipeOut>) {
    forall i, j | 0 <= i < j < |s| :: ListedBefore(s[i], s[j])
  }

  /** No two elements of `s` carry the same id. */
  ghost predicate DistinctIds(s: seq<RecipeOut>) {
    forall i, j | 0 <= i < j < |s| :: s[i].id != s[j].id
  }

  /** `s` lists the rows of `t`: as many entries as rows, each a stored row, no id twice. */
  ghost predicate Enumerates(s: seq<RecipeOut>, t: Table) {
    && |s| == |t|
    && (forall i | 0 <= i < |s| :: s[i].id in t && t[s[i].id] == s[i])
    && DistinctIds(s)
  }

  /** The ids that occur in `s`. */
  function Ids(s: seq<RecipeOut>): (ids: set<int>) {
    set i | 0 <= i < |s| :: s[i].id
  }

  /** A sequence without repeated ids has as many ids as entries. */
  lemma {:induction false} DistinctIdsCount(s: seq<RecipeOut>)
    requires DistinctIds(s)
    ensures |Ids(s)| == |s|
  {
    if s != [] {
      var front := s[..|s| - 1];
      DistinctIdsCount(front);
      assert Ids(s) == Ids(front) + {s[|s| - 1].id};
      assert s[|s| - 1].id !in Ids(front);
    }
  }

  /** A listing of a table contains every row of the table. */
  lemma EnumeratesEveryRow(s: seq<RecipeOut>, t: Table)
    requires Enumerates(s, t)
    ensures Ids(s) == t.Keys
    ensures forall k | k in t :: t[k] in s
  {
    DistinctIdsCount(s);
    assert Ids(s) <= t.Keys;
    var missing := t.Keys - Ids(s);
    assert t.Keys == Ids(s) + missing && Ids(s) !! missing;
    assert |missing| == 0;
    forall k | k in t
      ensures t[k] in s
    {
      var i :| 0 <= i < |s| && s[i].id == k;
    }
  }

  /** In a sequence without repeated ids, every record occurs at most once. */
  lemma {:induction false} OccursAtMostOnce(s: seq<RecipeOut>, x: RecipeOut)
    requires DistinctIds(s)
    ensures multiset(s)[x] <= 1
  {
    if s != [] {
      var front, last := s[..|s| - 1], s[|s| - 1];
      assert s == front + [last];
      OccursAtMostOnce(front, x);
      if last == x {
        assert x !in front;
      }
    }
  }

  /** A record found at two positions occurs at least twice. */
  lemma OccursTwice(s: seq<RecipeOut>, i: nat, j: nat)
    requires i < j < |s| && s[i] == s[j]
    ensures multiset(s)[s[i]] >= 2
  {
    assert s == s[..j] + [s[j]] + s[j + 1..];
    assert s[i] in s[..j];
  }

  /** Reordering a listing of a table gives a listing of the same table. */
  lemma PermutationKeepsEnumeration(s: seq<RecipeOut>, u: seq<RecipeOut>, t: Table)
    requires Enumerates(s, t)
    requires multiset(s) == multiset(u)
    ensures Enumerates(u, t)
  {
    assert |u| == |multiset(u)| == |multiset(s)| == |s|;
    forall i | 0 <= i < |u|
      ensures u[i].id in t && t[u[i].id] == u[i]
    {
      assert u[i] in multiset(u);
      assert u[i] in s;
    }
    forall i, j | 0 <= i < j < |u|
      ensures u[i].id != u[j].id
    {
      if u[i].id == u[j].id {
        OccursTwice(u, i, j);
        OccursAtMostOnce(s, u[i]);
        assert false;
      }
    }
  }

  /** Sorts `a` in place into listing order, by insertion. */
  method SortForListing(a: array<RecipeOut>)
    modifies a
    ensures InListingOrder(a[..])
    ensures multiset(a[..]) == old(multiset(a[..]))
  {
    var i := 0;
    while i < a.Length
      invariant 0 <= i <= a.Length
      invariant InListingOrder(a[..i])
      invariant multiset(a[..]) == old(multiset(a[..]))
    {
      InsertIntoPlace(a, i);
      i := i + 1;
    }
  }

  /**
   * With `a[..i]` in listing order, moves `a[i]` down to its place so that
   * `a[..i + 1]` is in listing order.
   */
  method InsertIntoPlace(a: array<RecipeOut>, i: nat)
    requires i < a.Length
    requires InListingOrder(a[..i])
    modifies a
    ensures InListingOrder(a[..i + 1])
    ensures multiset(a[..]) == old(multiset(a[..]))
    ensures a[i + 1..] == old(a[i + 1..])
  {
    var j := i;
    while j > 0 && !ListedBefore(a[j - 1], a[j])
      invariant 0 <= j <= i
      invariant forall p, q | 0 <= p < q <= i && p != j && q != j :: ListedBefore(a[p], a[q])
      invariant forall q | j < q <= i :: ListedBefore(a[j], a[q])
      invariant multiset(a[..]) == old(multiset(a[..]))
      invariant a[i + 1..] == old(a[i + 1..])
    {
      a[j - 1], a[j] := a[j], a[j - 1];
      j := j - 1;
    }
  }

  /** The listing keys of `s`, position by position. */
  function Keys(s: seq<RecipeOut>): (ks: seq<(int, int)>)
    ensures |ks| == |s|
  {
    seq(|s|, i requires 0 <= i < |s| => ListingKey(s[i]))
  }

  /** Keys in listing order: the key-level counterpart of `InListingOrder`. */
  ghost predicate KeysSorted(ks: seq<(int, int)>) {
    forall i, j | 0 <= i < j < |ks| :: KeyBefore(ks[i], ks[j])
  }

  /** A listing is in listing order exactly when its keys are sorted. */
  lemma ListingOrderIsKeysSorted(s: seq<RecipeOut>)
    ensures InListingOrder(s) <==> KeysSorted(Keys(s))
  {
    if InListingOrder(s) {
      forall i, j | 0 <= i < j < |s|
        ensures KeyBefore(Keys(s)[i], Keys(s)[j])
      {
        assert ListedBefore(s[i], s[j]);
      }
    }
    if KeysSorted(Keys(s)) {
      forall i, j | 0 <= i < j < |s|
        ensures ListedBefore(s[i], s[j])
      {
        assert KeyBefore(Keys(s)[i], Keys(s)[j]);
      }
    }
  }

  /** Two sorted sequences of keys holding the same keys start with the same key. */
  lemma SortedHeadsEqual(a: seq<(int, int)>, b: seq<(int, int)>)
    requires KeysSorted(a) && KeysSorted(b)
    requires multiset(a) == multiset(b) && a != []
    ensures b != [] && a[0] == b[0]
  {
    assert a[0] in multiset(b) && b[0] in multiset(a);
    var j :| 0 <= j < |b| && b[j] == a[0];
    var k :| 0 <= k < |a| && a[k] == b[0];
    assert KeyBefore(b[0], a[0]) && KeyBefore(a[0], b[0]);
  }

  /** Two sorted sequences of keys holding the same keys are equal. */
  lemma {:induction false} SortedKeysUnique(a: seq<(int, int)>, b: seq<(int, int)>)
    requires KeysSorted(a) && KeysSorted(b)
    requires multiset(a) == multiset(b)
    ensures a == b
  {
    assert |a| == |multiset(a)| == |multiset(b)| == |b|;
    if a != [] {
      SortedHeadsEqual(a, b);
      assert a == [a[0]] + a[1..] && b == [b[0]] + b[1..];
      assert multiset(a) == multiset(a[1..]) + multiset{a[0]};
      assert multiset(b) == multiset(b[1..]) + multiset{a[0]};
      Cancel(multiset(a[1..]), multiset(b[1..]), a[0]);
      SortedKeysUnique(a[1..], b[1..]);
    }
  }

  /** Taking the element at `j` out of `u` removes one occurrence of it. */
  lemma RemoveAt<T>(u: seq<T>, j: nat)
    requires j < |u|
    ensures multiset(u) == multiset(u[..j] + u[j + 1..]) + multiset{u[j]}
  {
    assert u == u[..j] + [u[j]] + u[j + 1..];
  }

  /** One occurrence of the same element added to both sides cancels. */
  lemma Cancel<T>(a: multiset<T>, b: multiset<T>, x: T)
    requires a + multiset{x} == b + multiset{x}
    ensures a == b
  {
    assert a == a + multiset{x} - multiset{x};
  }

  /** Taking the record at `j` out of `u` removes one occurrence of its key. */
  lemma KeysRemoveAt(u: seq<RecipeOut>, j: nat)
    requires j < |u|
    ensures multiset(Keys(u)) == multiset(Keys(u[..j] + u[j + 1..])) + multiset{ListingKey(u[j])}
  {
    RemoveAt(Keys(u), j);
    assert Keys(u)[..j] + Keys(u)[j + 1..] == Keys(u[..j] + u[j + 1..]);
  }

  /** Reordering records reorders their keys the same way. */
  lemma {:induction false} PermutedKeys(s: seq<RecipeOut>, u: seq<RecipeOut>)
    requires multiset(s) == multiset(u)
    ensures multiset(Keys(s)) == multiset(Keys(u))
  {
    assert |u| == |multiset(u)| == |multiset(s)| == |s|;
    if s != [] {
      var x := s[0];
      assert x in multiset(u);
      var j :| 0 <= j < |u| && u[j] == x;
      var rest := u[..j] + u[j + 1..];
      RemoveAt(u, j);
      assert s == [x] + s[1..];
      Cancel(multiset(s[1..]), multiset(rest), x);
      PermutedKeys(s[1..], rest);
      KeysRemoveAt(u, j);
      assert Keys(s) == [ListingKey(x)] + Keys(s[1..]);
    }
  }

  /** Two listings of the same table hold the same records, each once. */
  lemma SameRows(s: seq<RecipeOut>, u: seq<RecipeOut>, t: Table)
    requires Enumerates(s, t) && Enumerates(u, t)
    ensures multiset(s) == multiset(u)
  {
    EnumeratesEveryRow(s, t);
    EnumeratesEveryRow(u, t);
    forall x
      ensures multiset(s)[x] == multiset(u)[x]
    {
      OccursAtMostOnce(s, x);
      OccursAtMostOnce(u, x);
      if x in s {
        var i :| 0 <= i < |s| && s[i] == x;
        assert x == t[x.id] && x in u;
      }
      if x in u {
        var i :| 0 <= i < |u| && u[i] == x;
        assert x == t[x.id] && x in s;
      }
    }
  }

  /**
   * The listing order fixes the listing up to recipes that agree on both views
   * and cooking time: any two ordered listings of one table show the same views
   * and cooking time at every position.
   */
  lemma ListingDeterminedUpToTies(s: seq<RecipeOut>, u: seq<RecipeOut>, t: Table)
    requires Enumerates(s, t) && InListingOrder(s)
    requires Enumerates(u, t) && InListingOrder(u)
    ensures |s| == |u|
    ensures forall i | 0 <= i < |s| :: s[i].views == u[i].views && s[i].cookingTime == u[i].cookingTime
  {
    SameRows(s, u, t);
    PermutedKeys(s, u);
    ListingOrderIsKeysSorted(s);
    ListingOrderIsKeysSorted(u);
    SortedKeysUnique(Keys(s), Keys(u));
    forall i | 0 <= i < |s|
      ensures s[i].views == u[i].views && s[i].cookingTime == u[i].cookingTime
    {
      assert Keys(s)[i] == Keys(u)[i];
    }
  }
}
