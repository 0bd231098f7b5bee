/**
 * The recipe catalogue: one table of recipes keyed by id and the three
 * operations the service offers on it, each one atomic step on the table.
 *
 *   List   -- every stored recipe, most viewed first, quickest to cook next;
 *             reads the table and changes nothing.
 *   Get    -- one recipe by id; counts the visit by raising its views by 1,
 *             or reports that no recipe has that id.
 *   Create -- stores a new recipe under a fresh id and returns it with the id.
 */
module Catalog {
  import opened Schemas
  import opened Listing

  /** The outcome of a lookup: the record, or the not-found error. */
  datatype Result<T> = Ok(value: T) | NotFound(detail: string)

  /** The detail message of the not-found error. */
  const NOT_FOUND_DETAIL: string := "Recipe not found"

  /** `x` and `y` agree on every field except, possibly, `views`. */
  predicate SameButViews(x: RecipeOut, y: RecipeOut) {
    && x.id == y.id
    && x.title == y.title
    && x.cookingTime == y.cookingTime
    && x.ingredients == y.ingredients
    && x.instructions == y.instructions
  }

  /**
   * The table after one fetch of `id`: the recipe under `id`, if any, has one
   * more view; nothing else changes.
   */
  function AfterView(t: Table, id: int): (t': Table)
    ensures t'.Keys == t.Keys
    ensures forall k | k in t && k != id :: t'[k] == t[k]
    ensures id in t ==> t'[id].views == t[id].views + 1 && SameButViews(t'[id], t[id])
  {
    if id in t then t[id := t[id].(views := t[id].views + 1)] else t
  }

  /** The table after `n` successive fetches of `id`. */
  function AfterViews(t: Table, id: int, n: nat): (t': Table) {
    if n == 0 then t else AfterView(AfterViews(t, id, n - 1), id)
  }

  /**
   * Fetching the same stored recipe `n` times raises its views by exactly `n`
   * and touches neither its other fields, nor any other recipe, nor the ids.
   */
  lemma {:induction false} RepeatedViews(t: Table, id: int, n: nat)
    requires id in t
    ensures AfterViews(t, id, n).Keys == t.Keys
    ensures AfterViews(t, id, n)[id].views == t[id].views + n
    ensures SameButViews(AfterViews(t, id, n)[id], t[id])
    ensures forall k | k in t && k != id :: AfterViews(t, id, n)[k] == t[k]
  {
    if n > 0 {
      RepeatedViews(t, id, n - 1);
    }
  }

  /** Fetching an id that is not stored, any number of times, changes nothing. */
  lemma {:induction false} RepeatedMisses(t: Table, id: int, n: nat)
    requires id !in t
    ensures AfterViews(t, id, n) == t
  {
    if n > 0 {
      RepeatedMisses(t, id, n - 1);
    }
  }

  /**
   * A recipe created with base fields `c` and then fetched once shows one more
   * view than it was created with and all its other fields as given.
   */
  lemma FetchAfterCreate(t: Table, id: int, c: RecipeCreate)
    requires id !in t
    ensures var r := AfterView(t[id := WithId(c, id)], id)[id];
      r.id == id && r.views == c.views + 1 && Base(r) == c.(views := r.views)
  {
  }

  /**
   * A non-empty set has an element to pick. This is a proof helper for the
   * row-collecting loop of `RecipeStore.List`, not a property of the catalogue.
   */
  lemma HasMember(s: set<int>)
    requires s != {}
    ensures exists k :: k in s
  {
    if forall k :: k !in s {
      assert false;
    }
  }

  /**
   * Table `t` with next id `next` as the datastore keeps them: every recipe is
   * stored under its own id, and the next id is one above the largest id in
   * use, or 1 when the table is empty.
   */
  ghost predicate IdsInStep(t: Table, next: int) {
    && (forall k | k in t :: t[k].id == k && k < next)
    && (if t == map[] then next == 1 else next - 1 in t)
  }

  class RecipeStore {
    /** The stored table. */
    var rows: Table
    /** The next id the datastore hands out; one above the largest id in use. */
    var nextId: int

    /** The stored table and the id counter fit together; see `IdsInStep`. */
    ghost predicate Valid()
      reads this
    {
      IdsInStep(rows, nextId)
    }

    /**
     * The catalogue on a first start with a new database file: an empty table,
     * whose first id handed out is 1.
     */
    constructor ()
      ensures Valid()
      ensures rows == map[] && nextId == 1
    {
      rows := map[];
      nextId := 1;
    }

    /**
     * The catalogue on a restart with an existing database file: the table
     * keeps the rows stored before, each under its own id, and the next id
     * handed out is one above the largest id in use (1 if there is none).
     */
    constructor Reopen(existing: Table, next: int)
      requires IdsInStep(existing, next)
      ensures Valid()
      ensures rows == existing && nextId == next
    {
      rows := existing;
      nextId := next;
    }

    /**
     * Every stored recipe exactly once, most viewed first and, among equally
     * viewed ones, quickest to cook first. The order among recipes that agree
     * on both is left open. The table is not modified.
     */
    method List() returns (listing: seq<RecipeOut>)
      requires Valid()
      ensures Enumerates(listing, rows)
      ensures InListingOrder(listing)
    {
      var rest := rows.Keys;
      var collected: seq<RecipeOut> := [];
      while rest != {}
        invariant rest <= rows.Keys
        invariant |collected| + |rest| == |rows|
        invariant forall i | 0 <= i < |collected| ::
          collected[i].id in rows && rows[collected[i].id] == collected[i] && collected[i].id !in rest
        invariant DistinctIds(collected)
        decreases |rest|
      {
        HasMember(rest);
        var k :| k in rest;
        collected := collected + [rows[k]];
        rest := rest - {k};
      }
      var a := new RecipeOut[|collected|](i requires 0 <= i < |collected| => collected[i]);
      assert a[..] == collected;
      SortForListing(a);
      listing := a[..];
      PermutationKeepsEnumeration(collected, listing, rows);
    }

    /**
     * The recipe stored under `id`, after counting this visit: its views go up
     * by exactly 1 and the updated record is returned. An id that is not stored
     * gives the not-found error and leaves the table as it was.
     */
    method Get(id: int) returns (r: Result<RecipeOut>)
      requires Valid()
      modifies this
      ensures Valid()
      ensures rows == AfterView(old(rows), id) && nextId == old(nextId)
      ensures id !in old(rows) ==> r == NotFound(NOT_FOUND_DETAIL) && rows == old(rows)
      ensures id in old(rows) ==> r == Ok(rows[id]) && r.value.views == old(rows)[id].views + 1
    {
      if id !in rows {
        return NotFound(NOT_FOUND_DETAIL);
      }
      var recipe := rows[id];
      recipe := recipe.(views := recipe.views + 1);
      rows := rows[id := recipe];
      r := Ok(recipe);
    }

    /**
     * Stores a new recipe built from `input` under a fresh id and returns it
     * with that id. The rows already stored are kept as they were.
     */
    method Create(input: RecipeCreate) returns (created: RecipeOut)
      requires Valid()
      modifies this
      ensures Valid()
      ensures created.id !in old(rows)
      ensures forall k | k in old(rows) :: k < created.id
      ensures if old(rows) == map[] then created.id == 1 else created.id - 1 in old(rows)
      ensures Base(created) == input
      ensures rows == old(rows)[created.id := created]
      ensures rows.Keys == old(rows).Keys + {created.id} && |rows| == |old(rows)| + 1
      ensures created.id == old(nextId) && nextId == old(nextId) + 1
    {
      created := WithId(input, nextId);
      rows := rows[nextId := created];
      nextId := nextId + 1;
    }
  }
}
