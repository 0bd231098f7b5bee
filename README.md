# Cookbook API: the recipe catalogue as a verified in-memory table

The cookbook service keeps one table of recipes and offers three operations on
it: list every recipe (most viewed first, then the quickest to cook), fetch one
recipe by id (which counts the visit by raising its `views` by one, or answers
"Recipe not found"), and create a recipe (stored under a fresh id and returned
with it). This project models that table and the three operations in Dafny and
proves what each operation does to the table and returns.

- `schemas.dfy`, module `Schemas`: the field shapes. `RecipeBase` is the five
  client-visible fields (`title`, `views`, `cookingTime`, `ingredients`,
  `instructions`); `RecipeCreate`, the create input, is exactly those fields and
  has no `id`; `RecipeOut` adds the integer `id`. `views` defaults to 0 when the
  client leaves it out. No bound is placed on the integers and no constraint on
  the strings.
- `listing.dfy`, module `Listing`: the listing order (views descending, ties by
  cooking time ascending), what it means for a sequence to list a table (as many
  entries as rows, each entry a stored row, no id twice), the in-place insertion
  sort that produces the order, and the lemmas that a listing holds every row
  exactly once and is fixed by the order up to recipes that agree on both views
  and cooking time.
- `catalog.dfy`, module `Catalog`: the `Result` type with its `NotFound` error,
  the table after one or after `n` fetches as functions on the map, and the
  class `RecipeStore` whose field `rows: map<int, RecipeOut>` is the table and
  whose methods `List`, `Get` and `Create` are the three operations, each one
  atomic step on the table. `Get` and `Create` change the table in place
  (`modifies this`); `List` has no `modifies` clause, so the verifier itself
  guarantees that listing leaves the table untouched.

The datastore assigns ids itself. The table lives in SQLite, which gives a new
row the integer key one above the largest in use, or 1 in an empty table. The
model keeps this rule as the store's invariant `Valid()` (predicate
`IdsInStep`): every recipe is stored under its own id, and the counter `nextId`
is one above the largest id in use, or 1 when the table is empty. The unnamed
constructor starts with an empty table and `nextId == 1`; `Reopen` requires the
same rule of the table it is given. `Create`'s contract pins the new id to the
counter's value, above every id in use and one above the largest, and advances
the counter by one; `Get` leaves the counter alone. From a new database the ids
are therefore 1, 2, 3, and so on. (The table's column definitions, app/models.py,
are not part of this model.)

The ordering is done by the datastore's `ORDER BY`. The model states it as the
postcondition of `List` (listing order plus "each row exactly once") and
realises it by collecting the rows and sorting them with a verified insertion
sort.

A recipe's title is meant to be non-empty and its view count non-negative, but
neither app/schemas.py nor app/main.py checks either; the model follows the
code and accepts an empty title and negative `views` or `cooking_time`.

## Model

| member | source | states |
|---|---|---|
| Schemas.NewRecipeCreate | app/schemas.py:4-13 | the create input takes `title`, `cooking_time`, `ingredients` and `instructions` as given; `views` is the supplied value, or 0 when the client omits it |
| Schemas.Base | app/schemas.py:16-17 | the output record is the base fields plus the id: putting the id back on a record's base fields gives the record again |
| Schemas.OutIsBasePlusId | app/schemas.py:4-17 | adding an id to base fields loses none of them, and an output record equals base fields with an id exactly when its base fields and id are those |
| Listing.SortForListing | app/main.py:43 | after the sort the array is in listing order (for i < j: more views, or equal views and no longer cooking time) and holds the same records as before, as a multiset |
| Listing.InsertIntoPlace | app/main.py:43 | with the first i records in listing order, moving record i down to its place puts the first i + 1 in listing order, keeps the same records and leaves the records after position i untouched |
| Listing.EnumeratesEveryRow | app/main.py:42-46 | a sequence with one entry per row, each a stored row and no id twice, has exactly the table's ids and contains every stored row |
| Listing.PermutationKeepsEnumeration | app/main.py:42-46 | any reordering of a listing of the table is again a listing of the table: every row exactly once |
| Listing.ListingDeterminedUpToTies | app/main.py:43 | any two ordered listings of one table have the same length and the same views and cooking time at every position; only recipes that tie on both may appear in either order |
| Catalog.AfterView | app/main.py:64-70 | one fetch of a stored id raises that recipe's views by exactly 1 and keeps its other fields; no other recipe changes and the set of ids is unchanged; an absent id leaves the table as it was |
| Catalog.RepeatedViews | app/main.py:69 | n successive fetches of a stored id raise its views by exactly n, keep its other fields, and change no other recipe and no id |
| Catalog.RepeatedMisses | app/main.py:64-66 | any number of fetches of an id that is not stored leave the table unchanged |
| Catalog.FetchAfterCreate | app/main.py:55-97 | a recipe created and then fetched once has its new id, one more view than it was created with, and every other field as supplied |
| Catalog.RecipeStore.constructor | app/main.py:18-22 | a first start on a new database file: the table is empty and the first id handed out is 1 |
| Catalog.RecipeStore.Reopen | app/database.py:7 | a restart on an existing database file keeps the rows stored before: the store holds the given table (each row under its own id) with the next id one above the largest id in use, or 1 if the table is empty |
| Catalog.RecipeStore.List | app/main.py:34-46 | returns every stored recipe exactly once (length equals the table's size, every entry equals the stored row under its id, no id twice), in listing order; the table is not modified |
| Catalog.RecipeStore.Get | app/main.py:55-72 | an absent id gives `NotFound("Recipe not found")` and leaves the table unchanged; a present id has its views raised by exactly 1, the rest of the table unchanged, and the updated record returned |
| Catalog.RecipeStore.Create | app/main.py:81-97 | adds exactly one row under an id not in use before, one above the largest id in use (1 in an empty table); the new row's fields equal the input (including the supplied or defaulted views), all existing rows are unchanged, and the returned record is the new row with its id |

## Left out

- HTTP: the application object, route decorators, response-model conversion and
  status codes. The 404 answer is the `NotFound` result; the 200 answers are the
  returned values.
- Input validation (the 422 answer): malformed or mistyped JSON cannot be
  represented once the input is a typed Dafny value, and the validation is done
  by a library that is not part of this model.
- Sessions, commits, refresh and the async structure: each operation is one
  atomic step on the map; a datastore failure (a 5xx answer) is not modelled.
  In particular the integer width of the stored columns is not modelled:
  SQLite keeps `views` and `cooking_time` as 64-bit integers, so creating a
  recipe with a value outside [-2^63, 2^63 - 1], or fetching one whose `views`
  is already 2^63 - 1, fails in the datastore and leaves the row unchanged, while
  the model stores the larger value.
- Concurrency: concurrent fetches of one recipe and possible lost view updates
  depend on the datastore's isolation level, which the code does not fix.
- Startup table creation: the table is created only if it is missing, and the
  database is a file, so a restart keeps the earlier rows. The unnamed
  constructor of `RecipeStore` stands for a first start on a new database
  file (an empty table); `Reopen` stands for a restart on an existing file.
  The schema definition itself is not modelled.
- app/models.py (the table's column definitions) is not part of this model; its
  columns are taken to be exactly the schema fields plus the integer id.
- Id generation: the model fixes SQLite's rule (one above the largest id in
  use) through the counter `nextId` (see above); a datastore that picks ids by
  some other rule, for instance after the row with the largest id was deleted
  outside the service, is not modelled.
