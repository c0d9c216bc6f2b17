# Recipe store of the cookbook service, in Dafny

This project models the recipe store of the cookbook service (`crud.py`, `models.py`,
`schemas.py`) as an in-memory relational store and proves what its three operations do.

- `save_recipe_to_db` writes one recipe, its ingredient groups, their ingredients and the
  numbered instruction steps, then commits.
- `get_recipe_from_db` picks a recipe by `recipe_id`, `url` or `nanoid`. It rebuilds the
  ingredient groups through an inner join, `group_concat(name, ',')` and `split(',')`, orders
  the steps by `order`, and builds a `RecipeFromDatabase`.
- `get_all_recipes` lists `(nanoid, title)` for every recipe.

Layout:

- `wrappers.dfy` (module `Wrappers`): `Option`, standing for Python's `None` and SQL's NULL.
- `schemas.dfy` (module `Schemas`): the three pydantic records, as datatypes. Optional fields
  become `Option` fields that default to `None`.
- `models.dfy` (module `Models`): one row datatype per table. The invariant the store keeps is
  collected in `TablesValid`:
  - integer primary keys, positive and increasing in insertion order, with the next key one
    past the last, as SQLite's rowid allocation gives;
  - unique non-null `url` and unique `nanoid`, as the schema declares;
  - every `nanoid` of the generator's shape;
  - the four foreign keys. SQLite checks these only with `PRAGMA foreign_keys` on; the
    inserts keep them either way.
- `queries.dfy` (module `Queries`): the reads. It covers the choice among the three selectors,
  the inner join and grouping, group_concat and split, and the ordering of steps.
  - SQL leaves three orders open: the order of grouped rows, the order group_concat
    concatenates in, and the order of steps with equal `order`.
  - The functions compute one admissible order. The predicates `ConcatRead`, `GroupsRead` and
    `StepsRead` describe every admissible outcome, and the read-back lemmas are proved from
    those predicates.
- `inserts.dfy` (module `Inserts`): the rows a save writes, as functions of the input and of
  the next keys. It also holds the lemmas relating those rows to the reads: constraints kept,
  the recipe found by each key, steps back in order, groups back with their names.
- `crud.dfy` (module `Crud`): class `Store`, whose four table fields the operations update.
  - `SaveRecipe` runs the source's nested insert loops, as module-level methods, and assigns
    all four tables at once, which is the commit.
  - `GetRecipe` follows the successive `if` statements of the selection.
  - `GetAllRecipes` is the projection.

The nanoid generator is not modelled. `SaveRecipe` takes the generated identifier as a
parameter and requires it to have the generator's shape (12 characters from the 63-character
URL-safe alphabet) and to be unused. This stands in for an oracle that returns fresh values.

## Model

| member | source | states |
|---|---|---|
| Crud.Store.SaveRecipe | crud.py:17-60 | Keeps the store valid. The returned id is the next recipe key, positive and above every stored id. Each table becomes its old rows followed by exactly the rows the save writes: the recipe row, one group row per input group, one ingredient row per ingredient, and one step row per instruction. No old row changes. |
| Crud.InsertGroups | crud.py:35-50 | The group loop appends, in input order, one group row per input group (`name` = purpose, the new recipe's id, consecutive keys). After each group row come that group's ingredient rows. |
| Crud.InsertIngredients | crud.py:43-50 | The ingredient loop appends one row per name, in order. Each row points to the recipe and to the group just inserted, and takes the next key. |
| Crud.InsertSteps | crud.py:52-56 | The bulk insert appends one step per instruction. Step i has `order` i and the i-th text, so the orders are 0..n-1. An empty list inserts nothing. |
| Crud.JoinedOrderHydrates | crud.py:86-115 | Reading the groups in join order, concatenating each in that order and sorting the steps gives one of the records the queries admit. |
| Crud.Store.GetRecipe | crud.py:63-121 | On a store that keeps its invariant, so that `scalar_one_or_none` never sees two rows, returns None exactly when the selection finds no recipe. Otherwise the result is a record the queries admit: the selected row's columns, its joined groups read through group_concat and split in an admissible order, and its steps sorted by `order`. |
| Crud.Store.GetAllRecipes | crud.py:124-126 | Returns one `(nanoid, title)` pair per stored recipe and nothing else, with no nanoid repeated. The store is not modified. |
| Crud.Store.SaveAndReload | crud.py:17-121 | A save followed by a read by the returned id changes the tables exactly as SaveRecipe does, so saves chain. The read finds the recipe: every scalar field is the row the save wrote from the input (url = `canonical_url`), and the instruction list is the input's, in order. Its groups are an admissible read-back of the non-empty input groups, one per group. Every group whose ingredients hold no `,` and are not `[""]` comes back with its purpose and its ingredients up to order, whatever the other groups hold. When all groups are such, they match one for one. |
| Queries.FindWhere | crud.py:72-81 | A lookup returns a stored row matching the key, and returns None exactly when no row matches. |
| Queries.FindWhereAppend | crud.py:72-81 | Rows inserted later do not change the row a lookup already finds. |
| Queries.SelectAppend | crud.py:72-84 | A recipe the selectors find is still the one they find after later inserts. |
| Queries.UniqueKeyMatch | models.py:15-28 | The primary key and the unique `url` and `nanoid` columns leave at most one row per lookup key. |
| Queries.FindWhereUnique | crud.py:75-81 | When at most one row matches, the lookup returns that row, so `scalar_one_or_none` never sees two. |
| Queries.SelectPrecedence | crud.py:72-84 | A truthy nanoid decides alone: a missing nanoid gives None even when the url would match. A truthy url overrides recipe_id. `0` and `""` count as absent. |
| Queries.GroupsOf | crud.py:86-95 | The inner join yields only groups with at least one ingredient. |
| Queries.Split | crud.py:100 | `split(',')` yields at least one piece, and no piece contains the separator. |
| Queries.JoinSplit | crud.py:100 | Joining the pieces of `split(',')` with `,` gives the string back. With the row above and SplitGroupConcat, this fixes the pieces uniquely. |
| Queries.SortByOrder | crud.py:105-109 | `ORDER BY order` yields a permutation of the recipe's steps, sorted by `order`. |
| Queries.SplitGroupConcat | crud.py:90-100 | Splitting a concatenation of at least one separator-free name gives the names back. |
| Queries.GroupConcatRoundTrip | crud.py:90-100 | Concatenating and reading back (empty string to []) is the identity when no name contains `,` and the list is not `[""]`. |
| Queries.ConcatReadFaithful | crud.py:86-103 | For separator-free names other than `[""]`, every admissible read-back is a permutation of the stored names. |
| Queries.ConcatReadLosesLoneEmpty | crud.py:90-100 | A group whose only ingredient is `""` reads back as []. |
| Queries.ConcatReadSplitsSeparator | crud.py:90-100 | When a stored name contains `,`, the names read back join with `,` to the stored names concatenated in some order, none of them contains `,`, and so they are never the stored names up to order. |
| Queries.ConcatReadCommaExample | crud.py:90-100 | The group `["a,b"]` reads back as `["a", "b"]`. |
| Queries.GroupsReadFaithful | crud.py:86-103 | Over separator-free groups that are not `[""]`, the groups read back are the joined groups in some order, each with its names up to order. |
| Queries.GroupsReadKeepsCleanGroup | crud.py:86-103 | A joined group whose names hold no `,` and are not `[""]` comes back with its purpose and its names up to order, whatever the other groups hold. |
| Queries.GroupsReadCount | crud.py:86-103 | The read-back has exactly as many groups as the join yields. |
| Models.KeyBelowNext | models.py:15 | Every stored key is below the key the next insert receives. |
| Models.AppendConsecutiveKeys | models.py:15 | Appending rows keyed NextId, NextId+1, ... keeps the keys positive and increasing, and the next key moves past them. |
| Inserts.InputJoinedMembers | crud.py:86-95 | The groups kept are exactly the input groups with at least one ingredient. They number at most the input groups, and exactly as many when no group is empty. |
| Inserts.IngredientRowsShape | crud.py:43-50 | The save writes as many ingredient rows as the group sizes add up to. Their keys are consecutive, each row points to the new recipe, and each group id is one of the new groups. |
| Inserts.NamesInIngredientRows | crud.py:35-50 | The j-th new group holds exactly the j-th input group's ingredients, in order. |
| Inserts.SortedStepRows | crud.py:52-56 | The only arrangement of the written steps that is sorted by `order` is their input order, because the orders are 0..n-1 with no gap or repeat. |
| Inserts.StepsReadRoundTrip | crud.py:105-115 | Every admissible read-back of the written steps is the input instruction list. |
| Inserts.SaveKeepsKeys | models.py:15-69 | The rows a save writes keep every primary key positive and strictly increasing. |
| Inserts.SaveKeepsUnique | models.py:25-28 | A fresh url and a fresh nanoid keep both unique constraints. |
| Inserts.SaveKeepsGroupKeys | models.py:55 | Every group row, old or new, refers to a stored recipe. |
| Inserts.SaveKeepsIngredientKeys | models.py:68-69 | Every ingredient row, old or new, refers to a stored recipe and a stored group. |
| Inserts.SaveKeepsStepKeys | models.py:45 | Every step row, old or new, refers to a stored recipe. |
| Inserts.SaveKeepsTablesValid | crud.py:17-58 | A save keeps the store's invariant: keys, unique columns, nanoid shape and foreign keys. |
| Inserts.SavedGroupsOf | crud.py:35-95 | After a save, the groups joined for the new recipe are exactly its non-empty input groups, in input order, with their ingredients. |
| Inserts.SavedStepsOf | crud.py:52-109 | After a save, the steps of the new recipe are exactly the rows written for it. |
| Inserts.SelectAfterSave | crud.py:72-84 | After a save, the new recipe is found by its id and by its nanoid. It is found by its url unless the url is `""`, which the selection ignores. |
| Inserts.SaveThenGet | crud.py:17-121 | Every admissible read-back of a saved recipe has the new id, `url` = `canonical_url`, every scalar field of the input, and the input's instruction list. Its groups are an admissible read-back of the non-empty input groups, one per group. Each group whose ingredients hold no `,` and are not `[""]` comes back with its purpose and its ingredients up to order, even when another group holds a `,`. |
| Inserts.CleanInputGroupsReadBack | crud.py:35-103 | Every non-empty input group whose ingredients hold no `,` and are not `[""]` is read back with its purpose and its ingredients up to order. |
| Inserts.SaveKeepsOlderReads | crud.py:17-109 | A save leaves the joined groups and the steps of every older recipe unchanged. |

## Left out

- HTTP fetching, URL validation and scraping (`main.py`, `scrape_recipe_from_url` in `utils.py`): these are network I/O and foreign calls.
- `generate_url_safe_nanoid`: a random generator. Its length and alphabet are only assumed of the `nanoid` parameter, through `IsNanoid`, and freshness is required through `NanoidFree`.
- `main.go` and `db/db.go`: Go web and database wiring. `db/models.py` and `db/crud.py` are an older snapshot and are not part of this model.
- SQLAlchemy sessions and transactions: the commit is one atomic assignment of the four tables. Logging is not modelled.
- The pydantic `ValidationError` branch of `get_recipe_from_db` is not modelled. Every column type of a row matches the record's field type, and extra keys are ignored, so validation cannot fail on a row of the modelled tables. `GetRecipe` therefore returns None only when the selection finds nothing.
- A `canonical_url` that is already stored makes the insert raise, and the source does not catch the error. `SaveRecipe` requires the url to be free; no recovery is modelled, because the source has none.
- `executemany` with an empty `instructions_list` is modelled as inserting nothing.
- `RecipeScraperResult.ingredients`, `instructions` and `site_name` are carried in the datatype, but the store never reads them.
- The tables are sequences in insertion order. Keys are allocated as SQLite allocates rowids for tables that are only appended to; deletion is not part of the core, so key reuse after deletion is not modelled.
- The code has no get-or-create path and no recovery from a conflicting insert, so none is modelled.
- Nothing in the code requires instruction text to be non-empty or timings to be non-negative, so neither does the model.
- SaveRecipe: does not model SQLite's 64-bit signed INTEGER range. In the source, a timing outside [-2^63, 2^63) makes the insert raise OverflowError, and no key past 2^63-1 is allocated as the next key; the model's integers are unbounded, so it saves such timings and keeps allocating keys one past the last.
- GetRecipe: does not model the 64-bit range of the `recipe_id` parameter. In the source, `db.get` runs whenever `recipe_id` is non-zero, before `url` and `nanoid` are looked at, and raises OverflowError for an id outside [-2^63, 2^63). The model finds no recipe by such an id and goes on to `url` and `nanoid`.
