/**
 * The four tables of the recipe store (models.py) as row datatypes, and the invariant the
 * store keeps over them. Part of it the schema declares: the unique `url` and `nanoid` columns
 * of `recipes`, and the foreign keys of the three child tables, which SQLite checks only when
 * `PRAGMA foreign_keys` is on and which the inserts keep in any case. Part of it comes from
 * elsewhere: positive, increasing integer keys are how SQLite allocates rowids, and the
 * nanoid's shape is what the generator produces.
 */
module Models {
  import opened Wrappers

  /** A row of `recipes`. Every descriptive column and `url` are nullable; `nanoid` is not. */
  datatype RecipeRow = RecipeRow(
    id: int,
    language: Option<string>,
    title: Option<string>,
    author: Option<string>,
    cookTime: Option<int>,
    host: Option<string>,
    totalTime: Option<int>,
    image: Option<string>,
    prepTime: Option<int>,
    description: Option<string>,
    url: Option<string>,
    nanoid: string)

  /** A row of `instruction_steps`: its position `order`, its text and its recipe. */
  datatype InstructionStepRow = InstructionStepRow(id: int, order: int, instruction: string, recipeId: int)

  /** A row of `ingredient_groups`: an optional name and the owning recipe. */
  datatype IngredientGroupRow = IngredientGroupRow(id: int, name: Option<string>, recipeId: int)

  /** A row of `ingredients`: a name, its recipe and its group. */
  datatype IngredientRow = IngredientRow(id: int, name: string, recipeId: int, ingredientGroupId: int)

  /** The alphabet and length the public identifier generator draws from. */
  const NanoidAlphabet: string := "0123456789ABCDEFGHIJKLMNOPQRSTUVWXYZ_abcdefghijklmnopqrstuvwxyz"
  const NanoidSize: nat := 12

  predicate IsNanoid(s: string) {
    |s| == NanoidSize && forall i :: 0 <= i < |s| ==> s[i] in NanoidAlphabet
  }

  function RecipeIds(rs: seq<RecipeRow>): (ids: seq<int>)
    ensures |ids| == |rs|
  {
    seq(|rs|, i requires 0 <= i < |rs| => rs[i].id)
  }

  function GroupIds(gs: seq<IngredientGroupRow>): (ids: seq<int>)
    ensures |ids| == |gs|
  {
    seq(|gs|, i requires 0 <= i < |gs| => gs[i].id)
  }

  function IngredientIds(ings: seq<IngredientRow>): (ids: seq<int>)
    ensures |ids| == |ings|
  {
    seq(|ings|, i requires 0 <= i < |ings| => ings[i].id)
  }

  function StepIds(ss: seq<InstructionStepRow>): (ids: seq<int>)
    ensures |ids| == |ss|
  {
    seq(|ss|, i requires 0 <= i < |ss| => ss[i].id)
  }

  /**
   * The primary-key column of a table, in insertion order: positive and strictly increasing,
   * as SQLite's rowid allocation keeps it when rows are only ever appended.
   */
  predicate KeysOk(ids: seq<int>) {
    && (forall i :: 0 <= i < |ids| ==> 1 <= ids[i])
    && (forall i, j :: 0 <= i < j < |ids| ==> ids[i] < ids[j])
  }

  /** The key SQLite gives the next inserted row: one more than the largest key, or 1. */
  function NextId(ids: seq<int>): (r: int) {
    if ids == [] then 1 else ids[|ids| - 1] + 1
  }

  /** No two recipes share a non-null `url` (SQL UNIQUE admits several NULLs). */
  predicate UniqueUrls(rs: seq<RecipeRow>) {
    forall i, j :: 0 <= i < j < |rs| && rs[i].url.Some? ==> rs[i].url != rs[j].url
  }

  /** No two recipes share a `nanoid`. */
  predicate UniqueNanoids(rs: seq<RecipeRow>) {
    forall i, j :: 0 <= i < j < |rs| ==> rs[i].nanoid != rs[j].nanoid
  }

  /** `url` is not yet stored: inserting it does not violate the UNIQUE constraint. */
  predicate UrlFree(rs: seq<RecipeRow>, url: string) {
    forall r :: r in rs ==> r.url != Some(url)
  }

  predicate NanoidFree(rs: seq<RecipeRow>, nanoid: string) {
    forall r :: r in rs ==> r.nanoid != nanoid
  }

  /**
   * The invariant the store keeps over the four tables: keys as SQLite allocates them, the
   * UNIQUE columns, the nanoid shape the generator gives, and the foreign keys.
   */
  predicate TablesValid(
    rs: seq<RecipeRow>, gs: seq<IngredientGroupRow>, ings: seq<IngredientRow>, ss: seq<InstructionStepRow>)
  {
    && KeysOk(RecipeIds(rs)) && KeysOk(GroupIds(gs)) && KeysOk(IngredientIds(ings)) && KeysOk(StepIds(ss))
    && UniqueUrls(rs) && UniqueNanoids(rs)
    && (forall r :: r in rs ==> IsNanoid(r.nanoid))
    && (forall g :: g in gs ==> g.recipeId in RecipeIds(rs))
    && (forall i :: i in ings ==> i.recipeId in RecipeIds(rs) && i.ingredientGroupId in GroupIds(gs))
    && (forall s :: s in ss ==> s.recipeId in RecipeIds(rs))
  }

  /** A key already in a table is below the key the next insert receives. */
  lemma {:induction false} KeyBelowNext(ids: seq<int>, x: int)
    requires KeysOk(ids) && x in ids
    ensures x < NextId(ids)
  {
    var k :| 0 <= k < |ids| && ids[k] == x;
    if k < |ids| - 1 {
      assert ids[k] < ids[|ids| - 1];
    }
  }

  /** Every stored recipe's key lies below the next key, which is therefore positive. */
  lemma {:induction false} RecipesBelowNext(rs: seq<RecipeRow>)
    requires KeysOk(RecipeIds(rs))
    ensures forall r :: r in rs ==> r.id < NextId(RecipeIds(rs))
    ensures 1 <= NextId(RecipeIds(rs))
  {
    forall r | r in rs ensures r.id < NextId(RecipeIds(rs)) {
      var k :| 0 <= k < |rs| && rs[k] == r;
      KeyBelowNext(RecipeIds(rs), RecipeIds(rs)[k]);
    }
    if rs != [] {
      assert RecipeIds(rs)[|rs| - 1] >= 1;
    }
  }

  /**
   * Appending rows whose keys are NextId, NextId + 1, ... keeps the key column valid, and the
   * insert after them receives the key just past the last one.
   */
  lemma {:induction false} AppendConsecutiveKeys(ids: seq<int>, more: seq<int>)
    requires KeysOk(ids)
    requires forall k :: 0 <= k < |more| ==> more[k] == NextId(ids) + k
    ensures KeysOk(ids + more)
    ensures NextId(ids + more) == NextId(ids) + |more|
  {
    var all := ids + more;
    forall i, j | 0 <= i < j < |all| ensures all[i] < all[j] {
      if j < |ids| {
      } else if i < |ids| {
        KeyBelowNext(ids, ids[i]);
      }
    }
    forall i | 0 <= i < |all| ensures 1 <= all[i] {
      if i >= |ids| && ids != [] {
        assert ids[|ids| - 1] >= 1;
      }
    }
  }
}
