/**
 * The recipe store (crud.py): the four tables held by one object, save_recipe_to_db as
 * SaveRecipe, get_recipe_from_db as GetRecipe and get_all_recipes as GetAllRecipes.
 */
module Crud {
  import opened Wrappers
  import opened Models
  import opened Schemas
  import opened Queries
  import opened Inserts

  /** One `(nanoid, title)` row of get_all_recipes. */
  datatype Summary = Summary(nanoid: string, title: Option<string>)

  /**
   * The inserts of one group's ingredients, in order; each row gets the next key of the
   * `ingredients` table.
   */
  method InsertIngredients(table: seq<IngredientRow>, names: seq<string>, rid: int, gid: int)
    returns (table': seq<IngredientRow>)
    ensures table' == table + GroupIngredientRows(names, rid, gid, NextId(IngredientIds(table)))
    ensures NextId(IngredientIds(table')) == NextId(IngredientIds(table)) + |names|
  {
    var i0 := NextId(IngredientIds(table));
    table' := table;
    for k := 0 to |names|
      invariant table' == table + GroupIngredientRows(names[..k], rid, gid, i0)
      invariant NextId(IngredientIds(table')) == i0 + k
    {
      var row := IngredientRow(NextId(IngredientIds(table')), names[k], rid, gid);
      GroupIngredientRowsSnoc(names, k, rid, gid, i0);
      NextIngredientId(table', row);
      table' := table' + [row];
    }
    assert names[..|names|] == names;
  }

  /** After group `j`'s ingredients are appended, the table holds the rows of groups 0 .. j. */
  lemma {:induction false} IngredientLoopStep(
    ings: seq<IngredientRow>, before: seq<IngredientRow>, after: seq<IngredientRow>,
    gs: seq<IngredientGroupSchema>, j: nat, rid: int, g0: int, i0: int)
    requires j < |gs|
    requires before == ings + IngredientRows(gs[..j], rid, g0, i0)
    requires NextId(IngredientIds(before)) == i0 + (|before| - |ings|)
    requires after == before + GroupIngredientRows(gs[j].ingredients, rid, g0 + j, NextId(IngredientIds(before)))
    ensures after == ings + IngredientRows(gs[..j + 1], rid, g0, i0)
  {
    var prev := IngredientRows(gs[..j], rid, g0, i0);
    IngredientRowsSnoc(gs, j, rid, g0, i0);
    AppendAssoc(ings, prev, GroupIngredientRows(gs[j].ingredients, rid, g0 + j, i0 + |prev|));
  }

  /**
   * The inserts of the groups of recipe `rid`, in order: each group's row with the next key of
   * `ingredient_groups`, then its ingredients referring to that key.
   */
  method InsertGroups(groups: seq<IngredientGroupRow>, ings: seq<IngredientRow>, gs: seq<IngredientGroupSchema>, rid: int)
    returns (groups': seq<IngredientGroupRow>, ings': seq<IngredientRow>)
    ensures groups' == groups + GroupRows(gs, rid, NextId(GroupIds(groups)))
    ensures ings' == ings + IngredientRows(gs, rid, NextId(GroupIds(groups)), NextId(IngredientIds(ings)))
  {
    var g0, i0 := NextId(GroupIds(groups)), NextId(IngredientIds(ings));
    groups', ings' := groups, ings;
    for j := 0 to |gs|
      invariant groups' == groups + GroupRows(gs[..j], rid, g0)
      invariant ings' == ings + IngredientRows(gs[..j], rid, g0, i0)
      invariant NextId(GroupIds(groups')) == g0 + j
      invariant NextId(IngredientIds(ings')) == i0 + (|ings'| - |ings|)
    {
      var groupRow := IngredientGroupRow(NextId(GroupIds(groups')), gs[j].purpose, rid);
      GroupRowsSnoc(gs, j, rid, g0);
      NextGroupId(groups', groupRow);
      AppendAssoc(groups, GroupRows(gs[..j], rid, g0), [groupRow]);
      groups' := groups' + [groupRow];
      ghost var before := ings';
      ings' := InsertIngredients(ings', gs[j].ingredients, rid, groupRow.id);
      IngredientLoopStep(ings, before, ings', gs, j, rid, g0, i0);
    }
    assert gs[..|gs|] == gs;
  }

  /**
   * The bulk insert of the instruction steps of recipe `rid`: step `i` carries `order` i and
   * each row gets the next key of `instruction_steps`.
   */
  method InsertSteps(table: seq<InstructionStepRow>, instrs: seq<string>, rid: int)
    returns (table': seq<InstructionStepRow>)
    ensures table' == table + StepRows(instrs, rid, NextId(StepIds(table)))
  {
    var s0 := NextId(StepIds(table));
    table' := table;
    for i := 0 to |instrs|
      invariant table' == table + StepRows(instrs[..i], rid, s0)
      invariant NextId(StepIds(table')) == s0 + i
    {
      var row := InstructionStepRow(NextId(StepIds(table')), i, instrs[i], rid);
      StepRowsSnoc(instrs, i, rid, s0);
      NextStepId(table', row);
      table' := table' + [row];
    }
    assert instrs[..|instrs|] == instrs;
  }

  /**
   * Reading the groups in the order the join yields them, concatenating in that order, and
   * sorting the steps is one of the outcomes Hydrates admits.
   */
  lemma {:induction false} JoinedOrderHydrates(
    row: RecipeRow, joined: seq<JoinedGroup>, stored: seq<InstructionStepRow>,
    groups: seq<IngredientGroupSchema>, instrs: seq<string>)
    requires |groups| == |joined|
    requires forall i :: 0 <= i < |joined| ==>
      groups[i] == IngredientGroupSchema(ReadIngredients(GroupConcat(joined[i].names)), joined[i].name)
    requires instrs == Instructions(SortByOrder(stored))
    ensures Hydrates(ToRecord(row, groups, instrs), row, joined, stored)
  {
    forall i | 0 <= i < |groups| ensures ConcatRead(groups[i].ingredients, joined[i].names) {
      // group_concat in the joined order is one of the orders ConcatRead admits.
      assert groups[i].ingredients == ReadIngredients(GroupConcat(joined[i].names));
    }
    assert GroupsRead(groups, joined);
    assert StepsRead(instrs, stored);
  }

  class Store {
    var recipes: seq<RecipeRow>
    var ingredientGroups: seq<IngredientGroupRow>
    var ingredients: seq<IngredientRow>
    var instructionSteps: seq<InstructionStepRow>

    /** The invariant the store keeps over its tables (TablesValid). */
    ghost predicate Valid()
      reads this
    {
      TablesValid(recipes, ingredientGroups, ingredients, instructionSteps)
    }

    /** An empty database. */
    constructor ()
      ensures Valid()
      ensures recipes == [] && ingredientGroups == [] && ingredients == [] && instructionSteps == []
    {
      recipes, ingredientGroups, ingredients, instructionSteps := [], [], [], [];
    }

    /**
     * save_recipe_to_db: inserts the recipe row, then per group its row and its ingredient
     * rows, then one step row per instruction, and commits them together. `nanoid` is the
     * value the column default draws from the identifier generator. A `canonical_url` that is
     * already stored makes the insert fail, which the source does not handle: callers must
     * not pass one.
     */
    method SaveRecipe(recipe: RecipeScraperResult, nanoid: string) returns (id: int)
      requires Valid()
      requires UrlFree(recipes, recipe.canonicalUrl)
      requires IsNanoid(nanoid) && NanoidFree(recipes, nanoid)
      modifies this
      ensures Valid()
      ensures id == NextId(RecipeIds(old(recipes))) && 1 <= id
      ensures forall r :: r in old(recipes) ==> r.id < id
      ensures recipes == old(recipes) + [RecipeRowFor(id, recipe, nanoid)]
      ensures ingredientGroups ==
        old(ingredientGroups) + GroupRows(recipe.ingredientGroups, id, NextId(GroupIds(old(ingredientGroups))))
      ensures ingredients ==
        old(ingredients) + IngredientRows(recipe.ingredientGroups, id,
          NextId(GroupIds(old(ingredientGroups))), NextId(IngredientIds(old(ingredients))))
      ensures instructionSteps ==
        old(instructionSteps) + StepRows(recipe.instructionsList, id, NextId(StepIds(old(instructionSteps))))
    {
      id := NextId(RecipeIds(recipes));
      var newRecipes := recipes + [RecipeRowFor(id, recipe, nanoid)];
      var newGroups, newIngredients := InsertGroups(ingredientGroups, ingredients, recipe.ingredientGroups, id);
      var newSteps := InsertSteps(instructionSteps, recipe.instructionsList, id);

      SaveKeepsTablesValid(recipes, ingredientGroups, ingredients, instructionSteps, recipe, nanoid);
      RecipesBelowNext(recipes);
      // The commit publishes every row of the aggregate at once.
      recipes, ingredientGroups, ingredients, instructionSteps := newRecipes, newGroups, newIngredients, newSteps;
    }

    /**
     * get_recipe_from_db: the selectors are tried in the order recipe_id, url, nanoid, each
     * truthy one replacing the recipe found so far. The recipe's groups are read through the
     * inner join and group_concat, its steps ordered by `order`. The result is one of the
     * records the queries admit, and `None` exactly when the selection finds no recipe.
     */
    method GetRecipe(recipeId: Option<int>, url: Option<string>, nanoid: Option<string>)
      returns (r: Option<RecipeFromDatabase>)
      requires Valid()
      ensures r.None? <==> Select(recipes, recipeId, url, nanoid).None?
      ensures r.Some? ==>
        var row := Select(recipes, recipeId, url, nanoid).value;
        Hydrates(r.value, row, GroupsOf(ingredientGroups, ingredients, row.id), StepsOf(instructionSteps, row.id))
    {
      var recipe: Option<RecipeRow> := None;
      if IdIsTruthy(recipeId) {
        recipe := FindWhere(recipes, ById(recipeId.value));
      }
      if TextIsTruthy(url) {
        recipe := FindWhere(recipes, ByUrl(url.value));
      }
      if TextIsTruthy(nanoid) {
        recipe := FindWhere(recipes, ByNanoid(nanoid.value));
      }
      if recipe.None? {
        return None;
      }
      var row := recipe.value;

      var joined := GroupsOf(ingredientGroups, ingredients, row.id);
      var groups := seq(|joined|, i requires 0 <= i < |joined| =>
        IngredientGroupSchema(ReadIngredients(GroupConcat(joined[i].names)), joined[i].name));
      var steps := SortByOrder(StepsOf(instructionSteps, row.id));
      var instrs := Instructions(steps);
      r := Some(ToRecord(row, groups, instrs));
      JoinedOrderHydrates(row, joined, StepsOf(instructionSteps, row.id), groups, instrs);
    }

    /**
     * get_all_recipes: one `(nanoid, title)` pair per stored recipe, in an order the query does
     * not fix; the nanoids are distinct, so no recipe is listed twice.
     */
    method GetAllRecipes() returns (summaries: seq<Summary>)
      requires Valid()
      ensures |summaries| == |recipes|
      ensures forall rec :: rec in recipes ==> Summary(rec.nanoid, rec.title) in summaries
      ensures forall s :: s in summaries ==> exists rec :: rec in recipes && s == Summary(rec.nanoid, rec.title)
      ensures forall i, j :: 0 <= i < j < |summaries| ==> summaries[i].nanoid != summaries[j].nanoid
    {
      var rs := recipes;
      summaries := seq(|rs|, i requires 0 <= i < |rs| => Summary(rs[i].nanoid, rs[i].title));
      forall rec | rec in rs ensures Summary(rec.nanoid, rec.title) in summaries {
        var i :| 0 <= i < |rs| && rs[i] == rec;
        assert summaries[i] == Summary(rec.nanoid, rec.title);
      }
      forall s | s in summaries ensures exists rec :: rec in rs && s == Summary(rec.nanoid, rec.title) {
        var i :| 0 <= i < |summaries| && summaries[i] == s;
        assert rs[i] in rs;
      }
    }

    /**
     * A save followed by a read by the returned key: the tables change as SaveRecipe says, and
     * the recipe is found as the row the save wrote, with the input's instructions, and with
     * its groups read through group_concat: each group group_concat cannot garble comes back
     * intact, whatever the other groups hold.
     */
    method SaveAndReload(recipe: RecipeScraperResult, nanoid: string) returns (id: int, r: Option<RecipeFromDatabase>)
      requires Valid()
      requires UrlFree(recipes, recipe.canonicalUrl)
      requires IsNanoid(nanoid) && NanoidFree(recipes, nanoid)
      modifies this
      ensures Valid()
      ensures id == NextId(RecipeIds(old(recipes))) && 1 <= id
      ensures recipes == old(recipes) + [RecipeRowFor(id, recipe, nanoid)]
      ensures ingredientGroups ==
        old(ingredientGroups) + GroupRows(recipe.ingredientGroups, id, NextId(GroupIds(old(ingredientGroups))))
      ensures ingredients ==
        old(ingredients) + IngredientRows(recipe.ingredientGroups, id,
          NextId(GroupIds(old(ingredientGroups))), NextId(IngredientIds(old(ingredients))))
      ensures instructionSteps ==
        old(instructionSteps) + StepRows(recipe.instructionsList, id, NextId(StepIds(old(instructionSteps))))
      ensures r.Some? && r.value.id == id
      ensures r.value == ToRecord(RecipeRowFor(id, recipe, nanoid), r.value.ingredientGroups, r.value.instructionsList)
      ensures r.value.url == Some(recipe.canonicalUrl) && r.value.title == Some(recipe.title)
      ensures r.value.instructionsList == recipe.instructionsList
      ensures GroupsRead(r.value.ingredientGroups, InputJoined(recipe.ingredientGroups))
      ensures |r.value.ingredientGroups| == |InputJoined(recipe.ingredientGroups)|
      ensures forall g :: g in recipe.ingredientGroups && g.ingredients != [] && SeparatorFree(g.ingredients) && g.ingredients != [""] ==>
        exists i ::
          && 0 <= i < |r.value.ingredientGroups|
          && r.value.ingredientGroups[i].purpose == g.purpose
          && multiset(r.value.ingredientGroups[i].ingredients) == multiset(g.ingredients)
      ensures (forall g :: g in recipe.ingredientGroups ==> SeparatorFree(g.ingredients) && g.ingredients != [""]) ==>
        SameGroups(r.value.ingredientGroups, InputJoined(recipe.ingredientGroups))
    {
      ghost var rs, gs, ings, ss := recipes, ingredientGroups, ingredients, instructionSteps;
      id := SaveRecipe(recipe, nanoid);
      SelectAfterSave(rs, recipe, nanoid);
      r := GetRecipe(Some(id), None, None);
      SaveThenGet(rs, gs, ings, ss, recipe, nanoid, r.value);
    }
  }
}
