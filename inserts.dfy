/**
 * The rows save_recipe_to_db writes (crud.py), as functions of the input record and of the
 * keys the tables hand out, and what the reads of Queries return for them: the store's
 * constraints are kept, the new recipe is found by each of its keys, its steps come back
 * in order and its groups come back with their names, as far as group_concat allows.
 */
module Inserts {
  import opened Wrappers
  import opened Models
  import opened Schemas
  import opened Queries

  /** The `recipes` row inserted for `recipe`: `url` comes from `canonical_url`. */
  function RecipeRowFor(id: int, recipe: RecipeScraperResult, nanoid: string): (r: RecipeRow) {
    RecipeRow(
      id := id, language := Some(recipe.language), title := Some(recipe.title),
      author := Some(recipe.author), cookTime := recipe.cookTime, host := Some(recipe.host),
      totalTime := recipe.totalTime, image := Some(recipe.image), prepTime := recipe.prepTime,
      description := recipe.description, url := Some(recipe.canonicalUrl), nanoid := nanoid)
  }

  /** One `ingredient_groups` row per input group, keyed from `g0` on, named by its purpose. */
  function GroupRows(gs: seq<IngredientGroupSchema>, rid: int, g0: int): (r: seq<IngredientGroupRow>) {
    seq(|gs|, j requires 0 <= j < |gs| => IngredientGroupRow(g0 + j, gs[j].purpose, rid))
  }

  /** The `ingredients` rows of one group, keyed from `i0` on. */
  function GroupIngredientRows(names: seq<string>, rid: int, gid: int, i0: int): (r: seq<IngredientRow>) {
    seq(|names|, k requires 0 <= k < |names| => IngredientRow(i0 + k, names[k], rid, gid))
  }

  /** The `ingredients` rows of all groups, group after group, keyed from `i0` on. */
  function IngredientRows(gs: seq<IngredientGroupSchema>, rid: int, g0: int, i0: int): (r: seq<IngredientRow>)
    decreases |gs|
  {
    if gs == [] then []
    else
      var n := |gs| - 1;
      var prev := IngredientRows(gs[..n], rid, g0, i0);
      prev + GroupIngredientRows(gs[n].ingredients, rid, g0 + n, i0 + |prev|)
  }

  function TotalIngredients(gs: seq<IngredientGroupSchema>): (r: nat)
    decreases |gs|
  {
    if gs == [] then 0 else TotalIngredients(gs[..|gs| - 1]) + |gs[|gs| - 1].ingredients|
  }

  /** One `instruction_steps` row per instruction: step `i` has `order` i. */
  function StepRows(instrs: seq<string>, rid: int, s0: int): (r: seq<InstructionStepRow>) {
    seq(|instrs|, i requires 0 <= i < |instrs| => InstructionStepRow(s0 + i, i, instrs[i], rid))
  }

  /** The input groups the inner join keeps, in input order, with their ingredients. */
  function InputJoined(gs: seq<IngredientGroupSchema>): (r: seq<JoinedGroup>) {
    if gs == [] then []
    else
      (if gs[0].ingredients != [] then [JoinedGroup(gs[0].purpose, gs[0].ingredients)] else [])
        + InputJoined(gs[1..])
  }

  /**
   * The inner join keeps exactly the input groups with at least one ingredient, so the number
   * of groups drops exactly when some group is empty.
   */
  lemma {:induction false} InputJoinedMembers(gs: seq<IngredientGroupSchema>)
    ensures forall jg :: jg in InputJoined(gs) <==>
      exists g :: g in gs && g.ingredients != [] && jg == JoinedGroup(g.purpose, g.ingredients)
    ensures |InputJoined(gs)| <= |gs|
    ensures |InputJoined(gs)| == |gs| <==> forall g :: g in gs ==> g.ingredients != []
  {
    if gs != [] {
      InputJoinedMembers(gs[1..]);
      assert forall g :: g in gs <==> g == gs[0] || g in gs[1..];
    }
  }

  // ---------------------------------------------------------------------------------------
  // Shape of the rows written

  lemma {:induction false} AppendAssoc<T>(a: seq<T>, b: seq<T>, c: seq<T>)
    ensures (a + b) + c == a + (b + c)
  {
  }

  /** The rows of the first j + 1 groups are those of the first j and then group j's. */
  lemma {:induction false} GroupRowsSnoc(gs: seq<IngredientGroupSchema>, j: nat, rid: int, g0: int)
    requires j < |gs|
    ensures GroupRows(gs[..j + 1], rid, g0) == GroupRows(gs[..j], rid, g0) + [IngredientGroupRow(g0 + j, gs[j].purpose, rid)]
  {
  }

  lemma {:induction false} IngredientRowsSnoc(gs: seq<IngredientGroupSchema>, j: nat, rid: int, g0: int, i0: int)
    requires j < |gs|
    ensures
      var prev := IngredientRows(gs[..j], rid, g0, i0);
      IngredientRows(gs[..j + 1], rid, g0, i0) == prev + GroupIngredientRows(gs[j].ingredients, rid, g0 + j, i0 + |prev|)
  {
    assert gs[..j + 1][..j] == gs[..j];
  }

  lemma {:induction false} GroupIngredientRowsSnoc(names: seq<string>, k: nat, rid: int, gid: int, i0: int)
    requires k < |names|
    ensures GroupIngredientRows(names[..k + 1], rid, gid, i0)
      == GroupIngredientRows(names[..k], rid, gid, i0) + [IngredientRow(i0 + k, names[k], rid, gid)]
  {
  }

  lemma {:induction false} StepRowsSnoc(instrs: seq<string>, i: nat, rid: int, s0: int)
    requires i < |instrs|
    ensures StepRows(instrs[..i + 1], rid, s0) == StepRows(instrs[..i], rid, s0) + [InstructionStepRow(s0 + i, i, instrs[i], rid)]
  {
  }

  /** After an insert the next key is one past the inserted row's key. */
  lemma {:induction false} NextGroupId(a: seq<IngredientGroupRow>, x: IngredientGroupRow)
    ensures NextId(GroupIds(a + [x])) == x.id + 1
  {
    assert GroupIds(a + [x])[|a|] == x.id;
  }

  lemma {:induction false} NextIngredientId(a: seq<IngredientRow>, x: IngredientRow)
    ensures NextId(IngredientIds(a + [x])) == x.id + 1
  {
    assert IngredientIds(a + [x])[|a|] == x.id;
  }

  lemma {:induction false} NextStepId(a: seq<InstructionStepRow>, x: InstructionStepRow)
    ensures NextId(StepIds(a + [x])) == x.id + 1
  {
    assert StepIds(a + [x])[|a|] == x.id;
  }

  /** The ingredient rows: one per input ingredient, consecutive keys, the new recipe, a new group. */
  lemma {:induction false} IngredientRowsShape(gs: seq<IngredientGroupSchema>, rid: int, g0: int, i0: int)
    ensures |IngredientRows(gs, rid, g0, i0)| == TotalIngredients(gs)
    ensures forall k :: 0 <= k < |IngredientRows(gs, rid, g0, i0)| ==>
      && IngredientRows(gs, rid, g0, i0)[k].id == i0 + k
      && IngredientRows(gs, rid, g0, i0)[k].recipeId == rid
      && g0 <= IngredientRows(gs, rid, g0, i0)[k].ingredientGroupId < g0 + |gs|
    decreases |gs|
  {
    if gs != [] {
      IngredientRowsShape(gs[..|gs| - 1], rid, g0, i0);
    }
  }

  // ---------------------------------------------------------------------------------------
  // The ingredient names of one group

  lemma {:induction false} NamesInAppend(a: seq<IngredientRow>, b: seq<IngredientRow>, gid: int)
    ensures NamesIn(a + b, gid) == NamesIn(a, gid) + NamesIn(b, gid)
  {
    if a != [] {
      assert (a + b)[1..] == a[1..] + b;
      NamesInAppend(a[1..], b, gid);
    } else {
      assert a + b == b;
    }
  }

  lemma {:induction false} NamesInNone(a: seq<IngredientRow>, gid: int)
    requires forall k :: 0 <= k < |a| ==> a[k].ingredientGroupId != gid
    ensures NamesIn(a, gid) == []
  {
    if a != [] {
      NamesInNone(a[1..], gid);
    }
  }

  lemma {:induction false} NamesInGroupRows(names: seq<string>, rid: int, gid: int, i0: int)
    ensures NamesIn(GroupIngredientRows(names, rid, gid, i0), gid) == names
  {
    if names != [] {
      assert GroupIngredientRows(names, rid, gid, i0)[1..] == GroupIngredientRows(names[1..], rid, gid, i0 + 1);
      NamesInGroupRows(names[1..], rid, gid, i0 + 1);
    }
  }

  /** Group `g0 + j` of the rows written holds exactly the `j`-th input group's ingredients, in order. */
  lemma {:induction false} NamesInIngredientRows(gs: seq<IngredientGroupSchema>, rid: int, g0: int, i0: int, j: nat)
    requires j < |gs|
    ensures NamesIn(IngredientRows(gs, rid, g0, i0), g0 + j) == gs[j].ingredients
    decreases |gs|
  {
    var n := |gs| - 1;
    var prev := IngredientRows(gs[..n], rid, g0, i0);
    var last := GroupIngredientRows(gs[n].ingredients, rid, g0 + n, i0 + |prev|);
    assert IngredientRows(gs, rid, g0, i0) == prev + last;
    NamesInAppend(prev, last, g0 + j);
    if j < n {
      assert gs[..n][j] == gs[j];
      NamesInIngredientRows(gs[..n], rid, g0, i0, j);
      NamesInNone(last, g0 + j);
    } else {
      assert |gs[..n]| == n;
      IngredientRowsShape(gs[..n], rid, g0, i0);
      NamesInNone(prev, g0 + j);
      NamesInGroupRows(gs[n].ingredients, rid, g0 + n, i0 + |prev|);
    }
  }

  // ---------------------------------------------------------------------------------------
  // The groups of one recipe

  lemma {:induction false} GroupsOfAppend(a: seq<IngredientGroupRow>, b: seq<IngredientGroupRow>, ings: seq<IngredientRow>, rid: int)
    ensures GroupsOf(a + b, ings, rid) == GroupsOf(a, ings, rid) + GroupsOf(b, ings, rid)
  {
    if a != [] {
      assert (a + b)[1..] == a[1..] + b;
      GroupsOfAppend(a[1..], b, ings, rid);
    } else {
      assert a + b == b;
    }
  }

  lemma {:induction false} GroupsOfForeign(a: seq<IngredientGroupRow>, ings: seq<IngredientRow>, rid: int)
    requires forall k :: 0 <= k < |a| ==> a[k].recipeId != rid
    ensures GroupsOf(a, ings, rid) == []
  {
    if a != [] {
      GroupsOfForeign(a[1..], ings, rid);
    }
  }

  lemma {:induction false} GroupsOfGroupRows(gs: seq<IngredientGroupSchema>, ings: seq<IngredientRow>, rid: int, g0: int)
    requires forall j :: 0 <= j < |gs| ==> NamesIn(ings, g0 + j) == gs[j].ingredients
    ensures GroupsOf(GroupRows(gs, rid, g0), ings, rid) == InputJoined(gs)
  {
    if gs != [] {
      var rows := GroupRows(gs, rid, g0);
      assert rows[0] == IngredientGroupRow(g0, gs[0].purpose, rid);
      assert rows[1..] == GroupRows(gs[1..], rid, g0 + 1);
      assert NamesIn(ings, g0 + 0) == gs[0].ingredients;
      forall j | 0 <= j < |gs[1..]| ensures NamesIn(ings, g0 + 1 + j) == gs[1..][j].ingredients {
        assert NamesIn(ings, g0 + (j + 1)) == gs[j + 1].ingredients;
      }
      GroupsOfGroupRows(gs[1..], ings, rid, g0 + 1);
      var head := if gs[0].ingredients != [] then [JoinedGroup(gs[0].purpose, gs[0].ingredients)] else [];
      assert GroupsOf(rows, ings, rid) == head + GroupsOf(rows[1..], ings, rid);
      assert InputJoined(gs) == head + InputJoined(gs[1..]);
    }
  }

  // ---------------------------------------------------------------------------------------
  // The steps of one recipe

  lemma {:induction false} StepsOfAppend(a: seq<InstructionStepRow>, b: seq<InstructionStepRow>, rid: int)
    ensures StepsOf(a + b, rid) == StepsOf(a, rid) + StepsOf(b, rid)
  {
    if a != [] {
      assert (a + b)[1..] == a[1..] + b;
      StepsOfAppend(a[1..], b, rid);
    } else {
      assert a + b == b;
    }
  }

  lemma {:induction false} StepsOfForeign(a: seq<InstructionStepRow>, rid: int)
    requires forall k :: 0 <= k < |a| ==> a[k].recipeId != rid
    ensures StepsOf(a, rid) == []
  {
    if a != [] {
      StepsOfForeign(a[1..], rid);
    }
  }

  lemma {:induction false} StepsOfOwn(a: seq<InstructionStepRow>, rid: int)
    requires forall k :: 0 <= k < |a| ==> a[k].recipeId == rid
    ensures StepsOf(a, rid) == a
  {
    if a != [] {
      StepsOfOwn(a[1..], rid);
      assert a == [a[0]] + a[1..];
    }
  }

  /** Equal multisets with equal last elements stay equal without them. */
  lemma {:induction false} MultisetDropLast<T>(a: seq<T>, b: seq<T>)
    requires multiset(a) == multiset(b) && a != [] && b != [] && a[|a| - 1] == b[|b| - 1]
    ensures multiset(a[..|a| - 1]) == multiset(b[..|b| - 1])
  {
    assert a == a[..|a| - 1] + [a[|a| - 1]];
    assert b == b[..|b| - 1] + [b[|b| - 1]];
    calc {
      multiset(a[..|a| - 1]);
      multiset(a) - multiset{a[|a| - 1]};
      multiset(b) - multiset{b[|b| - 1]};
      multiset(b[..|b| - 1]);
    }
  }

  /** A sorted arrangement of the rows written ends with the last step, the one of largest order. */
  lemma {:induction false} SortedStepRowsLast(ss: seq<InstructionStepRow>, instrs: seq<string>, rid: int, s0: int)
    requires multiset(ss) == multiset(StepRows(instrs, rid, s0)) && SortedByOrder(ss) && instrs != []
    ensures |ss| == |instrs| && ss[|ss| - 1] == StepRows(instrs, rid, s0)[|instrs| - 1]
  {
    var rows := StepRows(instrs, rid, s0);
    var n := |instrs|;
    assert |ss| == |multiset(ss)| == |multiset(rows)| == n;
    assert rows[n - 1] in multiset(ss);
    var i :| 0 <= i < |ss| && ss[i] == rows[n - 1];
    assert ss[n - 1] in multiset(rows);
    var k :| 0 <= k < n && rows[k] == ss[n - 1];
    assert i < n - 1 ==> ss[i].order <= ss[n - 1].order;
  }

  /**
   * Any arrangement of the rows written for `instrs` that is sorted by `order` is those rows in
   * the order written: their orders are 0 .. n-1 with no gap and no repeat.
   */
  lemma {:induction false} SortedStepRows(ss: seq<InstructionStepRow>, instrs: seq<string>, rid: int, s0: int)
    requires multiset(ss) == multiset(StepRows(instrs, rid, s0)) && SortedByOrder(ss)
    ensures ss == StepRows(instrs, rid, s0)
    decreases |instrs|
  {
    var rows := StepRows(instrs, rid, s0);
    var n := |instrs|;
    if n == 0 {
      assert |ss| == |multiset(ss)| == 0;
    } else {
      SortedStepRowsLast(ss, instrs, rid, s0);
      MultisetDropLast(ss, rows);
      var init := StepRows(instrs[..n - 1], rid, s0);
      assert rows[..n - 1] == init;
      assert SortedByOrder(ss[..n - 1]);
      SortedStepRows(ss[..n - 1], instrs[..n - 1], rid, s0);
      assert ss == ss[..n - 1] + [ss[n - 1]];
      assert rows == init + [rows[n - 1]];
    }
  }

  /** Steps written for `instrs` read back, sorted by `order`, as `instrs` itself. */
  lemma {:induction false} StepsReadRoundTrip(out: seq<string>, instrs: seq<string>, rid: int, s0: int)
    requires StepsRead(out, StepRows(instrs, rid, s0))
    ensures out == instrs
  {
    var ss :| multiset(ss) == multiset(StepRows(instrs, rid, s0)) && SortedByOrder(ss) && out == Instructions(ss);
    SortedStepRows(ss, instrs, rid, s0);
  }

  // ---------------------------------------------------------------------------------------
  // The store after save_recipe_to_db

  lemma {:induction false} RecipeIdsAppend(a: seq<RecipeRow>, b: seq<RecipeRow>)
    ensures RecipeIds(a + b) == RecipeIds(a) + RecipeIds(b)
  {
  }

  lemma {:induction false} GroupIdsAppend(a: seq<IngredientGroupRow>, b: seq<IngredientGroupRow>)
    ensures GroupIds(a + b) == GroupIds(a) + GroupIds(b)
  {
  }

  lemma {:induction false} IngredientIdsAppend(a: seq<IngredientRow>, b: seq<IngredientRow>)
    ensures IngredientIds(a + b) == IngredientIds(a) + IngredientIds(b)
  {
  }

  lemma {:induction false} StepIdsAppend(a: seq<InstructionStepRow>, b: seq<InstructionStepRow>)
    ensures StepIds(a + b) == StepIds(a) + StepIds(b)
  {
  }

  /** The rows written keep every key column positive and strictly increasing. */
  lemma {:induction false} SaveKeepsKeys(
    rs: seq<RecipeRow>, gs: seq<IngredientGroupRow>, ings: seq<IngredientRow>, ss: seq<InstructionStepRow>,
    recipe: RecipeScraperResult, nanoid: string)
    requires KeysOk(RecipeIds(rs)) && KeysOk(GroupIds(gs)) && KeysOk(IngredientIds(ings)) && KeysOk(StepIds(ss))
    ensures
      var id, g0, i0, s0 := NextId(RecipeIds(rs)), NextId(GroupIds(gs)), NextId(IngredientIds(ings)), NextId(StepIds(ss));
      && KeysOk(RecipeIds(rs + [RecipeRowFor(id, recipe, nanoid)]))
      && KeysOk(GroupIds(gs + GroupRows(recipe.ingredientGroups, id, g0)))
      && KeysOk(IngredientIds(ings + IngredientRows(recipe.ingredientGroups, id, g0, i0)))
      && KeysOk(StepIds(ss + StepRows(recipe.instructionsList, id, s0)))
  {
    var id, g0, i0, s0 := NextId(RecipeIds(rs)), NextId(GroupIds(gs)), NextId(IngredientIds(ings)), NextId(StepIds(ss));
    var row := RecipeRowFor(id, recipe, nanoid);
    RecipeIdsAppend(rs, [row]);
    assert RecipeIds([row]) == [id];
    AppendConsecutiveKeys(RecipeIds(rs), [id]);
    GroupKeysAppend(gs, recipe.ingredientGroups, id);
    IngredientKeysAppend(ings, recipe.ingredientGroups, id, g0);
    StepKeysAppend(ss, recipe.instructionsList, id);
  }

  lemma {:induction false} GroupKeysAppend(gs: seq<IngredientGroupRow>, input: seq<IngredientGroupSchema>, rid: int)
    requires KeysOk(GroupIds(gs))
    ensures KeysOk(GroupIds(gs + GroupRows(input, rid, NextId(GroupIds(gs)))))
  {
    var gr := GroupRows(input, rid, NextId(GroupIds(gs)));
    GroupIdsAppend(gs, gr);
    AppendConsecutiveKeys(GroupIds(gs), GroupIds(gr));
  }

  lemma {:induction false} IngredientKeysAppend(ings: seq<IngredientRow>, input: seq<IngredientGroupSchema>, rid: int, g0: int)
    requires KeysOk(IngredientIds(ings))
    ensures KeysOk(IngredientIds(ings + IngredientRows(input, rid, g0, NextId(IngredientIds(ings)))))
  {
    var ir := IngredientRows(input, rid, g0, NextId(IngredientIds(ings)));
    IngredientRowsShape(input, rid, g0, NextId(IngredientIds(ings)));
    IngredientIdsAppend(ings, ir);
    AppendConsecutiveKeys(IngredientIds(ings), IngredientIds(ir));
  }

  lemma {:induction false} StepKeysAppend(ss: seq<InstructionStepRow>, instrs: seq<string>, rid: int)
    requires KeysOk(StepIds(ss))
    ensures KeysOk(StepIds(ss + StepRows(instrs, rid, NextId(StepIds(ss)))))
  {
    var sr := StepRows(instrs, rid, NextId(StepIds(ss)));
    StepIdsAppend(ss, sr);
    AppendConsecutiveKeys(StepIds(ss), StepIds(sr));
  }

  /** A fresh `url` and a fresh well-formed `nanoid` keep both UNIQUE constraints. */
  lemma {:induction false} SaveKeepsUnique(rs: seq<RecipeRow>, row: RecipeRow)
    requires UniqueUrls(rs) && UniqueNanoids(rs)
    requires row.url.Some? && UrlFree(rs, row.url.value) && NanoidFree(rs, row.nanoid)
    ensures UniqueUrls(rs + [row]) && UniqueNanoids(rs + [row])
  {
    var all := rs + [row];
    forall i, j | 0 <= i < j < |all| ensures all[i].url.Some? ==> all[i].url != all[j].url {
      if j == |rs| {
        assert all[i] in rs;
      }
    }
    forall i, j | 0 <= i < j < |all| ensures all[i].nanoid != all[j].nanoid {
      if j == |rs| {
        assert all[i] in rs;
      }
    }
  }

  /** Every group row refers to a recipe: the old rows to old recipes, the new ones to the new recipe. */
  lemma {:induction false} SaveKeepsGroupKeys(rs: seq<RecipeRow>, gs: seq<IngredientGroupRow>, row: RecipeRow, input: seq<IngredientGroupSchema>, g0: int)
    requires forall g :: g in gs ==> g.recipeId in RecipeIds(rs)
    ensures forall g :: g in gs + GroupRows(input, row.id, g0) ==> g.recipeId in RecipeIds(rs + [row])
  {
    RecipeIdsAppend(rs, [row]);
    assert RecipeIds(rs + [row])[|rs|] == row.id;
    forall g | g in gs + GroupRows(input, row.id, g0) ensures g.recipeId in RecipeIds(rs + [row]) {
      if g !in gs {
        var j :| 0 <= j < |input| && GroupRows(input, row.id, g0)[j] == g;
      }
    }
  }

  /** Every ingredient row refers to a recipe and a group: the new ones to the new recipe and a new group. */
  lemma {:induction false} SaveKeepsIngredientKeys(
    rs: seq<RecipeRow>, gs: seq<IngredientGroupRow>, ings: seq<IngredientRow>, row: RecipeRow,
    input: seq<IngredientGroupSchema>, g0: int, i0: int)
    requires forall i :: i in ings ==> i.recipeId in RecipeIds(rs) && i.ingredientGroupId in GroupIds(gs)
    ensures forall i :: i in ings + IngredientRows(input, row.id, g0, i0) ==>
      i.recipeId in RecipeIds(rs + [row]) && i.ingredientGroupId in GroupIds(gs + GroupRows(input, row.id, g0))
  {
    var gr := GroupRows(input, row.id, g0);
    var ir := IngredientRows(input, row.id, g0, i0);
    RecipeIdsAppend(rs, [row]);
    GroupIdsAppend(gs, gr);
    IngredientRowsShape(input, row.id, g0, i0);
    assert RecipeIds(rs + [row])[|rs|] == row.id;
    forall i | i in ings + ir ensures i.recipeId in RecipeIds(rs + [row]) && i.ingredientGroupId in GroupIds(gs + gr) {
      if i !in ings {
        var k :| 0 <= k < |ir| && ir[k] == i;
        var j := i.ingredientGroupId - g0;
        assert GroupIds(gs + gr)[|gs| + j] == gr[j].id == i.ingredientGroupId;
      } else {
        assert i.ingredientGroupId in GroupIds(gs);
        var j :| 0 <= j < |gs| && GroupIds(gs)[j] == i.ingredientGroupId;
        assert GroupIds(gs + gr)[j] == i.ingredientGroupId;
      }
    }
  }

  /** Every step row refers to a recipe: the new ones to the new recipe. */
  lemma {:induction false} SaveKeepsStepKeys(rs: seq<RecipeRow>, ss: seq<InstructionStepRow>, row: RecipeRow, instrs: seq<string>, s0: int)
    requires forall s :: s in ss ==> s.recipeId in RecipeIds(rs)
    ensures forall s :: s in ss + StepRows(instrs, row.id, s0) ==> s.recipeId in RecipeIds(rs + [row])
  {
    RecipeIdsAppend(rs, [row]);
    assert RecipeIds(rs + [row])[|rs|] == row.id;
    forall s | s in ss + StepRows(instrs, row.id, s0) ensures s.recipeId in RecipeIds(rs + [row]) {
      if s !in ss {
        var j :| 0 <= j < |instrs| && StepRows(instrs, row.id, s0)[j] == s;
      }
    }
  }

  /** save_recipe_to_db keeps the store's invariant, TablesValid. */
  lemma {:induction false} SaveKeepsTablesValid(
    rs: seq<RecipeRow>, gs: seq<IngredientGroupRow>, ings: seq<IngredientRow>, ss: seq<InstructionStepRow>,
    recipe: RecipeScraperResult, nanoid: string)
    requires TablesValid(rs, gs, ings, ss)
    requires UrlFree(rs, recipe.canonicalUrl) && IsNanoid(nanoid) && NanoidFree(rs, nanoid)
    ensures
      var id, g0, i0, s0 := NextId(RecipeIds(rs)), NextId(GroupIds(gs)), NextId(IngredientIds(ings)), NextId(StepIds(ss));
      TablesValid(
        rs + [RecipeRowFor(id, recipe, nanoid)],
        gs + GroupRows(recipe.ingredientGroups, id, g0),
        ings + IngredientRows(recipe.ingredientGroups, id, g0, i0),
        ss + StepRows(recipe.instructionsList, id, s0))
  {
    var id, g0, i0, s0 := NextId(RecipeIds(rs)), NextId(GroupIds(gs)), NextId(IngredientIds(ings)), NextId(StepIds(ss));
    var row := RecipeRowFor(id, recipe, nanoid);
    SaveKeepsKeys(rs, gs, ings, ss, recipe, nanoid);
    SaveKeepsUnique(rs, row);
    SaveKeepsGroupKeys(rs, gs, row, recipe.ingredientGroups, g0);
    SaveKeepsIngredientKeys(rs, gs, ings, row, recipe.ingredientGroups, g0, i0);
    SaveKeepsStepKeys(rs, ss, row, recipe.instructionsList, s0);
  }

  /** The rows already stored belong to older recipes and groups than the ones a save creates. */
  lemma {:induction false} OldRowsForeign(rs: seq<RecipeRow>, gs: seq<IngredientGroupRow>, ings: seq<IngredientRow>, ss: seq<InstructionStepRow>)
    requires TablesValid(rs, gs, ings, ss)
    ensures forall k :: 0 <= k < |gs| ==> gs[k].recipeId < NextId(RecipeIds(rs))
    ensures forall k :: 0 <= k < |ings| ==> ings[k].ingredientGroupId < NextId(GroupIds(gs))
    ensures forall k :: 0 <= k < |ss| ==> ss[k].recipeId < NextId(RecipeIds(rs))
  {
    forall k | 0 <= k < |gs| ensures gs[k].recipeId < NextId(RecipeIds(rs)) {
      KeyBelowNext(RecipeIds(rs), gs[k].recipeId);
    }
    forall k | 0 <= k < |ings| ensures ings[k].ingredientGroupId < NextId(GroupIds(gs)) {
      KeyBelowNext(GroupIds(gs), ings[k].ingredientGroupId);
    }
    forall k | 0 <= k < |ss| ensures ss[k].recipeId < NextId(RecipeIds(rs)) {
      KeyBelowNext(RecipeIds(rs), ss[k].recipeId);
    }
  }

  /** Each new group's ingredients, read from the whole table, are the input group's ingredients. */
  lemma {:induction false} SavedNamesIn(ings: seq<IngredientRow>, input: seq<IngredientGroupSchema>, id: int, g0: int, i0: int, j: nat)
    requires forall k :: 0 <= k < |ings| ==> ings[k].ingredientGroupId < g0
    requires j < |input|
    ensures NamesIn(ings + IngredientRows(input, id, g0, i0), g0 + j) == input[j].ingredients
  {
    var ir := IngredientRows(input, id, g0, i0);
    NamesInAppend(ings, ir, g0 + j);
    NamesInNone(ings, g0 + j);
    NamesInIngredientRows(input, id, g0, i0, j);
  }

  /** The groups read for the new recipe are the input groups the inner join keeps. */
  lemma {:induction false} SavedGroupsOf(
    rs: seq<RecipeRow>, gs: seq<IngredientGroupRow>, ings: seq<IngredientRow>, ss: seq<InstructionStepRow>,
    input: seq<IngredientGroupSchema>)
    requires TablesValid(rs, gs, ings, ss)
    ensures
      var id, g0, i0 := NextId(RecipeIds(rs)), NextId(GroupIds(gs)), NextId(IngredientIds(ings));
      GroupsOf(gs + GroupRows(input, id, g0), ings + IngredientRows(input, id, g0, i0), id) == InputJoined(input)
  {
    var id, g0, i0 := NextId(RecipeIds(rs)), NextId(GroupIds(gs)), NextId(IngredientIds(ings));
    var gr, all := GroupRows(input, id, g0), ings + IngredientRows(input, id, g0, i0);
    OldRowsForeign(rs, gs, ings, ss);
    GroupsOfAppend(gs, gr, all, id);
    GroupsOfForeign(gs, all, id);
    forall j | 0 <= j < |input| ensures NamesIn(all, g0 + j) == input[j].ingredients {
      SavedNamesIn(ings, input, id, g0, i0, j);
    }
    GroupsOfGroupRows(input, all, id, g0);
  }

  /** The steps read for the new recipe are exactly the rows written for it, in order. */
  lemma {:induction false} SavedStepsOf(rs: seq<RecipeRow>, gs: seq<IngredientGroupRow>, ings: seq<IngredientRow>, ss: seq<InstructionStepRow>,
    instrs: seq<string>)
    requires TablesValid(rs, gs, ings, ss)
    ensures
      var id, s0 := NextId(RecipeIds(rs)), NextId(StepIds(ss));
      StepsOf(ss + StepRows(instrs, id, s0), id) == StepRows(instrs, id, s0)
  {
    var id, s0 := NextId(RecipeIds(rs)), NextId(StepIds(ss));
    StepsOfAppend(ss, StepRows(instrs, id, s0), id);
    forall k | 0 <= k < |ss| ensures ss[k].recipeId != id {
      KeyBelowNext(RecipeIds(rs), ss[k].recipeId);
    }
    StepsOfForeign(ss, id);
    StepsOfOwn(StepRows(instrs, id, s0), id);
    assert [] + StepRows(instrs, id, s0) == StepRows(instrs, id, s0);
  }

  /**
   * The new recipe is found by its key, by its nanoid, and by its url unless that url is the
   * empty string, which the url selector ignores.
   */
  lemma {:induction false} SelectAfterSave(rs: seq<RecipeRow>, recipe: RecipeScraperResult, nanoid: string)
    requires KeysOk(RecipeIds(rs)) && UniqueUrls(rs) && UniqueNanoids(rs)
    requires UrlFree(rs, recipe.canonicalUrl) && IsNanoid(nanoid) && NanoidFree(rs, nanoid)
    ensures
      var row := RecipeRowFor(NextId(RecipeIds(rs)), recipe, nanoid);
      && Select(rs + [row], Some(row.id), None, None) == Some(row)
      && Select(rs + [row], None, None, Some(nanoid)) == Some(row)
      && (recipe.canonicalUrl != "" ==> Select(rs + [row], None, Some(recipe.canonicalUrl), None) == Some(row))
      && (recipe.canonicalUrl == "" ==> Select(rs + [row], None, Some(recipe.canonicalUrl), None) == None)
  {
    var id := NextId(RecipeIds(rs));
    var row := RecipeRowFor(id, recipe, nanoid);
    var rs' := rs + [row];
    RecipeIdsAppend(rs, [row]);
    assert RecipeIds([row]) == [id];
    AppendConsecutiveKeys(RecipeIds(rs), [id]);
    assert KeysOk(RecipeIds(rs'));
    SaveKeepsUnique(rs, row);
    RecipesBelowNext(rs);
    assert rs'[|rs|] == row;
    SavedRowFound(rs', row, ById(id));
    SavedRowFound(rs', row, ByNanoid(nanoid));
    SavedRowFound(rs', row, ByUrl(recipe.canonicalUrl));
  }

  /** A row the keys and UNIQUE constraints admit is what a lookup by any of its keys finds. */
  lemma {:induction false} SavedRowFound(rs: seq<RecipeRow>, row: RecipeRow, k: Key)
    requires KeysOk(RecipeIds(rs)) && UniqueUrls(rs) && UniqueNanoids(rs)
    requires row in rs && Matches(row, k)
    ensures FindWhere(rs, k) == Some(row)
  {
    UniqueKeyMatch(rs, k);
    FindWhereUnique(rs, k, row);
  }

  /**
   * Read back through group_concat and split, every non-empty input group whose ingredients
   * are separator-free and not the lone empty name returns with its purpose and its
   * ingredients up to order, whatever the other groups hold.
   */
  lemma {:induction false} CleanInputGroupsReadBack(out: seq<IngredientGroupSchema>, input: seq<IngredientGroupSchema>)
    requires GroupsRead(out, InputJoined(input))
    ensures forall g :: g in input && g.ingredients != [] && SeparatorFree(g.ingredients) && g.ingredients != [""] ==>
      exists i ::
        && 0 <= i < |out|
        && out[i].purpose == g.purpose
        && multiset(out[i].ingredients) == multiset(g.ingredients)
  {
    InputJoinedMembers(input);
    forall g | g in input && g.ingredients != [] && SeparatorFree(g.ingredients) && g.ingredients != [""]
      ensures exists i :: 0 <= i < |out| && out[i].purpose == g.purpose && multiset(out[i].ingredients) == multiset(g.ingredients)
    {
      GroupsReadKeepsCleanGroup(out, InputJoined(input), JoinedGroup(g.purpose, g.ingredients));
    }
  }

  /**
   * Reading back a saved recipe by any admissible outcome of the queries: every scalar field is
   * the input's (`url` being `canonical_url`), the instructions are the input's in order, and
   * the groups are the input's non-empty groups read through group_concat and split. Each
   * separator-free group other than the lone empty name comes back with its purpose and its
   * ingredients up to order; when every group is such, the groups match one for one.
   */
  lemma {:induction false} SaveThenGet(
    rs: seq<RecipeRow>, gs: seq<IngredientGroupRow>, ings: seq<IngredientRow>, ss: seq<InstructionStepRow>,
    recipe: RecipeScraperResult, nanoid: string, out: RecipeFromDatabase)
    requires TablesValid(rs, gs, ings, ss)
    requires
      var id, g0, i0, s0 := NextId(RecipeIds(rs)), NextId(GroupIds(gs)), NextId(IngredientIds(ings)), NextId(StepIds(ss));
      Hydrates(out, RecipeRowFor(id, recipe, nanoid),
        GroupsOf(gs + GroupRows(recipe.ingredientGroups, id, g0), ings + IngredientRows(recipe.ingredientGroups, id, g0, i0), id),
        StepsOf(ss + StepRows(recipe.instructionsList, id, s0), id))
    ensures out.id == NextId(RecipeIds(rs)) && out.url == Some(recipe.canonicalUrl)
    ensures && out.title == Some(recipe.title) && out.author == Some(recipe.author)
            && out.language == Some(recipe.language) && out.host == Some(recipe.host)
            && out.image == Some(recipe.image) && out.description == recipe.description
            && out.cookTime == recipe.cookTime && out.totalTime == recipe.totalTime
            && out.prepTime == recipe.prepTime
    ensures out.instructionsList == recipe.instructionsList
    ensures GroupsRead(out.ingredientGroups, InputJoined(recipe.ingredientGroups))
    ensures |out.ingredientGroups| == |InputJoined(recipe.ingredientGroups)|
    ensures forall g :: g in recipe.ingredientGroups && g.ingredients != [] && SeparatorFree(g.ingredients) && g.ingredients != [""] ==>
      exists i ::
        && 0 <= i < |out.ingredientGroups|
        && out.ingredientGroups[i].purpose == g.purpose
        && multiset(out.ingredientGroups[i].ingredients) == multiset(g.ingredients)
    ensures (forall g :: g in recipe.ingredientGroups ==> SeparatorFree(g.ingredients) && g.ingredients != [""]) ==>
      SameGroups(out.ingredientGroups, InputJoined(recipe.ingredientGroups))
  {
    var id, s0 := NextId(RecipeIds(rs)), NextId(StepIds(ss));
    SavedStepsOf(rs, gs, ings, ss, recipe.instructionsList);
    StepsReadRoundTrip(out.instructionsList, recipe.instructionsList, id, s0);
    SavedGroupsOf(rs, gs, ings, ss, recipe.ingredientGroups);
    var joined := InputJoined(recipe.ingredientGroups);
    GroupsReadCount(out.ingredientGroups, joined);
    InputJoinedMembers(recipe.ingredientGroups);
    CleanInputGroupsReadBack(out.ingredientGroups, recipe.ingredientGroups);
    if forall g :: g in recipe.ingredientGroups ==> SeparatorFree(g.ingredients) && g.ingredients != [""] {
      GroupsReadFaithful(out.ingredientGroups, joined);
    }
  }

  // ---------------------------------------------------------------------------------------
  // Older recipes after a later save

  /** The join of a recipe depends on the ingredient table only through each group's names. */
  lemma {:induction false} GroupsOfSameNames(a: seq<IngredientGroupRow>, ings: seq<IngredientRow>, ings': seq<IngredientRow>, rid: int)
    requires forall k :: 0 <= k < |a| ==> NamesIn(ings, a[k].id) == NamesIn(ings', a[k].id)
    ensures GroupsOf(a, ings, rid) == GroupsOf(a, ings', rid)
  {
    if a != [] {
      GroupsOfSameNames(a[1..], ings, ings', rid);
    }
  }

  /**
   * A save leaves the groups and the steps of every older recipe as they were: the rows it
   * writes belong to the new recipe and to new groups only.
   */
  lemma {:induction false} SaveKeepsOlderReads(
    rs: seq<RecipeRow>, gs: seq<IngredientGroupRow>, ings: seq<IngredientRow>, ss: seq<InstructionStepRow>,
    recipe: RecipeScraperResult, rid: int)
    requires TablesValid(rs, gs, ings, ss)
    requires rid < NextId(RecipeIds(rs))
    ensures
      var id, g0, i0 := NextId(RecipeIds(rs)), NextId(GroupIds(gs)), NextId(IngredientIds(ings));
      GroupsOf(gs + GroupRows(recipe.ingredientGroups, id, g0),
        ings + IngredientRows(recipe.ingredientGroups, id, g0, i0), rid) == GroupsOf(gs, ings, rid)
    ensures
      var id, s0 := NextId(RecipeIds(rs)), NextId(StepIds(ss));
      StepsOf(ss + StepRows(recipe.instructionsList, id, s0), rid) == StepsOf(ss, rid)
  {
    var input := recipe.ingredientGroups;
    var id, g0, i0, s0 := NextId(RecipeIds(rs)), NextId(GroupIds(gs)), NextId(IngredientIds(ings)), NextId(StepIds(ss));
    var gr, ir := GroupRows(input, id, g0), IngredientRows(input, id, g0, i0);
    GroupsOfAppend(gs, gr, ings + ir, rid);
    GroupsOfForeign(gr, ings + ir, rid);
    IngredientRowsShape(input, id, g0, i0);
    forall k | 0 <= k < |gs| ensures NamesIn(ings + ir, gs[k].id) == NamesIn(ings, gs[k].id) {
      assert GroupIds(gs)[k] == gs[k].id;
      KeyBelowNext(GroupIds(gs), gs[k].id);
      NamesInAppend(ings, ir, gs[k].id);
      NamesInNone(ir, gs[k].id);
    }
    GroupsOfSameNames(gs, ings + ir, ings, rid);
    var sr := StepRows(recipe.instructionsList, id, s0);
    StepsOfAppend(ss, sr, rid);
    StepsOfForeign(sr, rid);
  }
}
