/**
 * The reads get_recipe_from_db and get_all_recipes issue (crud.py): the choice of recipe among
 * the three selectors, the inner join of groups with their ingredients read through
 * group_concat and split, and the instruction steps ordered by `order`.
 *
 * SQL leaves three orders open: the order of the grouped rows, the order group_concat
 * concatenates in, and the order of steps that share an `order`. The functions here compute
 * one admissible order; the predicates ConcatRead, GroupsRead and StepsRead describe every
 * admissible outcome, and the read-back properties are proved from those predicates.
 */
module Queries {
  import opened Wrappers
  import opened Models
  import opened Schemas

  /** The three ways a recipe is looked up: primary key, `url` column, `nanoid` column. */
  datatype Key = ById(id: int) | ByUrl(url: string) | ByNanoid(nanoid: string)

  predicate Matches(r: RecipeRow, k: Key) {
    match k
    case ById(id) => r.id == id
    case ByUrl(u) => r.url == Some(u)
    case ByNanoid(n) => r.nanoid == n
  }

  /** The row a lookup by `k` returns (`db.get` or `scalar_one_or_none`), if any. */
  function FindWhere(rs: seq<RecipeRow>, k: Key): (r: Option<RecipeRow>)
    ensures r.Some? ==> r.value in rs && Matches(r.value, k)
    ensures r.None? <==> forall x :: x in rs ==> !Matches(x, k)
  {
    if rs == [] then None
    else if Matches(rs[0], k) then Some(rs[0])
    else FindWhere(rs[1..], k)
  }

  ghost predicate AtMostOneMatch(rs: seq<RecipeRow>, k: Key) {
    forall i, j :: 0 <= i < j < |rs| && Matches(rs[i], k) ==> !Matches(rs[j], k)
  }

  /** The key and UNIQUE constraints leave at most one row per lookup key. */
  lemma {:induction false} UniqueKeyMatch(rs: seq<RecipeRow>, k: Key)
    requires KeysOk(RecipeIds(rs)) && UniqueUrls(rs) && UniqueNanoids(rs)
    ensures AtMostOneMatch(rs, k)
  {
    forall i, j | 0 <= i < j < |rs| && Matches(rs[i], k) ensures !Matches(rs[j], k) {
      assert RecipeIds(rs)[i] < RecipeIds(rs)[j];
    }
  }

  /**
   * When at most one row matches, the lookup returns the matching row whatever its position,
   * so `scalar_one_or_none` never sees two rows.
   */
  lemma {:induction false} FindWhereUnique(rs: seq<RecipeRow>, k: Key, x: RecipeRow)
    requires AtMostOneMatch(rs, k) && x in rs && Matches(x, k)
    ensures FindWhere(rs, k) == Some(x)
  {
    if rs[0] != x {
      var j :| 0 <= j < |rs| && rs[j] == x;
      assert 0 < j && !Matches(rs[0], k);
      assert x in rs[1..];
      forall i, j' | 0 <= i < j' < |rs[1..]| && Matches(rs[1..][i], k) ensures !Matches(rs[1..][j'], k) {
        assert rs[1..][i] == rs[i + 1] && rs[1..][j'] == rs[j' + 1];
      }
      FindWhereUnique(rs[1..], k, x);
    }
  }

  /** Rows appended after a match do not change what a lookup finds: it returns the first match. */
  lemma {:induction false} FindWhereAppend(rs: seq<RecipeRow>, extra: seq<RecipeRow>, k: Key)
    requires FindWhere(rs, k).Some?
    ensures FindWhere(rs + extra, k) == FindWhere(rs, k)
  {
    assert (rs + extra)[0] == rs[0];
    if !Matches(rs[0], k) {
      assert (rs + extra)[1..] == rs[1..] + extra;
      FindWhereAppend(rs[1..], extra, k);
    }
  }

  /** Python truthiness of the selectors: 0, "" and None are all ignored. */
  predicate IdIsTruthy(o: Option<int>) {
    o.Some? && o.value != 0
  }

  predicate TextIsTruthy(o: Option<string>) {
    o.Some? && o.value != ""
  }

  /**
   * The recipe get_recipe_from_db settles on, by precedence: a truthy `nanoid` decides, else a
   * truthy `url`, else a truthy `recipe_id`; the deciding lookup's result stands even if it
   * finds nothing.
   */
  function Select(rs: seq<RecipeRow>, recipeId: Option<int>, url: Option<string>, nanoid: Option<string>)
    : (r: Option<RecipeRow>)
  {
    if TextIsTruthy(nanoid) then FindWhere(rs, ByNanoid(nanoid.value))
    else if TextIsTruthy(url) then FindWhere(rs, ByUrl(url.value))
    else if IdIsTruthy(recipeId) then FindWhere(rs, ById(recipeId.value))
    else None
  }

  /**
   * The precedence Select encodes: a truthy `nanoid` decides alone, even when it finds nothing
   * and `url` would have; a truthy `url` overrides `recipe_id`; falsy selectors count as absent.
   */
  lemma {:induction false} SelectPrecedence(rs: seq<RecipeRow>, recipeId: Option<int>, url: Option<string>, nanoid: string)
    ensures nanoid != "" ==> Select(rs, recipeId, url, Some(nanoid)) == FindWhere(rs, ByNanoid(nanoid))
    ensures nanoid != "" && (forall r :: r in rs ==> r.nanoid != nanoid) ==> Select(rs, recipeId, url, Some(nanoid)).None?
    ensures TextIsTruthy(url) ==> Select(rs, recipeId, url, None) == FindWhere(rs, ByUrl(url.value))
    ensures Select(rs, recipeId, url, Some("")) == Select(rs, recipeId, url, None)
    ensures Select(rs, recipeId, Some(""), None) == Select(rs, recipeId, None, None)
    ensures Select(rs, Some(0), None, None) == None && Select(rs, None, None, None) == None
  {
  }

  /** A recipe the selectors find is still the one they find after more recipes are inserted. */
  lemma {:induction false} SelectAppend(
    rs: seq<RecipeRow>, extra: seq<RecipeRow>, recipeId: Option<int>, url: Option<string>, nanoid: Option<string>)
    requires Select(rs, recipeId, url, nanoid).Some?
    ensures Select(rs + extra, recipeId, url, nanoid) == Select(rs, recipeId, url, nanoid)
  {
    if TextIsTruthy(nanoid) {
      FindWhereAppend(rs, extra, ByNanoid(nanoid.value));
    } else if TextIsTruthy(url) {
      FindWhereAppend(rs, extra, ByUrl(url.value));
    } else {
      FindWhereAppend(rs, extra, ById(recipeId.value));
    }
  }

  /** The names of the ingredient rows of group `gid`, in table order. */
  function NamesIn(ings: seq<IngredientRow>, gid: int): (r: seq<string>) {
    if ings == [] then []
    else (if ings[0].ingredientGroupId == gid then [ings[0].name] else []) + NamesIn(ings[1..], gid)
  }

  /** A result row of the grouped join: the group's name and its ingredient names. */
  datatype JoinedGroup = JoinedGroup(name: Option<string>, names: seq<string>)

  /**
   * The groups of recipe `rid` joined with their ingredients and grouped by group, in table
   * order. The join is an inner join: a group without ingredients yields no row.
   */
  function GroupsOf(gs: seq<IngredientGroupRow>, ings: seq<IngredientRow>, rid: int): (r: seq<JoinedGroup>)
    ensures forall jg :: jg in r ==> jg.names != []
  {
    if gs == [] then []
    else
      var names := NamesIn(ings, gs[0].id);
      (if gs[0].recipeId == rid && names != [] then [JoinedGroup(gs[0].name, names)] else [])
        + GroupsOf(gs[1..], ings, rid)
  }

  /** The instruction steps of recipe `rid`, in table order. */
  function StepsOf(ss: seq<InstructionStepRow>, rid: int): (r: seq<InstructionStepRow>)
    ensures forall s :: s in r ==> s in ss && s.recipeId == rid
  {
    if ss == [] then []
    else (if ss[0].recipeId == rid then [ss[0]] else []) + StepsOf(ss[1..], rid)
  }

  predicate SortedByOrder(ss: seq<InstructionStepRow>) {
    forall i, j :: 0 <= i < j < |ss| ==> ss[i].order <= ss[j].order
  }

  function InsertByOrder(x: InstructionStepRow, ss: seq<InstructionStepRow>): (r: seq<InstructionStepRow>) {
    if ss == [] || x.order <= ss[0].order then [x] + ss
    else [ss[0]] + InsertByOrder(x, ss[1..])
  }

  lemma {:induction false} InsertByOrderCount(x: InstructionStepRow, ss: seq<InstructionStepRow>)
    ensures multiset(InsertByOrder(x, ss)) == multiset(ss) + multiset{x}
  {
    if ss != [] && x.order > ss[0].order {
      InsertByOrderCount(x, ss[1..]);
      assert ss == [ss[0]] + ss[1..];
    }
  }

  /** Every row of a sorted sequence has an `order` no smaller than the first row's. */
  lemma {:induction false} SortedHeadLeast(ss: seq<InstructionStepRow>, y: InstructionStepRow)
    requires SortedByOrder(ss) && ss != [] && y in ss
    ensures ss[0].order <= y.order
  {
    var k :| 0 <= k < |ss| && ss[k] == y;
    if k > 0 {
      assert ss[0].order <= ss[k].order;
    }
  }

  /** A row no later than any row of a sorted sequence can go in front of it. */
  lemma {:induction false} SortedConsLeast(h: InstructionStepRow, rest: seq<InstructionStepRow>)
    requires SortedByOrder(rest)
    requires forall y :: y in rest ==> h.order <= y.order
    ensures SortedByOrder([h] + rest)
  {
    var r := [h] + rest;
    forall i, j | 0 <= i < j < |r| ensures r[i].order <= r[j].order {
      assert r[j] == rest[j - 1];
      if i > 0 {
        assert r[i] == rest[i - 1];
      }
    }
  }

  lemma {:induction false} InsertByOrderSorted(x: InstructionStepRow, ss: seq<InstructionStepRow>)
    requires SortedByOrder(ss)
    ensures SortedByOrder(InsertByOrder(x, ss))
  {
    if ss == [] {
      SortedConsLeast(x, ss);
    } else if x.order <= ss[0].order {
      forall y | y in ss ensures x.order <= y.order {
        SortedHeadLeast(ss, y);
      }
      SortedConsLeast(x, ss);
    } else {
      var rest := InsertByOrder(x, ss[1..]);
      assert SortedByOrder(ss[1..]);
      InsertByOrderSorted(x, ss[1..]);
      InsertByOrderCount(x, ss[1..]);
      forall y | y in rest ensures ss[0].order <= y.order {
        assert y in multiset(rest);
        if y != x {
          assert y in ss;
          SortedHeadLeast(ss, y);
        }
      }
      SortedConsLeast(ss[0], rest);
    }
  }

  /** `ORDER BY order`: a rearrangement of the steps that is sorted by `order`. */
  function SortByOrder(ss: seq<InstructionStepRow>): (r: seq<InstructionStepRow>)
    ensures SortedByOrder(r) && multiset(r) == multiset(ss)
  {
    if ss == [] then []
    else
      var rest := SortByOrder(ss[1..]);
      InsertByOrderSorted(ss[0], rest);
      InsertByOrderCount(ss[0], rest);
      assert ss == [ss[0]] + ss[1..];
      InsertByOrder(ss[0], rest)
  }

  function Instructions(ss: seq<InstructionStepRow>): (r: seq<string>) {
    seq(|ss|, i requires 0 <= i < |ss| => ss[i].instruction)
  }

  /** The separator passed to group_concat and to split. */
  const Separator: char := ','

  /** `group_concat(name, ',')` over the names, in the order given. */
  function GroupConcat(p: seq<string>): (r: string) {
    if |p| == 0 then ""
    else if |p| == 1 then p[0]
    else p[0] + [Separator] + GroupConcat(p[1..])
  }

  /** Python's `s.split(',')`: the separator-free pieces between separators, at least one. */
  function Split(s: string): (r: seq<string>)
    ensures |r| >= 1
    ensures forall x :: x in r ==> Separator !in x
  {
    if s == [] then [""]
    else
      var rest := Split(s[1..]);
      if s[0] == Separator then [""] + rest
      else [[s[0]] + rest[0]] + rest[1..]
  }

  /** `concat.split(',') if concat else []`. */
  function ReadIngredients(concat: string): (r: seq<string>) {
    if concat == "" then [] else Split(concat)
  }

  predicate SeparatorFree(names: seq<string>) {
    forall i :: 0 <= i < |names| ==> Separator !in names[i]
  }

  lemma {:induction false} SplitPrefix(x: string, t: string)
    requires Separator !in x
    ensures Split(x + t) == [x + Split(t)[0]] + Split(t)[1..]
  {
    if x == [] {
      assert x + t == t;
      assert x + Split(t)[0] == Split(t)[0];
      assert Split(t) == [Split(t)[0]] + Split(t)[1..];
    } else {
      SplitPrefix(x[1..], t);
      assert (x + t)[1..] == x[1..] + t;
      assert [x[0]] + (x[1..] + Split(t)[0]) == x + Split(t)[0];
    }
  }

  /** Splitting a concatenation of separator-free names gives the names back. */
  lemma {:induction false} SplitGroupConcat(p: seq<string>)
    requires |p| >= 1 && SeparatorFree(p)
    ensures Split(GroupConcat(p)) == p
  {
    if |p| == 1 {
      SplitPrefix(p[0], "");
      assert p[0] + "" == p[0];
    } else {
      var tail := GroupConcat(p[1..]);
      SplitGroupConcat(p[1..]);
      var t := [Separator] + tail;
      assert t[1..] == tail;
      assert Split(t) == [""] + p[1..];
      SplitPrefix(p[0], t);
      assert p[0] + [Separator] + tail == p[0] + t;
      assert p[0] + "" == p[0];
      assert p == [p[0]] + p[1..];
    }
  }

  /**
   * Concatenating and reading back is the identity when no name holds the separator and the
   * list is not the single empty name. ConcatReadSplitsSeparator and ConcatReadLosesLoneEmpty
   * show that the identity fails when either condition is dropped.
   */
  lemma {:induction false} GroupConcatRoundTrip(p: seq<string>)
    requires SeparatorFree(p) && p != [""]
    ensures ReadIngredients(GroupConcat(p)) == p
  {
    if p != [] {
      assert |p| == 1 ==> GroupConcat(p) == p[0] != "";
      assert |GroupConcat(p)| >= 1;
      SplitGroupConcat(p);
    }
  }

  /** The ingredient names read back for a group whose stored names are `names`. */
  ghost predicate ConcatRead(xs: seq<string>, names: seq<string>) {
    exists p :: multiset(p) == multiset(names) && xs == ReadIngredients(GroupConcat(p))
  }

  /** The groups read back: the joined rows in some order, each one's names read through ConcatRead. */
  ghost predicate GroupsRead(out: seq<IngredientGroupSchema>, joined: seq<JoinedGroup>) {
    exists perm: seq<JoinedGroup> ::
      && multiset(perm) == multiset(joined) && |perm| == |out|
      && forall i :: 0 <= i < |out| ==>
        out[i].purpose == perm[i].name && ConcatRead(out[i].ingredients, perm[i].names)
  }

  /** The groups in some order, each with the same ingredient names up to order. */
  ghost predicate SameGroups(out: seq<IngredientGroupSchema>, joined: seq<JoinedGroup>) {
    exists perm: seq<JoinedGroup> ::
      && multiset(perm) == multiset(joined) && |perm| == |out|
      && forall i :: 0 <= i < |out| ==>
        out[i].purpose == perm[i].name && multiset(out[i].ingredients) == multiset(perm[i].names)
  }

  /** The instruction texts read back: the steps in some order sorted by `order`. */
  ghost predicate StepsRead(instrs: seq<string>, steps: seq<InstructionStepRow>) {
    exists ss :: multiset(ss) == multiset(steps) && SortedByOrder(ss) && instrs == Instructions(ss)
  }

  /** `RecipeFromDatabase(**recipe.__dict__, ingredient_groups=..., instructions_list=...)`. */
  function ToRecord(row: RecipeRow, groups: seq<IngredientGroupSchema>, instrs: seq<string>): (r: RecipeFromDatabase) {
    RecipeFromDatabase(
      id := row.id, language := row.language, author := row.author, description := row.description,
      host := row.host, cookTime := row.cookTime, totalTime := row.totalTime, prepTime := row.prepTime,
      image := row.image, title := row.title, ingredientGroups := groups, instructionsList := instrs,
      url := row.url)
  }

  /** `out` is a record get_recipe_from_db may build from `row`, its joined groups and its steps. */
  ghost predicate Hydrates(out: RecipeFromDatabase, row: RecipeRow, joined: seq<JoinedGroup>, steps: seq<InstructionStepRow>) {
    && out == ToRecord(row, out.ingredientGroups, out.instructionsList)
    && GroupsRead(out.ingredientGroups, joined)
    && StepsRead(out.instructionsList, steps)
  }

  /** Separator-free names other than the lone empty name read back as the same multiset. */
  lemma {:induction false} ConcatReadFaithful(xs: seq<string>, names: seq<string>)
    requires ConcatRead(xs, names) && SeparatorFree(names) && names != [""]
    ensures multiset(xs) == multiset(names)
  {
    var p :| multiset(p) == multiset(names) && xs == ReadIngredients(GroupConcat(p));
    forall i | 0 <= i < |p| ensures Separator !in p[i] {
      assert p[i] in multiset(names);
      var k :| 0 <= k < |names| && names[k] == p[i];
    }
    assert p != [""] by {
      if |p| == 1 {
        assert |names| == |multiset(names)| == |multiset(p)| == 1;
        assert names[0] in multiset(p);
        assert names == [p[0]];
      }
    }
    GroupConcatRoundTrip(p);
  }

  /** A group holding the single empty name reads back with no ingredients. */
  lemma {:induction false} ConcatReadLosesLoneEmpty(xs: seq<string>)
    requires ConcatRead(xs, [""])
    ensures xs == []
  {
    var p :| multiset(p) == multiset([""]) && xs == ReadIngredients(GroupConcat(p));
    assert |p| == |multiset(p)| == 1;
    assert p[0] in multiset([""]);
    assert p == [""];
  }

  /**
   * Joining the pieces of `split(',')` with the separator gives the string back. With Split's
   * own ensures and SplitGroupConcat, this pins Split down: its result is the one list of
   * separator-free pieces, at least one, whose join is the string.
   */
  lemma {:induction false} JoinSplit(s: string)
    ensures GroupConcat(Split(s)) == s
    decreases |s|
  {
    if s != [] {
      var rest := Split(s[1..]);
      JoinSplit(s[1..]);
      if s[0] == Separator {
        assert Split(s) == [""] + rest;
        assert ([""] + rest)[1..] == rest;
        assert s == [s[0]] + s[1..];
      } else if |rest| == 1 {
        assert Split(s) == [[s[0]] + rest[0]];
        assert s == [s[0]] + s[1..];
      } else {
        var head := [s[0]] + rest[0];
        assert Split(s) == [head] + rest[1..];
        assert ([head] + rest[1..])[1..] == rest[1..];
        assert GroupConcat(rest) == rest[0] + [Separator] + GroupConcat(rest[1..]);
        assert s == [s[0]] + s[1..];
      }
    }
  }

  /**
   * A name that holds the separator comes back in pieces: the names read back join to the
   * concatenation of the stored names in some order, none of them holds the separator, and
   * so they are not the stored names up to order.
   */
  lemma {:induction false} ConcatReadSplitsSeparator(xs: seq<string>, names: seq<string>, k: nat)
    requires ConcatRead(xs, names)
    requires k < |names| && Separator in names[k]
    ensures exists p :: multiset(p) == multiset(names) && GroupConcat(xs) == GroupConcat(p)
    ensures forall x :: x in xs ==> Separator !in x
    ensures multiset(xs) != multiset(names)
  {
    var p :| multiset(p) == multiset(names) && xs == ReadIngredients(GroupConcat(p));
    assert names[k] in multiset(p);
    var j :| 0 <= j < |p| && p[j] == names[k];
    GroupConcatHolds(p, j);
    JoinSplit(GroupConcat(p));
    assert names[k] !in xs;
    assert names[k] !in multiset(xs);
    assert names[k] in multiset(names);
  }

  /** The concatenation contains every name concatenated, so it is not empty when one holds the separator. */
  lemma {:induction false} GroupConcatHolds(p: seq<string>, j: nat)
    requires j < |p| && Separator in p[j]
    ensures Separator in GroupConcat(p)
    decreases |p|
  {
    if |p| > 1 {
      if j == 0 {
        var i :| 0 <= i < |p[0]| && p[0][i] == Separator;
        assert GroupConcat(p)[i] == Separator;
      } else {
        GroupConcatHolds(p[1..], j - 1);
        var t := GroupConcat(p[1..]);
        var i :| 0 <= i < |t| && t[i] == Separator;
        assert GroupConcat(p) == p[0] + [Separator] + t;
        assert GroupConcat(p)[|p[0]| + 1 + i] == Separator;
      }
    }
  }

  /** The stored group `["a,b"]` reads back as the two ingredients "a" and "b". */
  lemma {:induction false} ConcatReadCommaExample(xs: seq<string>)
    requires ConcatRead(xs, ["a,b"])
    ensures xs == ["a", "b"]
  {
    var p :| multiset(p) == multiset(["a,b"]) && xs == ReadIngredients(GroupConcat(p));
    assert |p| == |multiset(p)| == 1;
    assert p[0] in multiset(["a,b"]);
    assert p == ["a,b"];
    assert GroupConcat(p) == "a,b";
    assert "b"[1..] == "" && ",b"[1..] == "b" && "a,b"[1..] == ",b";
    assert Split("") == [""];
    assert ['b'] + "" == "b" && [""][1..] == [];
    assert Split("b") == ["b"];
    assert Split(",b") == [""] + ["b"];
    assert ['a'] + "" == "a" && ["", "b"][1..] == ["b"];
    assert Split("a,b") == ["a", "b"];
  }

  /** Group by group: each name list read back through ConcatRead is its stored list up to order. */
  lemma {:induction false} ConcatReadEach(out: seq<IngredientGroupSchema>, perm: seq<JoinedGroup>, joined: seq<JoinedGroup>)
    requires multiset(perm) == multiset(joined) && |perm| == |out|
    requires forall i :: 0 <= i < |out| ==> ConcatRead(out[i].ingredients, perm[i].names)
    requires forall jg :: jg in joined ==> SeparatorFree(jg.names) && jg.names != [""]
    ensures forall i :: 0 <= i < |out| ==> multiset(out[i].ingredients) == multiset(perm[i].names)
  {
    forall i | 0 <= i < |out| ensures multiset(out[i].ingredients) == multiset(perm[i].names) {
      var jg := perm[i];
      assert jg in multiset(perm);
      assert jg in joined;
      ConcatReadFaithful(out[i].ingredients, jg.names);
    }
  }

  /** Over separator-free groups that are not the lone empty name, the read-back keeps every group's names. */
  lemma {:induction false} GroupsReadFaithful(out: seq<IngredientGroupSchema>, joined: seq<JoinedGroup>)
    requires GroupsRead(out, joined)
    requires forall jg :: jg in joined ==> SeparatorFree(jg.names) && jg.names != [""]
    ensures SameGroups(out, joined)
  {
    var perm: seq<JoinedGroup> :|
      && multiset(perm) == multiset(joined) && |perm| == |out|
      && forall i :: 0 <= i < |out| ==>
        out[i].purpose == perm[i].name && ConcatRead(out[i].ingredients, perm[i].names);
    ConcatReadEach(out, perm, joined);
  }

  /**
   * Group by group, whatever the other groups hold: a joined group whose names are
   * separator-free and not the lone empty name comes back with its purpose and its names up
   * to order.
   */
  lemma {:induction false} GroupsReadKeepsCleanGroup(out: seq<IngredientGroupSchema>, joined: seq<JoinedGroup>, jg: JoinedGroup)
    requires GroupsRead(out, joined)
    requires jg in joined && SeparatorFree(jg.names) && jg.names != [""]
    ensures exists i :: 0 <= i < |out| && out[i].purpose == jg.name && multiset(out[i].ingredients) == multiset(jg.names)
  {
    var perm: seq<JoinedGroup> :| multiset(perm) == multiset(joined) && |perm| == |out|
      && forall i :: 0 <= i < |out| ==>
        out[i].purpose == perm[i].name && ConcatRead(out[i].ingredients, perm[i].names);
    assert jg in multiset(perm);
    var k :| 0 <= k < |perm| && perm[k] == jg;
    ConcatReadFaithful(out[k].ingredients, jg.names);
  }

  /** The read-back has exactly as many groups as the join yields. */
  lemma {:induction false} GroupsReadCount(out: seq<IngredientGroupSchema>, joined: seq<JoinedGroup>)
    requires GroupsRead(out, joined)
    ensures |out| == |joined|
  {
    var perm: seq<JoinedGroup> :| multiset(perm) == multiset(joined) && |perm| == |out|
      && forall i :: 0 <= i < |out| ==>
        out[i].purpose == perm[i].name && ConcatRead(out[i].ingredients, perm[i].names);
    assert |perm| == |multiset(perm)| == |multiset(joined)| == |joined|;
  }
}
