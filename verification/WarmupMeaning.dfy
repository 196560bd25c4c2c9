/** The warm-up registry on its cache entries: what an index contains, what an operation changes, what is
    due. */
module WarmupMeaning {
  import opened Sequences
  import opened Ordering
  import opened WarmupRegistry

  /** The entry is an index, and the text is one of its members. */
  ghost predicate InIndex(entries: Entries, indexKey: Key, member: string) {
    indexKey in entries && entries[indexKey].Index? && Name(member) in entries[indexKey].items
  }

  /** The cache has this recipe, in the current version. */
  ghost predicate HasRecipe(entries: Entries, cacheKey: string, recipe: Recipe) {
    RecipeKey(cacheKey) in entries && entries[RecipeKey(cacheKey)] == Stored(recipe) && recipe.version == 2
  }

  /** A recipe in the timeout scope with this refresh time. */
  ghost predicate RefreshesAt(entries: Entries, cacheKey: string, refreshAt: int) {
    exists recipe :: HasRecipe(entries, cacheKey, recipe) && recipe.timeoutScope && recipe.refreshAt == Some(refreshAt)
  }

  lemma ReadIndexMeans(entries: Entries, indexKey: Key, member: string)
    ensures member in ReadIndex(entries, indexKey) <==> InIndex(entries, indexKey, member)
  {
  }

  lemma BackedMeans(entries: Entries, cacheKey: string)
    ensures Backed(entries, cacheKey) <==> exists refreshAt :: RefreshesAt(entries, cacheKey, refreshAt)
    ensures forall refreshAt :: RefreshesAt(entries, cacheKey, refreshAt)
                                <==> Backed(entries, cacheKey)
                                     && GetRecipe(entries, cacheKey).value.refreshAt == Some(refreshAt)
  {
    if Backed(entries, cacheKey) {
      var recipe := GetRecipe(entries, cacheKey).value;
      assert HasRecipe(entries, cacheKey, recipe);
      assert RefreshesAt(entries, cacheKey, recipe.refreshAt.value);
    }
  }

  /** An index update adds or removes one member and changes nothing else. */
  lemma IndexUpdateMeans(entries: Entries, indexKey: Key, member: string, add: bool)
    ensures var after := WithIndex(entries, indexKey, member, add);
            && (forall m :: InIndex(after, indexKey, m) <==> if m == member then add else InIndex(entries, indexKey, m))
            && after - {indexKey} == entries - {indexKey}
  {
    var after := WithIndex(entries, indexKey, member, add);
    ReadWritten(entries, indexKey, Updated(ReadIndex(entries, indexKey), member, add));
    forall m ensures InIndex(after, indexKey, m) <==> if m == member then add else InIndex(entries, indexKey, m) {
      ReadIndexMeans(after, indexKey, m);
      ReadIndexMeans(entries, indexKey, m);
    }
  }

  /** Registering stores the recipe, enters its key in the recipe index, and enters it in or removes it from
      the timeout index as its scope and refresh time say. Nothing else changes. */
  lemma RegisteredMeans(entries: Entries, recipe: Recipe)
    ensures var after, key := Registered(entries, recipe), recipe.cacheKey;
            && RecipeKey(key) in after && after[RecipeKey(key)] == Stored(recipe)
            && (forall m :: InIndex(after, RECIPE_INDEX, m) <==> m == key || InIndex(entries, RECIPE_INDEX, m))
            && (forall m :: InIndex(after, TIMEOUT_INDEX, m)
                            <==> if m == key then recipe.timeoutScope && recipe.refreshAt.Some?
                                 else InIndex(entries, TIMEOUT_INDEX, m))
            && after - {RecipeKey(key), RECIPE_INDEX, TIMEOUT_INDEX}
               == entries - {RecipeKey(key), RECIPE_INDEX, TIMEOUT_INDEX}
  {
    var key := recipe.cacheKey;
    var stored := entries[RecipeKey(key) := Stored(recipe)];
    var indexed := WithIndex(stored, RECIPE_INDEX, key, true);
    IndexUpdateMeans(stored, RECIPE_INDEX, key, true);
    IndexUpdateMeans(indexed, TIMEOUT_INDEX, key, HasRefreshTime(recipe));
    TwoUpdates(stored, RECIPE_INDEX, TIMEOUT_INDEX, key, true, HasRefreshTime(recipe));
  }

  /** Deleting drops the recipe and its key from both indexes. Nothing else changes. */
  lemma DeletedMeans(entries: Entries, key: string)
    ensures var after := Deleted(entries, key);
            && RecipeKey(key) !in after
            && (forall m :: InIndex(after, RECIPE_INDEX, m) <==> m != key && InIndex(entries, RECIPE_INDEX, m))
            && (forall m :: InIndex(after, TIMEOUT_INDEX, m) <==> m != key && InIndex(entries, TIMEOUT_INDEX, m))
            && after - {RecipeKey(key), RECIPE_INDEX, TIMEOUT_INDEX}
               == entries - {RecipeKey(key), RECIPE_INDEX, TIMEOUT_INDEX}
  {
    var dropped := entries - {RecipeKey(key)};
    var indexed := WithIndex(dropped, RECIPE_INDEX, key, false);
    IndexUpdateMeans(dropped, RECIPE_INDEX, key, false);
    IndexUpdateMeans(indexed, TIMEOUT_INDEX, key, false);
    TwoUpdates(dropped, RECIPE_INDEX, TIMEOUT_INDEX, key, false, false);
  }

  lemma TwoUpdates(entries: Entries, first: Key, second: Key, member: string, add: bool, addSecond: bool)
    requires first != second
    ensures var t := WithIndex(WithIndex(entries, first, member, add), second, member, addSecond);
            && t - {first, second} == entries - {first, second}
            && (forall m :: InIndex(t, first, m) <==> InIndex(WithIndex(entries, first, member, add), first, m))
            && (forall m :: InIndex(WithIndex(entries, first, member, add), second, m) <==> InIndex(entries, second, m))
            && (forall k :: k != first && k != second ==> (k in t <==> k in entries))
            && (forall k :: k != first && k != second && k in entries ==> t[k] == entries[k])
  {
    TwoIndexes(entries, first, second, member, add, addSecond);
  }

  // ----- due recipes

  /** The due list: the keys in the timeout index whose recipe has a refresh time that has come, earlier ones
      first, and by key where the times are the same. */
  lemma DueListMeans(entries: Entries, now: int, all: seq<Due>)
    requires IsDueList(entries, now, all)
    ensures forall d :: d in all <==> InIndex(entries, TIMEOUT_INDEX, d.cacheKey)
                                      && RefreshesAt(entries, d.cacheKey, d.refreshAt) && d.refreshAt <= now
    ensures forall i, j :: 0 <= i < j < |all| ==>
              || all[i].refreshAt < all[j].refreshAt
              || (all[i].refreshAt == all[j].refreshAt && TextBefore(all[i].cacheKey, all[j].cacheKey))
  {
    forall d ensures d in all <==> InIndex(entries, TIMEOUT_INDEX, d.cacheKey)
                                   && RefreshesAt(entries, d.cacheKey, d.refreshAt) && d.refreshAt <= now {
      ReadIndexMeans(entries, TIMEOUT_INDEX, d.cacheKey);
      BackedMeans(entries, d.cacheKey);
      assert d in all <==> IsDue(entries, now, d);
    }
    forall i, j | 0 <= i < j < |all|
      ensures all[i].refreshAt < all[j].refreshAt
              || (all[i].refreshAt == all[j].refreshAt && TextBefore(all[i].cacheKey, all[j].cacheKey))
    {
      assert DueBefore(all[i], all[j]) && all[i] != all[j];
      StringLeMeans(all[i].cacheKey, all[j].cacheKey);
    }
  }

  /** The members that a due query prunes: those without a valid timeout recipe behind them. */
  lemma UnbackedMeans(entries: Entries, m: string)
    ensures m in Unbacked(entries)
       <==> InIndex(entries, TIMEOUT_INDEX, m) && !exists refreshAt :: RefreshesAt(entries, m, refreshAt)
  {
    ReadIndexMeans(entries, TIMEOUT_INDEX, m);
    BackedMeans(entries, m);
  }

  /** A limit cuts the list behind so many keys; a negative one leaves nothing. */
  lemma CutMeans(keys: seq<string>, limit: Option<int>)
    ensures Cut(keys, limit) <= keys
    ensures |Cut(keys, limit)| == if limit.None? || limit.value > |keys| then |keys|
                                  else if limit.value < 0 then 0 else limit.value
  {
  }
}
