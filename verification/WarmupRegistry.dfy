/** The warm-up recipe registry over one flat cache, used by one caller at a time. */
module WarmupRegistry {
  import opened Sequences
  import opened Ordering

  const RECIPE_VERSION := 2

  /** The cache keys the registry uses. */
  datatype Key =
    | RecipeKey(cacheKey: string)
    | RECIPE_INDEX
    | TIMEOUT_INDEX
    | RecipeLockKey(cacheKey: string)
    | IndexLockKey(index: Key)

  datatype Recipe = Recipe(cacheKey: string, timeoutScope: bool, refreshAt: Option<int>, version: int)

  /** A member of a stored index, which should be a string. */
  datatype IndexItem = Name(s: string) | Alien(n: int)

  datatype Entry =
    | Stored(recipe: Recipe)
    | Index(items: set<IndexItem>)
    | Token(token: int)
    | Malformed

  type Entries = map<Key, Entry>

  // ----- the key space

  const KEY_PREFIX := "general_manager:graphql_warmup"

  /** The keys as the cache sees them. */
  function KeyText(key: Key): string {
    KEY_PREFIX + KeyTail(key)
  }

  function KeyTail(key: Key): string {
    match key
    case RecipeKey(cacheKey) => ":recipe:" + cacheKey
    case RECIPE_INDEX => ":recipes"
    case TIMEOUT_INDEX => ":timeout_recipes"
    case RecipeLockKey(cacheKey) => ":lock:" + cacheKey
    case IndexLockKey(index) => ":lock:" + ("index:" + (KEY_PREFIX + KeyTail(index)))
  }

  lemma SameSuffix(prefix: string, s: string, t: string)
    ensures prefix + s == prefix + t <==> s == t
  {
    assert (prefix + s)[|prefix|..] == s && (prefix + t)[|prefix|..] == t;
  }

  lemma TailShape(key: Key)
    ensures var tail := KeyTail(key);
            && |tail| >= 6
            && (key.RecipeKey? ==> |tail| >= 8 && tail[1] == 'r' && tail[7] == ':' && tail[8..] == key.cacheKey)
            && (key.RECIPE_INDEX? ==> |tail| >= 8 && tail[1] == 'r' && tail[7] == 's')
            && (key.TIMEOUT_INDEX? ==> tail[1] == 't')
            && (key.RecipeLockKey? ==> tail[1] == 'l' && tail[6..] == key.cacheKey)
            && (key.IndexLockKey? ==> tail[1] == 'l' && tail[6..] == "index:" + KeyText(key.index))
  {
  }

  /** A recipe lock whose cache key spells an index lock. */
  predicate Collide(recipeLock: Key, indexLock: Key) {
    recipeLock.RecipeLockKey? && indexLock.IndexLockKey? && recipeLock.cacheKey == "index:" + KeyText(indexLock.index)
  }

  predicate SameKey(a: Key, b: Key) {
    a == b || Collide(a, b) || Collide(b, a) || (a.IndexLockKey? && b.IndexLockKey? && SameKey(a.index, b.index))
  }

  /** Keys have the same text iff they are the same, or a recipe lock's cache key spells an index lock. */
  lemma {:induction false} KeyTextsAreSeparate(a: Key, b: Key)
    ensures KeyText(a) == KeyText(b) <==> SameKey(a, b)
    decreases a
  {
    TailShape(a);
    TailShape(b);
    SameSuffix(KEY_PREFIX, KeyTail(a), KeyTail(b));
    if a.IndexLockKey? && b.IndexLockKey? {
      KeyTextsAreSeparate(a.index, b.index);
      SameSuffix("index:", KeyText(a.index), KeyText(b.index));
    }
  }

  // ----- reading

  /** `_read_index` */
  function ReadIndex(entries: Entries, indexKey: Key): set<string> {
    if indexKey in entries && entries[indexKey].Index?
    then set item | item in entries[indexKey].items && item.Name? :: item.s
    else {}
  }

  function IndexOf(members: set<string>): Entry {
    Index(set m | m in members :: Name(m))
  }

  lemma ReadWritten(entries: Entries, indexKey: Key, members: set<string>)
    ensures ReadIndex(entries[indexKey := IndexOf(members)], indexKey) == members
  {
    var written := entries[indexKey := IndexOf(members)];
    forall m ensures m in ReadIndex(written, indexKey) <==> m in members {
      if m in members {
        assert Name(m) in IndexOf(members).items;
      }
    }
  }

  /** `get_graphql_warmup_recipe` */
  function GetRecipe(entries: Entries, cacheKey: string): Option<Recipe> {
    if RecipeKey(cacheKey) in entries && entries[RecipeKey(cacheKey)].Stored?
       && entries[RecipeKey(cacheKey)].recipe.version == RECIPE_VERSION
    then Some(entries[RecipeKey(cacheKey)].recipe)
    else None
  }

  predicate HasRefreshTime(recipe: Recipe) { recipe.timeoutScope && recipe.refreshAt.Some? }

  /** The timeout-index entry of the key is backed by a valid recipe. */
  predicate Backed(entries: Entries, cacheKey: string) {
    GetRecipe(entries, cacheKey).Some? && HasRefreshTime(GetRecipe(entries, cacheKey).value)
  }

  // ----- index updates

  function Updated(members: set<string>, member: string, add: bool): set<string> {
    if add then members + {member} else members - {member}
  }

  function WithIndex(entries: Entries, indexKey: Key, member: string, add: bool): Entries {
    entries[indexKey := IndexOf(Updated(ReadIndex(entries, indexKey), member, add))]
  }

  predicate Free(entries: Entries, indexKey: Key) { IndexLockKey(indexKey) !in entries }

  // ----- acquiring a lock that others use

  /** The outcome of the attempts to add the lock entry, and the cache afterwards. */
  function Attempts(entries: Entries, lockKey: Key, token: int, between: seq<Entries -> Entries>): (bool, Entries)
    decreases |between|
  {
    if lockKey !in entries then (true, entries[lockKey := Token(token)])
    else if between == [] then (false, entries)
    else Attempts(between[0](entries), lockKey, token, between[1..])
  }

  /** The cache as the others alone leave it after `i` sleeps. */
  function Seen(entries: Entries, between: seq<Entries -> Entries>, i: nat): Entries
    requires i <= |between|
    decreases i
  {
    if i == 0 then entries else Seen(between[0](entries), between[1..], i - 1)
  }

  /** The lock is free at attempt `i`, and at none before. */
  ghost predicate FreeFirstAt(entries: Entries, lockKey: Key, between: seq<Entries -> Entries>, i: nat)
    requires i <= |between|
  {
    lockKey !in Seen(entries, between, i) && forall j :: 0 <= j < i ==> lockKey in Seen(entries, between, j)
  }

  lemma {:induction false} AcquiredAtFirst(entries: Entries, lockKey: Key, token: int, between: seq<Entries -> Entries>)
    returns (i: nat)
    requires Attempts(entries, lockKey, token, between).0
    ensures i <= |between| && FreeFirstAt(entries, lockKey, between, i)
    ensures Attempts(entries, lockKey, token, between).1 == Seen(entries, between, i)[lockKey := Token(token)]
    decreases |between|
  {
    if lockKey !in entries {
      i := 0;
    } else {
      var k := AcquiredAtFirst(between[0](entries), lockKey, token, between[1..]);
      i := k + 1;
      forall j | 0 <= j < i ensures lockKey in Seen(entries, between, j) {
        assert j == 0 || Seen(entries, between, j) == Seen(between[0](entries), between[1..], j - 1);
      }
    }
  }

  lemma {:induction false} NeverFree(entries: Entries, lockKey: Key, token: int, between: seq<Entries -> Entries>,
                                     i: nat)
    requires !Attempts(entries, lockKey, token, between).0 && i <= |between|
    ensures lockKey in Seen(entries, between, i)
    ensures Attempts(entries, lockKey, token, between).1 == Seen(entries, between, |between|)
    decreases |between|
  {
    if between != [] {
      NeverFree(between[0](entries), lockKey, token, between[1..], if i == 0 then 0 else i - 1);
    }
  }

  /** The lock is acquired iff it is free at one of the attempts, and at the first such. Otherwise the
      cache is what the others made of it. */
  lemma AcquiredExactly(entries: Entries, lockKey: Key, token: int, between: seq<Entries -> Entries>)
    ensures var (acquired, after) := Attempts(entries, lockKey, token, between);
            && (acquired <==> exists i :: 0 <= i <= |between| && lockKey !in Seen(entries, between, i))
            && (acquired ==> exists i :: 0 <= i <= |between| && FreeFirstAt(entries, lockKey, between, i)
                                         && after == Seen(entries, between, i)[lockKey := Token(token)])
            && (!acquired ==> after == Seen(entries, between, |between|))
  {
    if Attempts(entries, lockKey, token, between).0 {
      var i := AcquiredAtFirst(entries, lockKey, token, between);
    } else {
      forall i | 0 <= i <= |between| ensures lockKey in Seen(entries, between, i) {
        NeverFree(entries, lockKey, token, between, i);
      }
      NeverFree(entries, lockKey, token, between, 0);
    }
  }

  lemma {:induction false} AcquiredHolds(entries: Entries, lockKey: Key, token: int, between: seq<Entries -> Entries>)
    ensures var (acquired, after) := Attempts(entries, lockKey, token, between);
            acquired ==> lockKey in after && after[lockKey] == Token(token)
    decreases |between|
  {
    if lockKey in entries && between != [] {
      AcquiredHolds(between[0](entries), lockKey, token, between[1..]);
    }
  }

  class Cache {
    var entries: Entries

    constructor (entries: Entries)
      ensures this.entries == entries
    {
      this.entries := entries;
    }

    method Add(key: Key, entry: Entry) returns (stored: bool)
      modifies this
      ensures stored <==> key !in old(entries)
      ensures entries == if stored then old(entries)[key := entry] else old(entries)
    {
      stored := key !in entries;
      if stored {
        entries := entries[key := entry];
      }
    }

    /** `_acquire_cache_lock`: what the other processes and the clock do to the cache while it sleeps is
        `between`, one entry for each further attempt that the wait budget allows. */
    method AcquireCacheLock(lockKey: Key, token: int, between: seq<Entries -> Entries>) returns (acquired: bool)
      modifies this
      ensures (acquired, entries) == Attempts(old(entries), lockKey, token, between)
    {
      var next := 0;
      while true
        invariant next <= |between|
        invariant Attempts(old(entries), lockKey, token, between) == Attempts(entries, lockKey, token, between[next..])
        decreases |between| - next
      {
        acquired := Add(lockKey, Token(token));
        if acquired {
          return;
        }
        if next == |between| {
          return false;
        }
        assert between[next..][0] == between[next] && between[next..][1..] == between[next + 1..];
        entries := between[next](entries);
        next := next + 1;
      }
    }

    /** `_delete_lock_if_owned` */
    method DeleteLockIfOwned(lockKey: Key, token: int)
      modifies this
      ensures entries == if lockKey in old(entries) && old(entries)[lockKey] == Token(token)
                         then old(entries) - {lockKey} else old(entries)
    {
      if lockKey !in entries || entries[lockKey] != Token(token) {
        return;
      }
      entries := entries - {lockKey};
    }

    /** `_add_index_member` and `_remove_index_member`, while others change the cache between attempts at
        the lock. */
    method UpdateIndexMember(indexKey: Key, member: string, add: bool, token: int, between: seq<Entries -> Entries>)
      returns (done: bool)
      requires IndexLockKey(indexKey) != indexKey
      modifies this
      ensures var (acquired, seen) := Attempts(old(entries), IndexLockKey(indexKey), token, between);
              && done == acquired
              && entries == if acquired then WithIndex(seen - {IndexLockKey(indexKey)}, indexKey, member, add) else seen
    {
      var lockKey := IndexLockKey(indexKey);
      done := AcquireCacheLock(lockKey, token, between);
      if !done {
        return;
      }
      ghost var seen := entries;
      AcquiredHolds(old(entries), lockKey, token, between);
      assert ReadIndex(seen - {lockKey}, indexKey) == ReadIndex(seen, indexKey);
      entries := entries[indexKey := IndexOf(Updated(ReadIndex(entries, indexKey), member, add))];
      DeleteLockIfOwned(lockKey, token);
      assert entries == WithIndex(seen - {lockKey}, indexKey, member, add);
    }

    /** The same for one caller, where waiting changes nothing. */
    method UpdateIndexAlone(indexKey: Key, member: string, add: bool, token: int) returns (done: bool)
      requires IndexLockKey(indexKey) != indexKey
      modifies this
      ensures done <==> Free(old(entries), indexKey)
      ensures entries == if done then WithIndex(old(entries), indexKey, member, add) else old(entries)
    {
      done := UpdateIndexMember(indexKey, member, add, token, []);
      assert done ==> old(entries)[IndexLockKey(indexKey) := Token(token)] - {IndexLockKey(indexKey)} == old(entries);
    }

    /** `register_graphql_warmup_recipe` */
    method Register(recipe: Recipe, token: int) returns (done: bool)
      modifies this
      ensures done <==> Free(old(entries), RECIPE_INDEX) && Free(old(entries), TIMEOUT_INDEX)
      ensures done ==> entries == Registered(old(entries), recipe)
      ensures !done ==>
                entries == Begun(old(entries)[RecipeKey(recipe.cacheKey) := Stored(recipe)], recipe.cacheKey, true)
    {
      entries := entries[RecipeKey(recipe.cacheKey) := Stored(recipe)];
      done := UpdateIndexAlone(RECIPE_INDEX, recipe.cacheKey, true, token);
      if !done {
        return;
      }
      if recipe.timeoutScope && recipe.refreshAt.Some? {
        done := UpdateIndexAlone(TIMEOUT_INDEX, recipe.cacheKey, true, token);
      } else {
        done := UpdateIndexAlone(TIMEOUT_INDEX, recipe.cacheKey, false, token);
      }
    }

    /** `delete_graphql_warmup_recipe` */
    method Delete(cacheKey: string, token: int) returns (done: bool)
      modifies this
      ensures done <==> Free(old(entries), RECIPE_INDEX) && Free(old(entries), TIMEOUT_INDEX)
      ensures done ==> entries == Deleted(old(entries), cacheKey)
      ensures !done ==> entries == Begun(old(entries) - {RecipeKey(cacheKey)}, cacheKey, false)
    {
      entries := entries - {RecipeKey(cacheKey)};
      done := UpdateIndexAlone(RECIPE_INDEX, cacheKey, false, token);
      if !done {
        return;
      }
      done := UpdateIndexAlone(TIMEOUT_INDEX, cacheKey, false, token);
    }

    /** `due_timeout_graphql_warmup_recipe_keys`, with the index iterated in any order. `all` is the
        whole due list before the limit; None is a lock timeout while pruning. */
    method DueKeys(now: int, limit: Option<int>, token: int)
      returns (keys: Option<seq<string>>, ghost all: seq<Due>)
      modifies this
      ensures keys.None? <==> !Free(old(entries), TIMEOUT_INDEX) && Unbacked(old(entries)) != {}
      ensures keys.None? ==> entries == old(entries)
      ensures keys.Some? ==> IsDueList(old(entries), now, all) && keys.value == Cut(Map(DueKey, all), limit)
      ensures keys.Some? ==> Pruned(old(entries), entries)
    {
      var members := ReadIndex(entries, TIMEOUT_INDEX);
      var todo := members;
      var due: seq<Due> := [];
      all := [];
      while todo != {}
        invariant todo <= members
        invariant DueSoFar(old(entries), now, members - todo, due)
        invariant PrunedSoFar(old(entries), entries, members - todo)
        invariant (members - todo) * Unbacked(old(entries)) != {} ==> Free(old(entries), TIMEOUT_INDEX)
      {
        var cacheKey :| cacheKey in todo;
        ghost var visited := members - todo;
        assert members - (todo - {cacheKey}) == visited + {cacheKey};
        SameRecipe(old(entries), entries, visited, cacheKey);
        var recipe := GetRecipe(entries, cacheKey);
        if recipe.None? || !recipe.value.timeoutScope || recipe.value.refreshAt.None? {
          assert cacheKey in Unbacked(old(entries));
          PruneStep(old(entries), entries, visited, cacheKey);
          SkipStep(old(entries), now, visited, due, cacheKey);
          var pruned := UpdateIndexAlone(TIMEOUT_INDEX, cacheKey, false, token);
          if !pruned {
            return None, [];
          }
        } else if recipe.value.refreshAt.value <= now {
          KeepStep(old(entries), entries, visited, cacheKey);
          DueStep(old(entries), now, visited, due, cacheKey);
          due := due + [Due(recipe.value.refreshAt.value, cacheKey)];
        } else {
          KeepStep(old(entries), entries, visited, cacheKey);
          SkipStep(old(entries), now, visited, due, cacheKey);
        }
        todo := todo - {cacheKey};
      }
      assert members - {} == members;
      var ordered := Sort(DueBefore, due);
      SortedDue(old(entries), now, due);
      all := ordered;
      keys := Some(Cut(Map(DueKey, ordered), limit));
    }
  }

  /** What an operation leaves behind when one of the index locks stays taken. */
  function Begun(entries: Entries, cacheKey: string, add: bool): Entries {
    if Free(entries, RECIPE_INDEX) then WithIndex(entries, RECIPE_INDEX, cacheKey, add) else entries
  }

  function Registered(entries: Entries, recipe: Recipe): Entries {
    WithIndex(WithIndex(entries[RecipeKey(recipe.cacheKey) := Stored(recipe)], RECIPE_INDEX, recipe.cacheKey, true),
              TIMEOUT_INDEX, recipe.cacheKey, HasRefreshTime(recipe))
  }

  function Deleted(entries: Entries, cacheKey: string): Entries {
    WithIndex(WithIndex(entries - {RecipeKey(cacheKey)}, RECIPE_INDEX, cacheKey, false), TIMEOUT_INDEX, cacheKey, false)
  }

  // ----- the registry refines a map

  datatype Operation = RegisterRecipe(recipe: Recipe) | DeleteRecipe(cacheKey: string)

  function RunOn(entries: Entries, ops: seq<Operation>): Entries
    decreases ops
  {
    if ops == [] then entries
    else match ops[0]
      case RegisterRecipe(recipe) => RunOn(Registered(entries, recipe), ops[1..])
      case DeleteRecipe(k) => RunOn(Deleted(entries, k), ops[1..])
  }

  /** The map that the registry stands for. */
  function Model(recipes: map<string, Recipe>, ops: seq<Operation>): map<string, Recipe>
    decreases ops
  {
    if ops == [] then recipes
    else match ops[0]
      case RegisterRecipe(recipe) => Model(recipes[recipe.cacheKey := recipe], ops[1..])
      case DeleteRecipe(k) => Model(recipes - {k}, ops[1..])
  }

  function TimeoutKeysOf(recipes: map<string, Recipe>): set<string> {
    set k | k in recipes && HasRefreshTime(recipes[k])
  }

  /** The cache stores exactly the recipes of the map, the recipe index is its key set, the timeout
      index is the keys of the timeout recipes with a refresh time, and both locks are free. */
  ghost predicate Represents(entries: Entries, recipes: map<string, Recipe>) {
    && RecipesStored(entries, recipes)
    && ReadIndex(entries, RECIPE_INDEX) == recipes.Keys
    && ReadIndex(entries, TIMEOUT_INDEX) == TimeoutKeysOf(recipes)
    && Free(entries, RECIPE_INDEX) && Free(entries, TIMEOUT_INDEX)
  }

  /** What two index updates leave behind, for any two different index keys. */
  lemma TwoIndexes(entries: Entries, first: Key, second: Key, member: string, add: bool, addSecond: bool)
    requires first != second
    ensures var t := WithIndex(WithIndex(entries, first, member, add), second, member, addSecond);
            && ReadIndex(t, first) == Updated(ReadIndex(entries, first), member, add)
            && ReadIndex(t, second) == Updated(ReadIndex(entries, second), member, addSecond)
            && (forall k :: k != first && k != second ==> (k in t <==> k in entries))
            && (forall k :: k != first && k != second && k in entries ==> t[k] == entries[k])
  {
    var indexed := WithIndex(entries, first, member, add);
    ReadWritten(entries, first, Updated(ReadIndex(entries, first), member, add));
    ReadWritten(indexed, second, Updated(ReadIndex(indexed, second), member, addSecond));
    assert ReadIndex(indexed, second) == ReadIndex(entries, second);
    var t := WithIndex(indexed, second, member, addSecond);
    assert ReadIndex(t, first) == ReadIndex(indexed, first);
  }

  ghost predicate RecipesStored(entries: Entries, recipes: map<string, Recipe>) {
    && (forall k :: RecipeKey(k) in entries <==> k in recipes)
    && (forall k :: k in recipes ==> entries[RecipeKey(k)] == Stored(recipes[k]))
  }

  /** Index updates do not touch stored recipes. */
  lemma RecipesUntouched(before: Entries, after: Entries, recipes: map<string, Recipe>)
    requires RecipesStored(before, recipes)
    requires forall k :: k != RECIPE_INDEX && k != TIMEOUT_INDEX ==> (k in after <==> k in before)
    requires forall k :: k != RECIPE_INDEX && k != TIMEOUT_INDEX && k in before ==> after[k] == before[k]
    ensures RecipesStored(after, recipes)
  {
  }

  lemma RecipeSet(entries: Entries, recipes: map<string, Recipe>, recipe: Recipe)
    requires RecipesStored(entries, recipes)
    ensures RecipesStored(entries[RecipeKey(recipe.cacheKey) := Stored(recipe)], recipes[recipe.cacheKey := recipe])
  {
  }

  lemma RecipeDropped(entries: Entries, recipes: map<string, Recipe>, key: string)
    requires RecipesStored(entries, recipes)
    ensures RecipesStored(entries - {RecipeKey(key)}, recipes - {key})
  {
  }

  /** A recipe entry hides neither an index nor a lock. */
  lemma RecipeKeyHidesNothing(entries: Entries, key: string, entry: Entry)
    ensures var set_, dropped := entries[RecipeKey(key) := entry], entries - {RecipeKey(key)};
            && ReadIndex(set_, RECIPE_INDEX) == ReadIndex(entries, RECIPE_INDEX) == ReadIndex(dropped, RECIPE_INDEX)
            && ReadIndex(set_, TIMEOUT_INDEX) == ReadIndex(entries, TIMEOUT_INDEX) == ReadIndex(dropped, TIMEOUT_INDEX)
            && (Free(entries, RECIPE_INDEX) ==> Free(set_, RECIPE_INDEX) && Free(dropped, RECIPE_INDEX))
            && (Free(entries, TIMEOUT_INDEX) ==> Free(set_, TIMEOUT_INDEX) && Free(dropped, TIMEOUT_INDEX))
  {
  }

  lemma RegisterRepresents(entries: Entries, recipes: map<string, Recipe>, recipe: Recipe)
    requires Represents(entries, recipes)
    ensures Represents(Registered(entries, recipe), recipes[recipe.cacheKey := recipe])
  {
    var key, next := recipe.cacheKey, recipes[recipe.cacheKey := recipe];
    var stored := entries[RecipeKey(key) := Stored(recipe)];
    RecipeKeyHidesNothing(entries, key, Stored(recipe));
    TwoIndexes(stored, RECIPE_INDEX, TIMEOUT_INDEX, key, true, HasRefreshTime(recipe));
    RecipeSet(entries, recipes, recipe);
    RecipesUntouched(stored, Registered(entries, recipe), next);
    TimeoutKeys(recipes, recipe);
  }

  lemma TimeoutKeys(recipes: map<string, Recipe>, recipe: Recipe)
    ensures TimeoutKeysOf(recipes[recipe.cacheKey := recipe])
         == Updated(TimeoutKeysOf(recipes), recipe.cacheKey, HasRefreshTime(recipe))
  {
  }

  lemma DeleteRepresents(entries: Entries, recipes: map<string, Recipe>, key: string)
    requires Represents(entries, recipes)
    ensures Represents(Deleted(entries, key), recipes - {key})
  {
    RecipeKeyHidesNothing(entries, key, Malformed);
    TwoIndexes(entries - {RecipeKey(key)}, RECIPE_INDEX, TIMEOUT_INDEX, key, false, false);
    RecipeDropped(entries, recipes, key);
    RecipesUntouched(entries - {RecipeKey(key)}, Deleted(entries, key), recipes - {key});
  }

  /** Over every sequential run of registrations and deletions the registry stands for the map that
      the same operations produce. */
  lemma {:induction false} RegistryRefinesMap(entries: Entries, recipes: map<string, Recipe>, ops: seq<Operation>)
    requires Represents(entries, recipes)
    ensures Represents(RunOn(entries, ops), Model(recipes, ops))
    decreases ops
  {
    if ops != [] {
      match ops[0] {
        case RegisterRecipe(recipe) =>
          RegisterRepresents(entries, recipes, recipe);
          RegistryRefinesMap(Registered(entries, recipe), recipes[recipe.cacheKey := recipe], ops[1..]);
        case DeleteRecipe(k) =>
          DeleteRepresents(entries, recipes, k);
          RegistryRefinesMap(Deleted(entries, k), recipes - {k}, ops[1..]);
      }
    }
  }

  // ----- the due query

  datatype Due = Due(refreshAt: int, cacheKey: string)

  function DueKey(d: Due): string { d.cacheKey }

  predicate DueBefore(a: Due, b: Due) {
    a.refreshAt < b.refreshAt || (a.refreshAt == b.refreshAt && StringLe(a.cacheKey, b.cacheKey))
  }

  /** `ordered[: max(0, limit)]`, or everything without a limit */
  function Cut(keys: seq<string>, limit: Option<int>): seq<string> {
    match limit case None => keys case Some(n) => Take(keys, Max(0, n))
  }

  /** Timeout-index members without a valid timeout recipe behind them. */
  function Unbacked(entries: Entries): set<string> {
    set k | k in ReadIndex(entries, TIMEOUT_INDEX) && !Backed(entries, k)
  }

  predicate IsDue(entries: Entries, now: int, d: Due) {
    && d.cacheKey in ReadIndex(entries, TIMEOUT_INDEX) && Backed(entries, d.cacheKey)
    && GetRecipe(entries, d.cacheKey).value.refreshAt == Some(d.refreshAt) && d.refreshAt <= now
  }

  /** Exactly the due recipes, in order of refresh time and key. */
  ghost predicate IsDueList(entries: Entries, now: int, all: seq<Due>) {
    && (forall d :: d in all <==> IsDue(entries, now, d))
    && Distinct(all) && Sorted(DueBefore, all)
  }

  /** Only the timeout index changes, and it loses exactly its unbacked members. */
  ghost predicate Pruned(before: Entries, after: Entries) {
    && ReadIndex(after, TIMEOUT_INDEX) == ReadIndex(before, TIMEOUT_INDEX) - Unbacked(before)
    && after - {TIMEOUT_INDEX} == before - {TIMEOUT_INDEX}
    && (Unbacked(before) == {} ==> after == before)
  }

  ghost predicate PrunedSoFar(before: Entries, after: Entries, visited: set<string>) {
    && ReadIndex(after, TIMEOUT_INDEX) == ReadIndex(before, TIMEOUT_INDEX) - (visited * Unbacked(before))
    && (forall k :: k != TIMEOUT_INDEX ==> (k in after <==> k in before))
    && (forall k :: k != TIMEOUT_INDEX && k in before ==> after[k] == before[k])
    && (visited * Unbacked(before) == {} ==> after == before)
  }

  ghost predicate DueSoFar(entries: Entries, now: int, visited: set<string>, due: seq<Due>) {
    && (forall d :: d in due <==> d.cacheKey in visited && IsDue(entries, now, d))
    && Distinct(due)
  }

  lemma SameRecipe(before: Entries, after: Entries, visited: set<string>, cacheKey: string)
    requires PrunedSoFar(before, after, visited)
    ensures GetRecipe(after, cacheKey) == GetRecipe(before, cacheKey)
    ensures Free(after, TIMEOUT_INDEX) <==> Free(before, TIMEOUT_INDEX)
  {
  }

  lemma PruneStep(before: Entries, after: Entries, visited: set<string>, cacheKey: string)
    requires PrunedSoFar(before, after, visited) && cacheKey in Unbacked(before)
    ensures PrunedSoFar(before, WithIndex(after, TIMEOUT_INDEX, cacheKey, false), visited + {cacheKey})
  {
    ReadWritten(after, TIMEOUT_INDEX, ReadIndex(after, TIMEOUT_INDEX) - {cacheKey});
    assert cacheKey in (visited + {cacheKey}) * Unbacked(before);
  }

  lemma KeepStep(before: Entries, after: Entries, visited: set<string>, cacheKey: string)
    requires PrunedSoFar(before, after, visited) && cacheKey !in Unbacked(before)
    ensures PrunedSoFar(before, after, visited + {cacheKey})
    ensures (visited + {cacheKey}) * Unbacked(before) == visited * Unbacked(before)
  {
    assert (visited + {cacheKey}) * Unbacked(before) == visited * Unbacked(before);
  }

  lemma SkipStep(entries: Entries, now: int, visited: set<string>, due: seq<Due>, cacheKey: string)
    requires DueSoFar(entries, now, visited, due)
    requires forall refreshAt :: !IsDue(entries, now, Due(refreshAt, cacheKey))
    ensures DueSoFar(entries, now, visited + {cacheKey}, due)
  {
    forall d ensures d in due <==> d.cacheKey in visited + {cacheKey} && IsDue(entries, now, d) {
      assert d == Due(d.refreshAt, d.cacheKey);
    }
  }

  lemma DueStep(entries: Entries, now: int, visited: set<string>, due: seq<Due>, cacheKey: string)
    requires DueSoFar(entries, now, visited, due) && cacheKey !in visited
    requires Backed(entries, cacheKey) && cacheKey in ReadIndex(entries, TIMEOUT_INDEX)
    requires GetRecipe(entries, cacheKey).value.refreshAt.value <= now
    ensures DueSoFar(entries, now, visited + {cacheKey},
                     due + [Due(GetRecipe(entries, cacheKey).value.refreshAt.value, cacheKey)])
  {
  }

  lemma DueBeforeIsOrder()
    ensures TotalPreorder(DueBefore)
    ensures forall a, b :: DueBefore(a, b) && DueBefore(b, a) ==> a == b
  {
    StringLeIsOrder();
    forall a: Due, b: Due | Paired(a, b) ensures DueBefore(a, b) || DueBefore(b, a) {
      assert Paired(a.cacheKey, b.cacheKey);
    }
    forall a: Due, b: Due, c: Due | Linked(a, b, c) && DueBefore(a, b) && DueBefore(b, c) ensures DueBefore(a, c) {
      assert Linked(a.cacheKey, b.cacheKey, c.cacheKey);
    }
  }

  lemma SortedDue(entries: Entries, now: int, due: seq<Due>)
    requires DueSoFar(entries, now, ReadIndex(entries, TIMEOUT_INDEX), due)
    ensures IsDueList(entries, now, Sort(DueBefore, due))
  {
    DueBeforeIsOrder();
    SortSorts(DueBefore, due);
    DistinctSort(due);
  }

  lemma DistinctSort(due: seq<Due>)
    requires Distinct(due)
    ensures Distinct(Sort(DueBefore, due))
  {
    DistinctCounts(due);
    SortPermutes(DueBefore, due);
    PermutedDistinct(Sort(DueBefore, due), due);
  }

  /** The due list does not depend on the order in which the index was iterated. */
  lemma DueListIsUnique(entries: Entries, now: int, a: seq<Due>, b: seq<Due>)
    requires IsDueList(entries, now, a) && IsDueList(entries, now, b)
    ensures a == b
  {
    DueBeforeIsOrder();
    DistinctPermutation(a, b);
    SortedUnique(DueBefore, a, b);
  }
}
