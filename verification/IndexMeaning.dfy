/** Index keys on their values: what a value is frozen to, which key a row has, and what an index holds. */
module IndexMeaning {
  import opened Sequences
  import opened Ordering
  import opened FrozenKeys
  import opened BucketIndex

  // ----- frozen values

  /** The pairs, frozen and sorted: smaller key texts first, and smaller item texts where those are equal. */
  ghost predicate FreezesToPairs(text: Text, pairs: seq<Pair>, frozen: Frozen) {
    exists sorted: seq<Pair> ::
      && multiset(sorted) == multiset(pairs)
      && (forall i :: 0 <= i < |sorted| ==> Freeze(text, sorted[i].key).Some? && Freeze(text, sorted[i].item).Some?)
      && frozen.FTuple? && |frozen.items| == |sorted|
      && (forall i :: 0 <= i < |sorted| ==>
            frozen.items[i] == FTuple([Freeze(text, sorted[i].key).value, Freeze(text, sorted[i].item).value]))
      && forall i, j :: 0 <= i < j < |sorted| ==> InTextOrder(text, sorted[i], sorted[j])
  }

  ghost predicate InTextOrder(text: Text, p: Pair, q: Pair) {
    || TextBefore(text(p.key), text(q.key))
    || (text(p.key) == text(q.key) && (text(p.item) == text(q.item) || TextBefore(text(p.item), text(q.item))))
  }

  /** What one level of a value is frozen to. */
  ghost predicate FreezesTo(text: Text, v: Value, frozen: Frozen) {
    match v
    case Hashed(value, _) => frozen == value
    case Unhashable(_) => false
    case Items(items) =>
      frozen.FTuple? && |frozen.items| == |items|
      && forall i :: 0 <= i < |items| ==> Freeze(text, items[i]) == Some(frozen.items[i])
    case SetOf(members) =>
      && (forall i :: 0 <= i < |members| ==> Freeze(text, members[i]).Some?)
      && frozen.FSet?
      && forall x :: x in frozen.members <==> exists i :: 0 <= i < |members| && Freeze(text, members[i]) == Some(x)
    case Dict(pairs) => FreezesToPairs(text, pairs, frozen)
    case Manager(name, identification) =>
      exists inner :: FreezesToPairs(text, identification, inner) && frozen == FTuple([FClass(name), inner])
  }

  function ByTexts(text: Text): (Pair, Pair) -> bool {
    (p: Pair, q: Pair) =>
      if text(p.key) == text(q.key) then StringLe(text(p.item), text(q.item)) else StringLe(text(p.key), text(q.key))
  }

  lemma SortedPairs(text: Text, pairs: seq<Pair>)
    ensures match FreezePairs(text, pairs)
            case None => exists i :: 0 <= i < |pairs| && !Freezes(text, pairs[i])
            case Some(entries) => FreezesToPairs(text, pairs, SortedEntries(entries))
  {
    if FreezePairs(text, pairs).Some? {
      SortAlongside(text, pairs, FreezePairs(text, pairs).value);
    }
  }

  /** Sorting the pairs by their texts sorts their entries. */
  lemma SortAlongside(text: Text, pairs: seq<Pair>, entries: seq<Entry>)
    requires FreezePairs(text, pairs) == Some(entries)
    ensures FreezesToPairs(text, pairs, SortedEntries(entries))
  {
    var sorted, frozen := Sort(ByTexts(text), pairs), Sort(EntryLe, entries);
    SortPermutes(ByTexts(text), pairs);
    forall i | 0 <= i < |pairs| ensures IsEntryOf(text, pairs[i], entries[i]) {
    }
    InsertAllAlongside(text, [], [], pairs, entries);
    EntryLeIsOrder();
    SortSorts(EntryLe, entries);
    forall i, j | 0 <= i < j < |sorted| ensures InTextOrder(text, sorted[i], sorted[j]) {
      assert IsEntryOf(text, sorted[i], frozen[i]) && IsEntryOf(text, sorted[j], frozen[j]);
      assert EntryLe(frozen[i], frozen[j]);
      StringLeMeans(text(sorted[i].key), text(sorted[j].key));
      StringLeMeans(text(sorted[i].item), text(sorted[j].item));
    }
    forall i | 0 <= i < |sorted|
      ensures Freeze(text, sorted[i].key).Some? && Freeze(text, sorted[i].item).Some?
      ensures SortedEntries(entries).items[i]
           == FTuple([Freeze(text, sorted[i].key).value, Freeze(text, sorted[i].item).value])
    {
      assert IsEntryOf(text, sorted[i], frozen[i]);
    }
  }

  ghost predicate IsEntryOf(text: Text, p: Pair, e: Entry) {
    Freezes(text, p) && e == FreezePair(text, p)
  }

  ghost predicate AreEntriesOf(text: Text, ps: seq<Pair>, es: seq<Entry>) {
    |ps| == |es| && forall i :: 0 <= i < |ps| ==> IsEntryOf(text, ps[i], es[i])
  }

  lemma {:induction false} InsertAlongside(text: Text, ps: seq<Pair>, es: seq<Entry>, p: Pair, e: Entry)
    requires AreEntriesOf(text, ps, es) && IsEntryOf(text, p, e)
    ensures AreEntriesOf(text, Insert(ByTexts(text), ps, p), Insert(EntryLe, es, e))
  {
    if ps != [] {
      assert IsEntryOf(text, ps[0], es[0]);
      assert ByTexts(text)(ps[0], p) <==> EntryLe(es[0], e);
      if EntryLe(es[0], e) {
        EntriesTail(text, ps, es);
        InsertAlongside(text, ps[1..], es[1..], p, e);
      }
    }
  }

  lemma EntriesTail(text: Text, ps: seq<Pair>, es: seq<Entry>)
    requires AreEntriesOf(text, ps, es) && ps != []
    ensures AreEntriesOf(text, ps[1..], es[1..])
  {
    forall i | 0 <= i < |ps[1..]| ensures IsEntryOf(text, ps[1..][i], es[1..][i]) {
      assert IsEntryOf(text, ps[i + 1], es[i + 1]);
    }
  }

  lemma {:induction false} InsertAllAlongside(text: Text, ps: seq<Pair>, es: seq<Entry>, more: seq<Pair>,
                                              entries: seq<Entry>)
    requires AreEntriesOf(text, ps, es) && AreEntriesOf(text, more, entries)
    ensures AreEntriesOf(text, InsertAll(ByTexts(text), ps, more), InsertAll(EntryLe, es, entries))
    decreases more
  {
    if more != [] {
      assert IsEntryOf(text, more[0], entries[0]);
      InsertAlongside(text, ps, es, more[0], entries[0]);
      EntriesTail(text, more, entries);
      InsertAllAlongside(text, Insert(ByTexts(text), ps, more[0]), Insert(EntryLe, es, entries[0]), more[1..],
                         entries[1..]);
    }
  }

  /** A value is frozen level by level: lists and tuples to tuples, sets to frozensets, dictionaries to tuples of
      their sorted pairs, managers to their class and their identification; and not at all if something in it
      cannot be hashed. */
  lemma FreezeMeans(text: Text, v: Value)
    ensures Freeze(text, v).Some? ==> FreezesTo(text, v, Freeze(text, v).value)
    ensures Freeze(text, v).None?
       <==> match v
            case Hashed(_, _) => false
            case Unhashable(_) => true
            case Items(items) => exists i :: 0 <= i < |items| && Freeze(text, items[i]).None?
            case SetOf(members) => exists i :: 0 <= i < |members| && Freeze(text, members[i]).None?
            case Dict(pairs) => exists i :: 0 <= i < |pairs| && !Freezes(text, pairs[i])
            case Manager(_, pairs) => exists i :: 0 <= i < |pairs| && !Freezes(text, pairs[i])
  {
    match v {
      case Dict(pairs) => SortedPairs(text, pairs);
      case Manager(_, pairs) => SortedPairs(text, pairs);
      case SetOf(members) =>
        if Freeze(text, v).Some? {
          SetFreezes(text, members);
        }
      case _ =>
    }
  }

  lemma SetFreezes(text: Text, members: seq<Value>)
    requires FreezeAll(text, members).Some?
    ensures forall x :: x in Members(FreezeAll(text, members).value)
                        <==> exists i :: 0 <= i < |members| && Freeze(text, members[i]) == Some(x)
  {
    var all := FreezeAll(text, members).value;
    forall x ensures x in Members(all) <==> exists i :: 0 <= i < |members| && Freeze(text, members[i]) == Some(x) {
      if i :| 0 <= i < |members| && Freeze(text, members[i]) == Some(x) {
        assert all[i] == x;
      }
      if x in all {
        var i :| 0 <= i < |all| && all[i] == x;
        assert Freeze(text, members[i]) == Some(x);
      }
    }
  }

  // ----- the key of a row

  ghost predicate Shows(text: Text, row: Row, name: string, frozen: Frozen) {
    name in row.attributes && Freeze(text, row.attributes[name]) == Some(frozen)
  }

  /** The row's key: the frozen value of the one field, or the tuple of those of all fields in order. */
  ghost predicate KeyOf(text: Text, spec: KeySpec, row: Row, key: Frozen) {
    match spec
    case OneField(name) => Shows(text, row, name, key)
    case FieldTuple(parts) =>
      && key.FTuple? && |key.items| == |parts| > 0
      && forall i :: 0 <= i < |parts| ==>
           parts[i].Hashed? && parts[i].value.FStr? && Shows(text, row, parts[i].value.s, key.items[i])
    case OtherSpec => false
  }

  ghost predicate Fails(text: Text, row: Row, name: string, e: Error) {
    if name !in row.attributes then e == MissingKey(name)
    else Freeze(text, row.attributes[name]).None? && e == UnhashableKey
  }

  /** The first field that the row lacks, or whose value cannot be hashed. */
  ghost predicate FailsFirstAt(text: Text, row: Row, names: seq<string>, i: nat, e: Error) {
    && i < |names| && Fails(text, row, names[i], e)
    && forall j :: 0 <= j < i ==> names[j] in row.attributes && Freeze(text, row.attributes[names[j]]).Some?
  }

  lemma {:induction false} ResolvedFields(text: Text, row: Row, names: seq<string>)
    requires ResolveAll(text, row, names).Ok?
    ensures var values := ResolveAll(text, row, names).value;
            |values| == |names| && forall i :: 0 <= i < |names| ==> Shows(text, row, names[i], values[i])
  {
    if names != [] {
      ResolvedFields(text, row, names[1..]);
      var values, rest := ResolveAll(text, row, names).value, ResolveAll(text, row, names[1..]).value;
      forall i | 0 <= i < |names| ensures Shows(text, row, names[i], values[i]) {
        assert i > 0 ==> names[i] == names[1..][i - 1] && values[i] == rest[i - 1];
      }
    }
  }

  lemma {:induction false} FailingField(text: Text, row: Row, names: seq<string>) returns (i: nat)
    requires ResolveAll(text, row, names).Raised?
    ensures FailsFirstAt(text, row, names, i, ResolveAll(text, row, names).error)
  {
    if names[0] in row.attributes && Freeze(text, row.attributes[names[0]]).Some? {
      var k := FailingField(text, row, names[1..]);
      i := k + 1;
      forall j | 0 <= j < i ensures names[j] in row.attributes && Freeze(text, row.attributes[names[j]]).Some? {
        assert j > 0 ==> names[j] == names[1..][j - 1];
      }
    } else {
      i := 0;
    }
  }

  lemma {:induction false} ShownFieldsResolve(text: Text, row: Row, names: seq<string>, values: seq<Frozen>)
    requires |names| == |values| && forall i :: 0 <= i < |names| ==> Shows(text, row, names[i], values[i])
    ensures ResolveAll(text, row, names) == Ok(values)
  {
    if names != [] {
      forall i | 0 <= i < |names[1..]| ensures Shows(text, row, names[1..][i], values[1..][i]) {
        assert Shows(text, row, names[i + 1], values[i + 1]);
      }
      ShownFieldsResolve(text, row, names[1..], values[1..]);
      assert Shows(text, row, names[0], values[0]);
      assert values == [values[0]] + values[1..];
    }
  }

  /** A key specification is one field name, or a tuple of at least one. */
  ghost predicate IsKeySpec(spec: KeySpec) {
    || spec.OneField?
    || (spec.FieldTuple? && spec.parts != []
        && forall i :: 0 <= i < |spec.parts| ==> spec.parts[i].Hashed? && spec.parts[i].value.FStr?)
  }

  ghost function NamesOf(spec: KeySpec): seq<string>
    requires IsKeySpec(spec)
  {
    if spec.OneField? then [spec.name] else seq(|spec.parts|, i requires 0 <= i < |spec.parts| => spec.parts[i].value.s)
  }

  /** Other specifications are refused; a supported one gives a row its key, or the error of the first field
      that fails. */
  lemma KeyMeans(text: Text, spec: KeySpec, row: Row)
    ensures Normalize(spec).Ok? <==> IsKeySpec(spec)
    ensures IsKeySpec(spec) ==>
              match Resolve(text, Normalize(spec).value, row)
              case Ok(key) => KeyOf(text, spec, row, key)
              case Raised(e) => exists i :: FailsFirstAt(text, row, NamesOf(spec), i, e)
    ensures forall key :: IsKeySpec(spec) && KeyOf(text, spec, row, key) ==>
              Resolve(text, Normalize(spec).value, row) == Ok(key)
  {
    if IsKeySpec(spec) {
      var names := Normalize(spec).value.names;
      assert names == NamesOf(spec);
      if ResolveAll(text, row, names).Ok? {
        ResolvedFields(text, row, names);
      } else {
        var i := FailingField(text, row, names);
      }
      forall key | KeyOf(text, spec, row, key) ensures Resolve(text, Normalize(spec).value, row) == Ok(key) {
        var values := if spec.OneField? then [key] else key.items;
        ShownFieldsResolve(text, row, names, values);
      }
    }
  }

  /** What an index that agrees with the scan holds: under each key all rows that have it, in source order, and
      no key that no row has. */
  lemma IndexHolds(text: Text, spec: KeySpec, rows: seq<Row>, index: map<Frozen, seq<Row>>, key: Frozen)
    requires IsKeySpec(spec) && AgreesWithScan(text, Normalize(spec).value, rows, index)
    ensures var having := Filter((row: Row) => KeyOf(text, spec, row, key), rows);
            if key in index then index[key] == having && having != [] else having == []
  {
    var fields := Normalize(spec).value;
    forall row ensures HasKey(text, fields, key, row) <==> KeyOf(text, spec, row, key) {
      KeyMeans(text, spec, row);
    }
    FilterExtensional((row: Row) => HasKey(text, fields, key, row), (row: Row) => KeyOf(text, spec, row, key), rows);
  }

  /** Why row `i` cannot be indexed behind the rows before it: the guardrail is reached, or it has no key, or in
      a unique index an earlier row has its key. */
  ghost predicate Offends(text: Text, spec: KeySpec, rows: seq<Row>, maxRows: MaxRows, unique: bool, i: nat, e: Error)
    requires i < |rows| && IsKeySpec(spec)
  {
    if maxRows.Limit? && i >= maxRows.rows then e == TooLarge(maxRows.rows)
    else
      || (exists k :: FailsFirstAt(text, rows[i], NamesOf(spec), k, e))
      || (exists key, j :: KeyOf(text, spec, rows[i], key) && unique && 0 <= j < i && KeyOf(text, spec, rows[j], key)
                           && e == DuplicateKey(key))
  }

  lemma EarlierRow(text: Text, spec: KeySpec, rows: seq<Row>, i: nat, key: Frozen)
    requires i < |rows| && IsKeySpec(spec) && Normalize(spec).Ok?
    ensures Scan(text, Normalize(spec).value, rows[..i], key) != []
       <==> exists j :: 0 <= j < i && KeyOf(text, spec, rows[j], key)
  {
    var fields := Normalize(spec).value;
    var scan := Scan(text, fields, rows[..i], key);
    if scan != [] {
      assert scan[0] in scan;
      var j :| 0 <= j < i && rows[..i][j] == scan[0];
      KeyMeans(text, spec, rows[j]);
    }
    if j :| 0 <= j < i && KeyOf(text, spec, rows[j], key) {
      KeyMeans(text, spec, rows[j]);
      assert rows[..i][j] == rows[j] && rows[j] in rows[..i];
      assert rows[j] in scan;
    }
  }

  lemma OneKeyOf(text: Text, spec: KeySpec, row: Row, key: Frozen, other: Frozen)
    requires IsKeySpec(spec) && KeyOf(text, spec, row, key) && KeyOf(text, spec, row, other)
    ensures key == other
  {
    KeyMeans(text, spec, row);
  }

  lemma OffenceMeans(text: Text, spec: KeySpec, rows: seq<Row>, maxRows: MaxRows, unique: bool, i: nat, e: Error)
    requires i < |rows| && IsKeySpec(spec) && Normalize(spec).Ok?
    ensures Offence(text, Normalize(spec).value, rows, maxRows, unique, i) == Some(e)
       ==> Offends(text, spec, rows, maxRows, unique, i, e)
    ensures Offends(text, spec, rows, maxRows, unique, i, e)
       ==> Offence(text, Normalize(spec).value, rows, maxRows, unique, i).Some?
  {
    KeyMeans(text, spec, rows[i]);
    var resolved := Resolve(text, Normalize(spec).value, rows[i]);
    if resolved.Ok? {
      EarlierRow(text, spec, rows, i, resolved.value);
      FailsOrShows(text, spec, rows[i], resolved.value);
      forall other | KeyOf(text, spec, rows[i], other) ensures other == resolved.value {
        OneKeyOf(text, spec, rows[i], resolved.value, other);
      }
    }
  }

  lemma FailsOrShows(text: Text, spec: KeySpec, row: Row, key: Frozen)
    requires IsKeySpec(spec) && KeyOf(text, spec, row, key)
    ensures forall i: nat, e :: !FailsFirstAt(text, row, NamesOf(spec), i, e)
  {
    forall i | 0 <= i < |NamesOf(spec)|
      ensures exists frozen :: Shows(text, row, NamesOf(spec)[i], frozen)
    {
      assert Shows(text, row, NamesOf(spec)[i], if spec.OneField? then key else key.items[i]);
    }
  }
}
