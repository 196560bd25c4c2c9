/** Hash indexes over bucket rows. */
module BucketIndex {
  import opened Sequences
  import opened FrozenKeys

  // ----- rows and key specifications

  /** A row with the attributes that it exposes. */
  datatype Row = Row(id: int, attributes: map<string, Value>)

  datatype KeySpec = OneField(name: string) | FieldTuple(parts: seq<Value>) | OtherSpec

  datatype MaxRows = Unlimited | Limit(rows: int) | NotAnInt

  datatype Error =
    | UnsupportedKeySpec
    | InvalidMaxRows
    | TooLarge(maxRows: int)
    | MissingKey(field: string)
    | UnhashableKey
    | DuplicateKey(key: Frozen)

  datatype Result<+T> = Ok(value: T) | Raised(error: Error)

  datatype Fields = Fields(names: seq<string>, composite: bool)

  /** `normalize_bucket_index_key_spec` */
  function Normalize(spec: KeySpec): Result<Fields> {
    match spec
    case OneField(name) => Ok(Fields([name], false))
    case FieldTuple(parts) =>
      if parts != [] && forall i :: 0 <= i < |parts| ==> IsString(parts[i])
      then Ok(Fields(Map((v: Value) => if IsString(v) then v.value.s else "", parts), true))
      else Raised(UnsupportedKeySpec)
    case OtherSpec => Raised(UnsupportedKeySpec)
  }

  /** The frozen values of the requested fields, up to the first field that fails. */
  function ResolveAll(text: Text, row: Row, names: seq<string>): Result<seq<Frozen>> {
    if names == [] then Ok([])
    else if names[0] !in row.attributes then Raised(MissingKey(names[0]))
    else
      match Freeze(text, row.attributes[names[0]])
      case None => Raised(UnhashableKey)
      case Some(first) =>
        match ResolveAll(text, row, names[1..])
        case Raised(e) => Raised(e)
        case Ok(rest) => Ok([first] + rest)
  }

  /** `_resolve_normalized_bucket_index_key` */
  function Resolve(text: Text, fields: Fields, row: Row): Result<Frozen> {
    match ResolveAll(text, row, fields.names)
    case Raised(e) => Raised(e)
    case Ok(values) => if fields.composite || values == [] then Ok(FTuple(values)) else Ok(values[0])
  }

  predicate HasKey(text: Text, fields: Fields, key: Frozen, row: Row) {
    Resolve(text, fields, row).Ok? && Resolve(text, fields, row).value == key
  }

  /** The linear scan for a key. */
  function Scan(text: Text, fields: Fields, rows: seq<Row>, key: Frozen): seq<Row> {
    Filter((row: Row) => HasKey(text, fields, key, row), rows)
  }

  // ----- what is wrong with a row

  predicate Exceeds(maxRows: MaxRows, index: nat) { maxRows.Limit? && index >= maxRows.rows }

  /** The error that row `i` causes when all rows before it are indexed. */
  function Offence(text: Text, fields: Fields, rows: seq<Row>, maxRows: MaxRows, unique: bool, i: nat): Option<Error>
    requires i < |rows|
  {
    if Exceeds(maxRows, i) then Some(TooLarge(maxRows.rows))
    else
      match Resolve(text, fields, rows[i])
      case Raised(e) => Some(e)
      case Ok(key) => if unique && Scan(text, fields, rows[..i], key) != [] then Some(DuplicateKey(key)) else None
  }

  ghost predicate InnocentUpTo(text: Text, fields: Fields, rows: seq<Row>, maxRows: MaxRows, unique: bool, n: nat)
    requires n <= |rows|
  {
    forall i :: 0 <= i < n ==> Offence(text, fields, rows, maxRows, unique, i).None?
  }

  ghost predicate FirstOffence(text: Text, fields: Fields, rows: seq<Row>, maxRows: MaxRows, unique: bool, e: Error) {
    exists i :: 0 <= i < |rows| && InnocentUpTo(text, fields, rows, maxRows, unique, i)
                && Offence(text, fields, rows, maxRows, unique, i) == Some(e)
  }

  /** `index` maps a key to its rows exactly as a scan over `rows` finds them. */
  ghost predicate AgreesWithScan(text: Text, fields: Fields, rows: seq<Row>, index: map<Frozen, seq<Row>>) {
    forall key :: if key in index then Scan(text, fields, rows, key) == index[key] && index[key] != []
                  else Scan(text, fields, rows, key) == []
  }

  lemma ScanStep(text: Text, fields: Fields, rows: seq<Row>, i: nat, key: Frozen)
    requires i < |rows|
    ensures Scan(text, fields, rows[..i + 1], key)
         == Scan(text, fields, rows[..i], key) + if HasKey(text, fields, key, rows[i]) then [rows[i]] else []
  {
    assert rows[..i + 1] == rows[..i] + [rows[i]];
    FilterAppend((row: Row) => HasKey(text, fields, key, row), rows[..i], [rows[i]]);
  }

  lemma IndexRow(text: Text, fields: Fields, rows: seq<Row>, i: nat, index: map<Frozen, seq<Row>>, key: Frozen)
    requires i < |rows| && Resolve(text, fields, rows[i]) == Ok(key)
    requires AgreesWithScan(text, fields, rows[..i], index)
    ensures AgreesWithScan(text, fields, rows[..i + 1],
                           index[key := (if key in index then index[key] else []) + [rows[i]]])
  {
    var next := index[key := (if key in index then index[key] else []) + [rows[i]]];
    forall k ensures if k in next then Scan(text, fields, rows[..i + 1], k) == next[k] && next[k] != []
                     else Scan(text, fields, rows[..i + 1], k) == []
    {
      ScanStep(text, fields, rows, i, k);
    }
  }

  /** A unique index as an index of groups. */
  function Groups(index: map<Frozen, Row>): map<Frozen, seq<Row>> {
    map k | k in index :: [index[k]]
  }

  /** `build_multi_bucket_index` */
  method BuildMulti(text: Text, rows: seq<Row>, spec: KeySpec, maxRows: MaxRows)
    returns (r: Result<map<Frozen, seq<Row>>>)
    ensures Normalize(spec).Raised? ==> r == Raised(UnsupportedKeySpec)
    ensures Normalize(spec).Ok? && maxRows.NotAnInt? ==> r == Raised(InvalidMaxRows)
    ensures Normalize(spec).Ok? && !maxRows.NotAnInt? ==>
              var fields := Normalize(spec).value;
              if r.Ok? then InnocentUpTo(text, fields, rows, maxRows, false, |rows|)
                            && AgreesWithScan(text, fields, rows, r.value)
              else FirstOffence(text, fields, rows, maxRows, false, r.error)
  {
    var normalized := Normalize(spec);
    if normalized.Raised? {
      return Raised(normalized.error);
    }
    var fields := normalized.value;
    if maxRows.NotAnInt? {
      return Raised(InvalidMaxRows);
    }
    var grouped: map<Frozen, seq<Row>> := map[];
    for i := 0 to |rows|
      invariant InnocentUpTo(text, fields, rows, maxRows, false, i)
      invariant AgreesWithScan(text, fields, rows[..i], grouped)
    {
      if Exceeds(maxRows, i) {
        assert Offence(text, fields, rows, maxRows, false, i) == Some(TooLarge(maxRows.rows));
        return Raised(TooLarge(maxRows.rows));
      }
      var key := Resolve(text, fields, rows[i]);
      if key.Raised? {
        assert Offence(text, fields, rows, maxRows, false, i) == Some(key.error);
        return Raised(key.error);
      }
      IndexRow(text, fields, rows, i, grouped, key.value);
      grouped := grouped[key.value := (if key.value in grouped then grouped[key.value] else []) + [rows[i]]];
    }
    assert rows[..|rows|] == rows;
    return Ok(grouped);
  }

  /** `build_unique_bucket_index` */
  method BuildUnique(text: Text, rows: seq<Row>, spec: KeySpec, maxRows: MaxRows) returns (r: Result<map<Frozen, Row>>)
    ensures Normalize(spec).Raised? ==> r == Raised(UnsupportedKeySpec)
    ensures Normalize(spec).Ok? && maxRows.NotAnInt? ==> r == Raised(InvalidMaxRows)
    ensures Normalize(spec).Ok? && !maxRows.NotAnInt? ==>
              var fields := Normalize(spec).value;
              if r.Ok? then InnocentUpTo(text, fields, rows, maxRows, true, |rows|)
                            && AgreesWithScan(text, fields, rows, Groups(r.value))
              else FirstOffence(text, fields, rows, maxRows, true, r.error)
  {
    var normalized := Normalize(spec);
    if normalized.Raised? {
      return Raised(normalized.error);
    }
    var fields := normalized.value;
    if maxRows.NotAnInt? {
      return Raised(InvalidMaxRows);
    }
    var indexed: map<Frozen, Row> := map[];
    for i := 0 to |rows|
      invariant InnocentUpTo(text, fields, rows, maxRows, true, i)
      invariant AgreesWithScan(text, fields, rows[..i], Groups(indexed))
    {
      if Exceeds(maxRows, i) {
        assert Offence(text, fields, rows, maxRows, true, i) == Some(TooLarge(maxRows.rows));
        return Raised(TooLarge(maxRows.rows));
      }
      var key := Resolve(text, fields, rows[i]);
      if key.Raised? {
        assert Offence(text, fields, rows, maxRows, true, i) == Some(key.error);
        return Raised(key.error);
      }
      if key.value in indexed {
        assert Offence(text, fields, rows, maxRows, true, i) == Some(DuplicateKey(key.value));
        return Raised(DuplicateKey(key.value));
      }
      IndexRow(text, fields, rows, i, Groups(indexed), key.value);
      assert Groups(indexed[key.value := rows[i]]) == Groups(indexed)[key.value := [rows[i]]];
      indexed := indexed[key.value := rows[i]];
    }
    assert rows[..|rows|] == rows;
    return Ok(indexed);
  }

  /** No row offends a unique index exactly when the guardrail covers all rows, every key resolves and no
      two rows have the same key. */
  lemma UniqueSucceedsExactly(text: Text, fields: Fields, rows: seq<Row>, maxRows: MaxRows)
    requires !maxRows.NotAnInt?
    ensures InnocentUpTo(text, fields, rows, maxRows, true, |rows|)
       <==> && (maxRows.Limit? ==> |rows| <= Max(maxRows.rows, 0))
            && (forall i :: 0 <= i < |rows| ==> Resolve(text, fields, rows[i]).Ok?)
            && (forall i, j :: 0 <= i < j < |rows| ==> Resolve(text, fields, rows[i]) != Resolve(text, fields, rows[j]))
  {
    if InnocentUpTo(text, fields, rows, maxRows, true, |rows|) {
      if rows != [] {
        assert Offence(text, fields, rows, maxRows, true, |rows| - 1).None?;
      }
      forall i, j | 0 <= i < j < |rows| ensures Resolve(text, fields, rows[i]) != Resolve(text, fields, rows[j]) {
        assert Offence(text, fields, rows, maxRows, true, i).None?
               && Offence(text, fields, rows, maxRows, true, j).None?;
        var key := Resolve(text, fields, rows[j]).value;
        assert rows[i] in rows[..j];
        assert HasKey(text, fields, key, rows[i]) <==> rows[i] in Scan(text, fields, rows[..j], key);
      }
      forall i | 0 <= i < |rows| ensures Resolve(text, fields, rows[i]).Ok? {
        assert Offence(text, fields, rows, maxRows, true, i).None?;
      }
    }
    if && (maxRows.Limit? ==> |rows| <= Max(maxRows.rows, 0))
       && (forall i :: 0 <= i < |rows| ==> Resolve(text, fields, rows[i]).Ok?)
       && (forall i, j :: 0 <= i < j < |rows| ==> Resolve(text, fields, rows[i]) != Resolve(text, fields, rows[j])) {
      forall j | 0 <= j < |rows| ensures Offence(text, fields, rows, maxRows, true, j).None? {
        var key := Resolve(text, fields, rows[j]).value;
        forall row | row in rows[..j] ensures !HasKey(text, fields, key, row) {
          var i :| 0 <= i < j && rows[i] == row;
          assert Resolve(text, fields, rows[i]) != Resolve(text, fields, rows[j]);
        }
        FilterNothing((row: Row) => HasKey(text, fields, key, row), rows[..j]);
      }
    }
  }
}
