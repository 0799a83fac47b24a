/** The extractor: allow-list filtering of the database and schema listings,
    and the walk over databases, schemas and tables that collects the table
    records. The warehouse is given as the results of its listing queries. */
module Extractor {
  import opened Wrappers
  import opened PyText
  import opened SnowflakeTables

  /** What the warehouse answers to each listing query: the `name` column of
      `SHOW DATABASES` and `SHOW SCHEMAS IN DATABASE db`, and the rows of
      `SHOW TABLES IN db.schema`. `None` is a query that raises
      `ProgrammingError`. */
  datatype Warehouse = Warehouse(
    databases: Option<seq<string>>,
    schemasIn: string -> Option<seq<string>>,
    tablesIn: (string, string) -> Option<seq<Row>>)

  // ---------------------------------------------------------------------
  // Allow-lists

  /** `filter or []`: an absent allow-list is the empty one. */
  function AllowList(filter: Option<seq<string>>): seq<string>
  {
    if filter.Some? then filter.value else []
  }

  /** `[n for n in names if n in allow]` */
  function Keep(names: seq<string>, allow: seq<string>): (r: seq<string>)
    ensures |r| <= |names|
    ensures forall x :: x in r <==> x in names && x in allow
    decreases |names|
  {
    if names == [] then []
    else (if names[0] in allow then [names[0]] else []) + Keep(names[1..], allow)
  }

  /** The listing after the allow-list: everything when the list is empty,
      otherwise the listed names the list contains. */
  function FilterAllowed(names: seq<string>, allow: seq<string>): (r: seq<string>)
    ensures forall x :: x in r <==> x in names && (allow == [] || x in allow)
  {
    if allow == [] then names else Keep(names, allow)
  }

  /** `a` is `b` with some elements left out, the rest kept in order. */
  ghost predicate IsSubsequence<T>(a: seq<T>, b: seq<T>)
    decreases |b|
  {
    if a == [] then true
    else if b == [] then false
    else (a[0] == b[0] && IsSubsequence(a[1..], b[1..])) || IsSubsequence(a, b[1..])
  }

  /** Filtering keeps the listing order and each kept name as often as it was
      listed. */
  lemma {:induction false} KeepPreservesOrder(names: seq<string>, allow: seq<string>)
    ensures IsSubsequence(Keep(names, allow), names)
    ensures forall x :: multiset(Keep(names, allow))[x] == if x in allow then multiset(names)[x] else 0
    decreases |names|
  {
    if names != [] {
      KeepPreservesOrder(names[1..], allow);
      var rest := Keep(names[1..], allow);
      assert names == [names[0]] + names[1..];
      if names[0] in allow {
        assert ([names[0]] + rest)[1..] == rest;
      } else {
        assert [] + rest == rest;
      }
    }
  }

  /** A listing query's names after the allow-list; `[]` when it raises. */
  function Listed(listing: Option<seq<string>>, allow: seq<string>): seq<string>
  {
    if listing.None? then [] else FilterAllowed(listing.value, allow)
  }

  /** A table listing query's records; `[]` when it raises. */
  function TablesIn(listing: Option<seq<Row>>): Fallible<seq<SnowflakeTable>>
  {
    if listing.None? then Completed([]) else MapRows(listing.value)
  }

  // ---------------------------------------------------------------------
  // The walk

  const InformationSchema := "INFORMATION_SCHEMA"

  predicate IsInformationSchema(schema: string)
  {
    Upper(schema) == InformationSchema
  }

  /** The skipped schema names are exactly the case variants of
      `INFORMATION_SCHEMA`. */
  lemma InformationSchemaIff(schema: string)
    ensures IsInformationSchema(schema) <==>
              |schema| == |InformationSchema|
              && forall i :: 0 <= i < |schema| ==>
                   schema[i] == InformationSchema[i] || schema[i] == LowerChar(InformationSchema[i])
  {
    UpperEqualsIff(schema, InformationSchema);
  }

  /** The tables of the given schemas of one database, in schema order,
      leaving out `INFORMATION_SCHEMA`. */
  function WalkSchemas(database: string, schemas: seq<string>, w: Warehouse): Fallible<seq<SnowflakeTable>>
    decreases |schemas|
  {
    if schemas == [] then Completed([])
    else
      var before := WalkSchemas(database, schemas[..|schemas| - 1], w);
      var schema := schemas[|schemas| - 1];
      if IsInformationSchema(schema) then before
      else Concat(before, TablesIn(w.tablesIn(database, schema)))
  }

  /** The tables of the given databases, in database order, each database's
      schemas taken from its filtered listing. */
  function WalkDatabases(databases: seq<string>, schemaAllow: seq<string>, w: Warehouse): Fallible<seq<SnowflakeTable>>
    decreases |databases|
  {
    if databases == [] then Completed([])
    else
      var database := databases[|databases| - 1];
      Concat(WalkDatabases(databases[..|databases| - 1], schemaAllow, w),
             WalkSchemas(database, Listed(w.schemasIn(database), schemaAllow), w))
  }

  /** Everything the extraction collects from a warehouse. */
  function Extraction(w: Warehouse, databaseAllow: seq<string>, schemaAllow: seq<string>): Fallible<seq<SnowflakeTable>>
  {
    WalkDatabases(Listed(w.databases, databaseAllow), schemaAllow, w)
  }

  /** A pair the walk queries for tables. */
  ghost predicate Walked(w: Warehouse, databaseAllow: seq<string>, schemaAllow: seq<string>, database: string, schema: string)
  {
    && database in Listed(w.databases, databaseAllow)
    && schema in Listed(w.schemasIn(database), schemaAllow)
    && !IsInformationSchema(schema)
  }

  /** Once an exception escapes, the rest of the walk cannot undo it. */
  lemma {:induction false} WalkSchemasAbortPersists(database: string, schemas: seq<string>, k: nat, w: Warehouse)
    requires k <= |schemas|
    requires WalkSchemas(database, schemas[..k], w).Aborted?
    ensures WalkSchemas(database, schemas, w).Aborted?
    decreases |schemas|
  {
    if k < |schemas| {
      var init := schemas[..|schemas| - 1];
      assert init[..k] == schemas[..k];
      WalkSchemasAbortPersists(database, init, k, w);
    } else {
      assert schemas[..k] == schemas;
    }
  }

  lemma {:induction false} WalkDatabasesAbortPersists(databases: seq<string>, k: nat, schemaAllow: seq<string>, w: Warehouse)
    requires k <= |databases|
    requires WalkDatabases(databases[..k], schemaAllow, w).Aborted?
    ensures WalkDatabases(databases, schemaAllow, w).Aborted?
    decreases |databases|
  {
    if k < |databases| {
      var init := databases[..|databases| - 1];
      assert init[..k] == databases[..k];
      WalkDatabasesAbortPersists(init, k, schemaAllow, w);
    } else {
      assert databases[..k] == databases;
    }
  }

  /** One more schema extends the walk by its tables, or leaves it alone when
      it is `INFORMATION_SCHEMA`. */
  lemma WalkSchemasStep(database: string, schemas: seq<string>, j: nat, w: Warehouse)
    requires j < |schemas|
    requires WalkSchemas(database, schemas[..j], w).Completed?
    ensures IsInformationSchema(schemas[j]) ==>
              WalkSchemas(database, schemas[..j + 1], w) == WalkSchemas(database, schemas[..j], w)
    ensures !IsInformationSchema(schemas[j]) && TablesIn(w.tablesIn(database, schemas[j])).Completed? ==>
              WalkSchemas(database, schemas[..j + 1], w)
              == Completed(WalkSchemas(database, schemas[..j], w).value + TablesIn(w.tablesIn(database, schemas[j])).value)
  {
    assert schemas[..j + 1][..j] == schemas[..j];
  }

  /** One more database extends the walk by that database's schemas. */
  lemma WalkDatabasesStep(databases: seq<string>, i: nat, schemaAllow: seq<string>, w: Warehouse)
    requires i < |databases|
    ensures WalkDatabases(databases[..i + 1], schemaAllow, w)
            == Concat(WalkDatabases(databases[..i], schemaAllow, w),
                      WalkSchemas(databases[i], Listed(w.schemasIn(databases[i]), schemaAllow), w))
  {
    assert databases[..i + 1][..i] == databases[..i];
  }

  /** An exception escaping from the listing of schema `j` of database `i`
      aborts the whole walk. */
  lemma ExtractionAbortsAt(databases: seq<string>, i: nat, schemaAllow: seq<string>, w: Warehouse, schemas: seq<string>, j: nat)
    requires i < |databases| && j < |schemas|
    requires schemas == Listed(w.schemasIn(databases[i]), schemaAllow)
    requires WalkSchemas(databases[i], schemas[..j], w).Completed?
    requires !IsInformationSchema(schemas[j])
    requires TablesIn(w.tablesIn(databases[i], schemas[j])).Aborted?
    ensures WalkDatabases(databases, schemaAllow, w).Aborted?
  {
    assert schemas[..j + 1][..j] == schemas[..j];
    WalkSchemasAbortPersists(databases[i], schemas, j + 1, w);
    WalkDatabasesStep(databases, i, schemaAllow, w);
    WalkDatabasesAbortPersists(databases, i + 1, schemaAllow, w);
  }

  /** What any `INFORMATION_SCHEMA` listing holds has no effect on the walk of
      one database's schemas. */
  lemma {:induction false} WalkSchemasIgnoresInformationSchema(
    database: string, schemas: seq<string>, w: Warehouse, tablesIn': (string, string) -> Option<seq<Row>>)
    requires forall s :: !IsInformationSchema(s) ==> tablesIn'(database, s) == w.tablesIn(database, s)
    ensures WalkSchemas(database, schemas, w.(tablesIn := tablesIn')) == WalkSchemas(database, schemas, w)
    decreases |schemas|
  {
    if schemas != [] {
      WalkSchemasIgnoresInformationSchema(database, schemas[..|schemas| - 1], w, tablesIn');
    }
  }

  /** No allow-list, however it is set, brings `INFORMATION_SCHEMA` back:
      changing what its table listings hold never changes the extraction. */
  lemma {:induction false} ExtractionIgnoresInformationSchema(
    w: Warehouse, databaseAllow: seq<string>, schemaAllow: seq<string>,
    tablesIn': (string, string) -> Option<seq<Row>>)
    requires forall d, s :: !IsInformationSchema(s) ==> tablesIn'(d, s) == w.tablesIn(d, s)
    ensures Extraction(w.(tablesIn := tablesIn'), databaseAllow, schemaAllow) == Extraction(w, databaseAllow, schemaAllow)
  {
    WalkDatabasesIgnoresInformationSchema(Listed(w.databases, databaseAllow), schemaAllow, w, tablesIn');
  }

  lemma {:induction false} WalkDatabasesIgnoresInformationSchema(
    databases: seq<string>, schemaAllow: seq<string>, w: Warehouse,
    tablesIn': (string, string) -> Option<seq<Row>>)
    requires forall d, s :: !IsInformationSchema(s) ==> tablesIn'(d, s) == w.tablesIn(d, s)
    ensures WalkDatabases(databases, schemaAllow, w.(tablesIn := tablesIn')) == WalkDatabases(databases, schemaAllow, w)
    decreases |databases|
  {
    if databases != [] {
      var database := databases[|databases| - 1];
      WalkDatabasesIgnoresInformationSchema(databases[..|databases| - 1], schemaAllow, w, tablesIn');
      WalkSchemasIgnoresInformationSchema(database, Listed(w.schemasIn(database), schemaAllow), w, tablesIn');
    }
  }

  /** Every extracted record is the mapping of a row listed for a walked
      database and schema: an allowed database, an allowed schema of it, and
      not `INFORMATION_SCHEMA`. */
  lemma ExtractionSound(w: Warehouse, databaseAllow: seq<string>, schemaAllow: seq<string>)
    requires Extraction(w, databaseAllow, schemaAllow).Completed?
    ensures forall t :: t in Extraction(w, databaseAllow, schemaAllow).value ==>
              exists d, s :: Walked(w, databaseAllow, schemaAllow, d, s) && FromListing(t, w.tablesIn(d, s))
  {
    var databases := Listed(w.databases, databaseAllow);
    WalkDatabasesSound(databases, databases, databaseAllow, schemaAllow, w);
  }

  /** `t` is the mapping of one of the rows of a table listing. */
  ghost predicate FromListing(t: SnowflakeTable, listing: Option<seq<Row>>)
  {
    listing.Some? && exists i :: 0 <= i < |listing.value| && MapRow(listing.value[i]) == Parsed(t)
  }

  lemma {:induction false} WalkSchemasSound(database: string, schemas: seq<string>, w: Warehouse)
    requires WalkSchemas(database, schemas, w).Completed?
    ensures forall t :: t in WalkSchemas(database, schemas, w).value ==>
              exists s :: s in schemas && !IsInformationSchema(s) && FromListing(t, w.tablesIn(database, s))
    decreases |schemas|
  {
    if schemas != [] {
      var init := schemas[..|schemas| - 1];
      var schema := schemas[|schemas| - 1];
      WalkSchemasSound(database, init, w);
      forall t | t in WalkSchemas(database, schemas, w).value
        ensures exists s :: s in schemas && !IsInformationSchema(s) && FromListing(t, w.tablesIn(database, s))
      {
        if t in WalkSchemas(database, init, w).value {
          var s :| s in init && !IsInformationSchema(s) && FromListing(t, w.tablesIn(database, s));
          assert s in schemas;
        } else {
          var listing := w.tablesIn(database, schema);
          assert listing.Some?;
          MapRowsCompleted(listing.value);
          assert FromListing(t, listing);
        }
      }
    }
  }

  lemma {:induction false} WalkDatabasesSound(
    databases: seq<string>, all: seq<string>, databaseAllow: seq<string>, schemaAllow: seq<string>, w: Warehouse)
    requires all == Listed(w.databases, databaseAllow)
    requires forall d :: d in databases ==> d in all
    requires WalkDatabases(databases, schemaAllow, w).Completed?
    ensures forall t :: t in WalkDatabases(databases, schemaAllow, w).value ==>
              exists d, s :: Walked(w, databaseAllow, schemaAllow, d, s) && FromListing(t, w.tablesIn(d, s))
    decreases |databases|
  {
    if databases != [] {
      var init := databases[..|databases| - 1];
      var database := databases[|databases| - 1];
      var schemas := Listed(w.schemasIn(database), schemaAllow);
      WalkDatabasesSound(init, all, databaseAllow, schemaAllow, w);
      WalkSchemasSound(database, schemas, w);
      forall t | t in WalkDatabases(databases, schemaAllow, w).value
        ensures exists d, s :: Walked(w, databaseAllow, schemaAllow, d, s) && FromListing(t, w.tablesIn(d, s))
      {
        if t !in WalkDatabases(init, schemaAllow, w).value {
          var s :| s in schemas && !IsInformationSchema(s) && FromListing(t, w.tablesIn(database, s));
          assert Walked(w, databaseAllow, schemaAllow, database, s);
        }
      }
    }
  }

  // ---------------------------------------------------------------------
  // The extractor object

  /** The extractor, holding the allow-lists it was constructed with. The
      connection credentials and the connection itself are not modelled. */
  class RetentionExtractor {
    const databaseFilter: seq<string>
    const schemaFilter: seq<string>

    constructor (databaseFilter: Option<seq<string>>, schemaFilter: Option<seq<string>>)
      ensures this.databaseFilter == AllowList(databaseFilter)
      ensures this.schemaFilter == AllowList(schemaFilter)
    {
      this.databaseFilter := AllowList(databaseFilter);
      this.schemaFilter := AllowList(schemaFilter);
    }

    /** `SHOW DATABASES` after the database allow-list. */
    method GetDatabases(listing: Option<seq<string>>) returns (databases: seq<string>)
      ensures listing.None? ==> databases == []
      ensures listing.Some? ==> databases == FilterAllowed(listing.value, databaseFilter)
    {
      if listing.None? {
        return [];
      }
      databases := FilterAllowed(listing.value, databaseFilter);
    }

    /** `SHOW SCHEMAS IN DATABASE database` after the schema allow-list. */
    method GetSchemas(database: string, listing: Option<seq<string>>) returns (schemas: seq<string>)
      ensures listing.None? ==> schemas == []
      ensures listing.Some? ==> schemas == FilterAllowed(listing.value, schemaFilter)
    {
      if listing.None? {
        return [];
      }
      schemas := FilterAllowed(listing.value, schemaFilter);
    }

    /** The records of `SHOW TABLES IN database.schema`, one per row that
        parses, in row order. */
    method GetTablesWithRetention(database: string, schema: string, listing: Option<seq<Row>>)
      returns (tables: Fallible<seq<SnowflakeTable>>)
      ensures listing.None? ==> tables == Completed([])
      ensures listing.Some? ==> tables == MapRows(listing.value)
    {
      if listing.None? {
        return Completed([]);
      }
      var rows := listing.value;
      var parsed: seq<SnowflakeTable> := [];
      var i := 0;
      while i < |rows|
        invariant 0 <= i <= |rows|
        invariant MapRows(rows[..i]) == Completed(parsed)
      {
        assert rows[..i + 1][..i] == rows[..i];
        assert rows[..i + 1][i] == rows[i];
        match MapRow(rows[i]) {
          case Escaped =>
            MapRowsAppend(rows[..i + 1], rows[i + 1..]);
            assert rows[..i + 1] + rows[i + 1..] == rows;
            return Aborted;
          case Skipped =>
          case Parsed(t) =>
            parsed := parsed + [t];
        }
        i := i + 1;
      }
      assert rows[..i] == rows;
      tables := Completed(parsed);
    }

    /** The inner loop of the extraction: the records of the given schemas
        of one database, skipping `INFORMATION_SCHEMA`, appended to `all`. */
    method ExtractSchemas(database: string, schemas: seq<string>, w: Warehouse, all: seq<SnowflakeTable>)
      returns (result: Fallible<seq<SnowflakeTable>>)
      ensures result == Concat(Completed(all), WalkSchemas(database, schemas, w))
    {
      var collected := all;
      var j := 0;
      while j < |schemas|
        invariant 0 <= j <= |schemas|
        invariant WalkSchemas(database, schemas[..j], w).Completed?
        invariant collected == all + WalkSchemas(database, schemas[..j], w).value
      {
        var schema := schemas[j];
        WalkSchemasStep(database, schemas, j, w);
        if IsInformationSchema(schema) {
          j := j + 1;
          continue;
        }
        var found := GetTablesWithRetention(database, schema, w.tablesIn(database, schema));
        if found.Aborted? {
          assert schemas[..j + 1][..j] == schemas[..j];
          WalkSchemasAbortPersists(database, schemas, j + 1, w);
          return Aborted;
        }
        assert all + WalkSchemas(database, schemas[..j], w).value + found.value
               == all + (WalkSchemas(database, schemas[..j], w).value + found.value);
        collected := collected + found.value;
        j := j + 1;
      }
      assert schemas[..j] == schemas;
      result := Completed(collected);
    }

    /** All records of all walked schemas of all allowed databases. */
    method ExtractAllRetentionData(w: Warehouse) returns (tables: Fallible<seq<SnowflakeTable>>)
      ensures tables == Extraction(w, databaseFilter, schemaFilter)
    {
      var all: seq<SnowflakeTable> := [];
      var databases := GetDatabases(w.databases);
      var i := 0;
      while i < |databases|
        invariant 0 <= i <= |databases|
        invariant databases == Listed(w.databases, databaseFilter)
        invariant WalkDatabases(databases[..i], schemaFilter, w) == Completed(all)
      {
        var database := databases[i];
        var schemas := GetSchemas(database, w.schemasIn(database));
        assert schemas == Listed(w.schemasIn(database), schemaFilter);
        WalkDatabasesStep(databases, i, schemaFilter, w);
        var found := ExtractSchemas(database, schemas, w, all);
        if found.Aborted? {
          WalkDatabasesAbortPersists(databases, i + 1, schemaFilter, w);
          return Aborted;
        }
        all := found.value;
        i := i + 1;
      }
      assert databases[..i] == databases;
      tables := Completed(all);
    }
  }
}
