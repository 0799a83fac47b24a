/** The syncer: the custom-properties map written for each table, the dataset
    name it is written under, and the success/failure tally over all tables.
    The DataHub server is an object that records every write it receives and
    accepts or rejects each one by an oracle. */
module Syncer {
  import opened Wrappers
  import opened PyText
  import opened SnowflakeTables

  const RetentionPeriodKey := "retention_period_days"
  const SyncTimestampKey := "retention_sync_timestamp"
  const RowCountKey := "row_count"
  const SizeBytesKey := "size_bytes"
  const CreatedOnKey := "created_on"

  const SuccessKey := "success"
  const FailedKey := "failed"

  /** What one catalog write carries: the dataset name the URN is built from,
      the environment label, and the custom properties. */
  datatype Proposal = Proposal(datasetName: string, env: string, customProperties: map<string, string>)

  /** The dataset name of a table: `database.schema.table`, lower-cased. */
  function DatasetName(t: SnowflakeTable): string
  {
    Lower(t.database + "." + t.schema + "." + t.table)
  }

  /** The dataset name is the lower-cased parts joined by dots, and holds no
      upper-case ASCII letter. */
  lemma DatasetNameParts(t: SnowflakeTable)
    ensures DatasetName(t) == Lower(t.database) + "." + Lower(t.schema) + "." + Lower(t.table)
    ensures forall i :: 0 <= i < |DatasetName(t)| ==> !IsAsciiUpper(DatasetName(t)[i])
  {
    LowerConcat(t.database + "." + t.schema + ".", t.table);
    LowerConcat(t.database + "." + t.schema, ".");
    LowerConcat(t.database + ".", t.schema);
    LowerConcat(t.database, ".");
    assert Lower(".") == ".";
    LowerIsLower(t.database + "." + t.schema + "." + t.table);
  }

  /** Whether `key` is one of the keys a table's custom-properties map
      carries: always the retention and the sync time, the row count and size
      when known, the creation time when known and non-empty. */
  predicate IsPropertyKey(t: SnowflakeTable, key: string)
  {
    || key == RetentionPeriodKey
    || key == SyncTimestampKey
    || (key == RowCountKey && t.rowCount.Some?)
    || (key == SizeBytesKey && t.bytes.Some?)
    || (key == CreatedOnKey && t.createdOn.Some? && t.createdOn.value != "")
  }

  /** The five property keys are distinct. */
  lemma KeysDistinct()
    ensures |{RetentionPeriodKey, SyncTimestampKey, RowCountKey, SizeBytesKey, CreatedOnKey}| == 5
  {
    assert SizeBytesKey[0] != CreatedOnKey[0];
    assert RetentionPeriodKey[1] != RowCountKey[1];
  }

  /** The custom properties written for a table at `timestamp`. */
  function CustomProperties(t: SnowflakeTable, timestamp: string): (props: map<string, string>)
    ensures forall key :: key in props <==> IsPropertyKey(t, key)
    ensures RetentionPeriodKey in props && props[RetentionPeriodKey] == DecimalString(t.retentionDays)
    ensures SyncTimestampKey in props && props[SyncTimestampKey] == timestamp
    ensures t.rowCount.Some? ==> RowCountKey in props && props[RowCountKey] == DecimalString(t.rowCount.value)
    ensures t.bytes.Some? ==> SizeBytesKey in props && props[SizeBytesKey] == DecimalString(t.bytes.value)
    ensures CreatedOnKey in props ==> Some(props[CreatedOnKey]) == t.createdOn
  {
    KeysDistinct();
    var base := map[RetentionPeriodKey := DecimalString(t.retentionDays), SyncTimestampKey := timestamp];
    var withRows := if t.rowCount.Some? then base[RowCountKey := DecimalString(t.rowCount.value)] else base;
    var withBytes := if t.bytes.Some? then withRows[SizeBytesKey := DecimalString(t.bytes.value)] else withRows;
    if t.createdOn.Some? && t.createdOn.value != "" then withBytes[CreatedOnKey := t.createdOn.value] else withBytes
  }

  /** The numeric properties are decimal strings that read back as the
      table's retention, row count and size. */
  lemma CustomPropertiesReadBack(t: SnowflakeTable, timestamp: string)
    ensures ParseInt(CustomProperties(t, timestamp)[RetentionPeriodKey]) == Some(t.retentionDays)
    ensures RowCountKey in CustomProperties(t, timestamp) ==>
              ParseInt(CustomProperties(t, timestamp)[RowCountKey]) == t.rowCount
    ensures SizeBytesKey in CustomProperties(t, timestamp) ==>
              ParseInt(CustomProperties(t, timestamp)[SizeBytesKey]) == t.bytes
  {
    KeysDistinct();
    ParseDecimalRoundTrip(t.retentionDays);
    if t.rowCount.Some? {
      ParseDecimalRoundTrip(t.rowCount.value);
    }
    if t.bytes.Some? {
      ParseDecimalRoundTrip(t.bytes.value);
    }
  }

  /** For a record built from a warehouse row, `created_on` is written exactly
      when the row's creation cell was truthy. */
  lemma CreatedOnWrittenIff(row: Row, timestamp: string)
    requires MapRow(row).Parsed?
    ensures CreatedOnKey in CustomProperties(MapRow(row).table, timestamp) <==> Truthy(row[CreatedOnColumn])
  {
  }

  /** The write for a table at `timestamp` in environment `env`. */
  function ProposalFor(t: SnowflakeTable, env: string, timestamp: string): Proposal
  {
    Proposal(DatasetName(t), env, CustomProperties(t, timestamp))
  }

  /** `f` applied to each element and its position, in order. */
  function MapIndexed<T, U>(xs: seq<T>, f: (T, nat) -> U): (r: seq<U>)
    ensures |r| == |xs|
    decreases |xs|
  {
    if xs == [] then []
    else MapIndexed(xs[..|xs| - 1], f) + [f(xs[|xs| - 1], |xs| - 1)]
  }

  /** One more element adds its image at the end. */
  lemma MapIndexedSnoc<T, U>(xs: seq<T>, f: (T, nat) -> U, i: nat)
    requires i < |xs|
    ensures MapIndexed(xs[..i + 1], f) == MapIndexed(xs[..i], f) + [f(xs[i], i)]
  {
    assert xs[..i + 1][..i] == xs[..i];
  }

  /** The `i`-th image is that of the `i`-th element. */
  lemma {:induction false} MapIndexedAt<T, U>(xs: seq<T>, f: (T, nat) -> U, i: nat)
    requires i < |xs|
    ensures MapIndexed(xs, f)[i] == f(xs[i], i)
    decreases |xs|
  {
    var n := |xs| - 1;
    if i < n {
      MapIndexedAt(xs[..n], f, i);
    }
  }

  /** The writes for the tables, one each, in order, the `i`-th made at clock
      reading `now(i)`. */
  function Proposals(tables: seq<SnowflakeTable>, env: string, now: nat -> string): (r: seq<Proposal>)
    ensures |r| == |tables|
  {
    MapIndexed(tables, (t: SnowflakeTable, n: nat) => ProposalFor(t, env, now(n)))
  }

  /** Whether the server accepts each of those writes. */
  function Accepted(tables: seq<SnowflakeTable>, env: string, now: nat -> string, accepts: Proposal -> bool): (r: seq<bool>)
    ensures |r| == |tables|
  {
    MapIndexed(tables, (t: SnowflakeTable, n: nat) => accepts(ProposalFor(t, env, now(n))))
  }

  /** The `i`-th write is that of the `i`-th table at clock reading `now(i)`. */
  lemma ProposalsAt(tables: seq<SnowflakeTable>, env: string, now: nat -> string, i: nat)
    requires i < |tables|
    ensures Proposals(tables, env, now)[i] == ProposalFor(tables[i], env, now(i))
  {
    MapIndexedAt(tables, (t: SnowflakeTable, n: nat) => ProposalFor(t, env, now(n)), i);
  }

  /** The `i`-th outcome is whether the server accepts the `i`-th write. */
  lemma AcceptedAt(tables: seq<SnowflakeTable>, env: string, now: nat -> string, accepts: Proposal -> bool, i: nat)
    requires i < |tables|
    ensures Accepted(tables, env, now, accepts)[i] == accepts(ProposalFor(tables[i], env, now(i)))
  {
    MapIndexedAt(tables, (t: SnowflakeTable, n: nat) => accepts(ProposalFor(t, env, now(n))), i);
  }

  /** One more table adds its write at the end. */
  lemma ProposalsSnoc(tables: seq<SnowflakeTable>, env: string, now: nat -> string, i: nat)
    requires i < |tables|
    ensures Proposals(tables[..i + 1], env, now) == Proposals(tables[..i], env, now) + [ProposalFor(tables[i], env, now(i))]
  {
    MapIndexedSnoc(tables, (t: SnowflakeTable, n: nat) => ProposalFor(t, env, now(n)), i);
  }

  /** A log holding the writes for the first `i` tables, extended by the
      write for the next one, holds the writes for the first `i + 1`. */
  lemma WritesStep(tables: seq<SnowflakeTable>, env: string, now: nat -> string, i: nat,
                   start: seq<Proposal>, before: seq<Proposal>, after: seq<Proposal>)
    requires i < |tables|
    requires before == start + Proposals(tables[..i], env, now)
    requires after == before + [ProposalFor(tables[i], env, now(i))]
    ensures after == start + Proposals(tables[..i + 1], env, now)
  {
    ProposalsSnoc(tables, env, now, i);
  }

  /** One more table adds one to the success count exactly when the server
      accepts its write. */
  lemma AcceptedSnoc(tables: seq<SnowflakeTable>, env: string, now: nat -> string, accepts: Proposal -> bool, i: nat)
    requires i < |tables|
    ensures CountTrue(Accepted(tables[..i + 1], env, now, accepts))
            == CountTrue(Accepted(tables[..i], env, now, accepts)) + (if accepts(ProposalFor(tables[i], env, now(i))) then 1 else 0)
  {
    var f := (t: SnowflakeTable, n: nat) => accepts(ProposalFor(t, env, now(n)));
    MapIndexedSnoc(tables, f, i);
    var after := Accepted(tables[..i + 1], env, now, accepts);
    assert after[..i] == Accepted(tables[..i], env, now, accepts);
  }

  /** The number of `true` entries. */
  function CountTrue(outcomes: seq<bool>): nat
    decreases |outcomes|
  {
    if outcomes == [] then 0
    else CountTrue(outcomes[..|outcomes| - 1]) + (if outcomes[|outcomes| - 1] then 1 else 0)
  }

  /** The success count never exceeds the number of writes, reaches it exactly
      when every write succeeds, and is zero exactly when every write fails. */
  lemma {:induction false} CountTrueBounds(outcomes: seq<bool>)
    ensures CountTrue(outcomes) <= |outcomes|
    ensures CountTrue(outcomes) == |outcomes| <==> forall i :: 0 <= i < |outcomes| ==> outcomes[i]
    ensures CountTrue(outcomes) == 0 <==> forall i :: 0 <= i < |outcomes| ==> !outcomes[i]
    decreases |outcomes|
  {
    if outcomes != [] {
      var n := |outcomes| - 1;
      var init := outcomes[..n];
      CountTrueBounds(init);
      assert forall i :: 0 <= i < n ==> init[i] == outcomes[i];
    }
  }

  /** The DataHub server as the sync sees it: the writes it has received, in
      order, and whether it accepts a given write (an oracle). */
  class DataHub {
    var received: seq<Proposal>
    const accepts: Proposal -> bool

    constructor (accepts: Proposal -> bool)
      ensures this.accepts == accepts && received == []
    {
      this.accepts := accepts;
      received := [];
    }
  }

  /** The REST emitter bound to one server. Its credentials are not
      modelled. */
  class Emitter {
    const server: DataHub

    constructor (server: DataHub)
      ensures this.server == server
    {
      this.server := server;
    }

    /** `emit_mcp`: sends one write, which the server records; true when the
        server accepted it (a rejected write raises, which the caller turns
        into a failure). */
    method Emit(p: Proposal) returns (ok: bool)
      modifies server
      ensures server.received == old(server.received) + [p]
      ensures ok == server.accepts(p)
    {
      server.received := server.received + [p];
      ok := server.accepts(p);
    }
  }

  /** The syncer for one environment label, holding the emitter it builds for
      the server. */
  class RetentionSyncer {
    const env: string
    const emitter: Emitter

    constructor (env: string, server: DataHub)
      ensures this.env == env && emitter.server == server
    {
      this.env := env;
      emitter := new Emitter(server);
    }

    /** Writes one table's custom properties; true when the write succeeded. */
    method SyncTable(t: SnowflakeTable, timestamp: string) returns (ok: bool)
      modifies emitter.server
      ensures emitter.server.received == old(emitter.server.received) + [ProposalFor(t, env, timestamp)]
      ensures ok == emitter.server.accepts(ProposalFor(t, env, timestamp))
    {
      var datasetName := Lower(t.database + "." + t.schema + "." + t.table);
      var props := map[RetentionPeriodKey := DecimalString(t.retentionDays), SyncTimestampKey := timestamp];
      if t.rowCount.Some? {
        props := props[RowCountKey := DecimalString(t.rowCount.value)];
      }
      if t.bytes.Some? {
        props := props[SizeBytesKey := DecimalString(t.bytes.value)];
      }
      if t.createdOn.Some? && t.createdOn.value != "" {
        props := props[CreatedOnKey := t.createdOn.value];
      }
      assert props == CustomProperties(t, timestamp);
      ok := emitter.Emit(Proposal(datasetName, env, props));
    }

    /** Writes every table once, in order, the `i`-th at clock reading
        `now(i)`, and tallies the outcomes. */
    method SyncAll(tables: seq<SnowflakeTable>, now: nat -> string) returns (stats: map<string, int>)
      modifies emitter.server
      ensures emitter.server.received == old(emitter.server.received) + Proposals(tables, env, now)
      ensures stats.Keys == {SuccessKey, FailedKey}
      ensures stats[SuccessKey] == CountTrue(Accepted(tables, env, now, emitter.server.accepts))
      ensures stats[SuccessKey] + stats[FailedKey] == |tables|
    {
      // the two entries of the stats dict, kept as counters until the loop ends
      var succeeded, failed := 0, 0;
      var server := emitter.server;
      ghost var start := server.received;
      var i := 0;
      while i < |tables|
        invariant 0 <= i <= |tables|
        invariant succeeded == CountTrue(Accepted(tables[..i], env, now, server.accepts))
        invariant succeeded + failed == i
        invariant server.received == start + Proposals(tables[..i], env, now)
      {
        AcceptedSnoc(tables, env, now, server.accepts, i);
        ghost var before := server.received;
        var ok := SyncTable(tables[i], now(i));
        WritesStep(tables, env, now, i, start, before, server.received);
        if ok {
          succeeded := succeeded + 1;
        } else {
          failed := failed + 1;
        }
        i := i + 1;
      }
      assert tables[..i] == tables;
      stats := map[SuccessKey := succeeded, FailedKey := failed];
      assert SuccessKey[0] != FailedKey[0];
    }
  }
}
