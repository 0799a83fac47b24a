/** The command's main flow: required-argument check, allow-list parsing,
    extraction, the retention histogram and its sorted report, the dry-run
    switch and the sync. Argument parsing, the environment and logging are not
    modelled; their results are the `Args` value. */
module RetentionSync {
  import opened Wrappers
  import opened PyText
  import opened SnowflakeTables
  import opened Extractor
  import opened Syncer

  /** The parsed command-line arguments (`None` where neither a flag nor an
      environment variable gave a value). */
  datatype Args = Args(
    snowflakeAccount: Option<string>,
    snowflakeUser: Option<string>,
    snowflakePassword: Option<string>,
    snowflakeRole: Option<string>,
    snowflakeWarehouse: Option<string>,
    datahubUrl: Option<string>,
    datahubToken: Option<string>,
    datahubEnv: string,
    databaseFilter: Option<string>,
    schemaFilter: Option<string>,
    dryRun: bool)

  /** Python truthiness of an optional string argument. */
  predicate Present(arg: Option<string>)
  {
    arg.Some? && arg.value != ""
  }

  /** The five values without which the command exits at once. */
  predicate RequiredPresent(args: Args)
  {
    && Present(args.snowflakeAccount)
    && Present(args.snowflakeUser)
    && Present(args.snowflakePassword)
    && Present(args.datahubUrl)
    && Present(args.datahubToken)
  }

  /** `arg.split(',') if arg else None` */
  function ParseFilter(arg: Option<string>): (r: Option<seq<string>>)
    ensures r.None? <==> !Present(arg)
    ensures r.Some? ==> |r.value| >= 1 && forall k :: 0 <= k < |r.value| ==> ',' !in r.value[k]
    ensures r.Some? ==> Join(r.value, ',') == arg.value
  {
    if Present(arg) then
      JoinSplit(arg.value, ',');
      Some(Split(arg.value, ','))
    else None
  }

  /** A filter written as the names joined by commas allows exactly those
      names. */
  lemma ParseFilterOfJoined(names: seq<string>)
    requires |names| >= 1 && forall k :: 0 <= k < |names| ==> ',' !in names[k]
    requires Join(names, ',') != ""
    ensures ParseFilter(Some(Join(names, ','))) == Some(names)
  {
    SplitJoin(names, ',');
  }

  // ---------------------------------------------------------------------
  // The retention histogram

  /** How many tables have a retention of `days`. */
  function CountRetention(tables: seq<SnowflakeTable>, days: int): nat
    decreases |tables|
  {
    if tables == [] then 0
    else CountRetention(tables[..|tables| - 1], days) + (if tables[|tables| - 1].retentionDays == days then 1 else 0)
  }

  lemma {:induction false} CountRetentionPositiveIff(tables: seq<SnowflakeTable>, days: int)
    ensures CountRetention(tables, days) > 0 <==> exists i :: 0 <= i < |tables| && tables[i].retentionDays == days
    decreases |tables|
  {
    if tables != [] {
      var init := tables[..|tables| - 1];
      CountRetentionPositiveIff(init, days);
      if exists i :: 0 <= i < |init| && init[i].retentionDays == days {
        var i :| 0 <= i < |init| && init[i].retentionDays == days;
        assert tables[i] == init[i];
      }
      if exists i :: 0 <= i < |tables| && tables[i].retentionDays == days {
        var i :| 0 <= i < |tables| && tables[i].retentionDays == days;
        if i < |init| {
          assert init[i] == tables[i];
        }
      }
    }
  }

  /** A Python dict from retention to table count, as its items in insertion
      order. */
  type Summary = seq<(int, nat)>

  /** No retention appears twice among the items. */
  predicate DistinctKeys(summary: Summary)
  {
    forall i, j :: 0 <= i < j < |summary| ==> summary[i].0 != summary[j].0
  }

  /** The sum of the counts. */
  function Total(summary: Summary): nat
    decreases |summary|
  {
    if summary == [] then 0 else summary[0].1 + Total(summary[1..])
  }

  lemma {:induction false} TotalAppend(summary: Summary, item: (int, nat))
    ensures Total(summary + [item]) == Total(summary) + item.1
    decreases |summary|
  {
    if summary != [] {
      assert (summary + [item])[1..] == summary[1..] + [item];
      TotalAppend(summary[1..], item);
    }
  }

  lemma {:induction false} TotalIncrement(summary: Summary, k: nat)
    requires k < |summary|
    ensures Total(summary[k := (summary[k].0, summary[k].1 + 1)]) == Total(summary) + 1
    decreases |summary|
  {
    if k > 0 {
      var updated := summary[k := (summary[k].0, summary[k].1 + 1)];
      assert updated[1..] == summary[1..][k - 1 := (summary[k].0, summary[k].1 + 1)];
      TotalIncrement(summary[1..], k - 1);
    }
  }

  /** Where `days` sits among the items: `|summary|` when it is not a key. */
  function Find(summary: Summary, days: int): (k: nat)
    ensures k <= |summary|
    ensures k < |summary| ==> summary[k].0 == days
    ensures k == |summary| ==> forall j :: 0 <= j < |summary| ==> summary[j].0 != days
    decreases |summary|
  {
    if summary == [] then 0
    else if summary[0].0 == days then 0
    else 1 + Find(summary[1..], days)
  }

  /** `summary` is the histogram of the tables' retentions: distinct keys,
      each with the number of tables that have it, and every retention that
      occurs is a key. */
  ghost predicate IsHistogramOf(summary: Summary, tables: seq<SnowflakeTable>)
  {
    && DistinctKeys(summary)
    && (forall j :: 0 <= j < |summary| ==> summary[j].1 == CountRetention(tables, summary[j].0) > 0)
    && (forall i :: 0 <= i < |tables| ==> exists j :: 0 <= j < |summary| && summary[j].0 == tables[i].retentionDays)
  }

  /** `d[days] = d.get(days, 0) + 1`: an existing item is counted up in
      place, a new one is appended with count one. */
  function Tally(summary: Summary, days: int): (r: Summary)
    ensures Total(r) == Total(summary) + 1
  {
    var k := Find(summary, days);
    if k < |summary| then
      TotalIncrement(summary, k);
      summary[k := (days, summary[k].1 + 1)]
    else
      TotalAppend(summary, (days, 1));
      summary + [(days, 1)]
  }

  /** Tallying one more table keeps the histogram exact. */
  lemma TallyKeepsHistogram(summary: Summary, tables: seq<SnowflakeTable>, i: nat)
    requires i < |tables|
    requires IsHistogramOf(summary, tables[..i])
    ensures IsHistogramOf(Tally(summary, tables[i].retentionDays), tables[..i + 1])
  {
    var days := tables[i].retentionDays;
    var done, next := tables[..i], tables[..i + 1];
    assert next[..i] == done;
    var r := Tally(summary, days);
    var k := Find(summary, days);
    if k == |summary| {
      CountRetentionPositiveIff(done, days);
    }
    assert forall j :: 0 <= j < |summary| ==> r[j].0 == summary[j].0;
    forall m | 0 <= m < |next|
      ensures exists j :: 0 <= j < |r| && r[j].0 == next[m].retentionDays
    {
      if m < i {
        var j :| 0 <= j < |summary| && summary[j].0 == done[m].retentionDays;
        assert r[j].0 == next[m].retentionDays;
      } else {
        assert r[k].0 == next[m].retentionDays;
      }
    }
  }

  /** The `retention_summary` dictionary built in `main`. */
  method RetentionSummary(tables: seq<SnowflakeTable>) returns (summary: Summary)
    ensures IsHistogramOf(summary, tables)
    ensures Total(summary) == |tables|
  {
    summary := [];
    var i := 0;
    while i < |tables|
      invariant 0 <= i <= |tables|
      invariant IsHistogramOf(summary, tables[..i])
      invariant Total(summary) == i
    {
      TallyKeepsHistogram(summary, tables, i);
      summary := Tally(summary, tables[i].retentionDays);
      i := i + 1;
    }
    assert tables[..i] == tables;
  }

  // ---------------------------------------------------------------------
  // The sorted report

  /** The items by strictly ascending retention. */
  predicate Ascending(summary: Summary)
  {
    forall i, j :: 0 <= i < j < |summary| ==> summary[i].0 < summary[j].0
  }

  /** Inserts an item with a new key into items sorted by key. */
  function InsertItem(item: (int, nat), sorted: Summary): (r: Summary)
    requires Ascending(sorted)
    requires forall j :: 0 <= j < |sorted| ==> sorted[j].0 != item.0
    ensures Ascending(r)
    ensures |r| == |sorted| + 1
    ensures forall p :: p in r <==> p == item || p in sorted
    ensures Total(r) == Total(sorted) + item.1
    decreases |sorted|
  {
    if sorted == [] || item.0 < sorted[0].0 then
      assert ([item] + sorted)[1..] == sorted;
      [item] + sorted
    else
      var rest := InsertItem(item, sorted[1..]);
      assert ([sorted[0]] + rest)[1..] == rest;
      assert forall p :: p in sorted <==> p == sorted[0] || p in sorted[1..];
      [sorted[0]] + rest
  }

  /** `sorted(summary.items())`: the same items by ascending retention. */
  function Report(summary: Summary): (r: Summary)
    requires DistinctKeys(summary)
    ensures Ascending(r)
    ensures |r| == |summary|
    ensures forall p :: p in r <==> p in summary
    ensures Total(r) == Total(summary)
    decreases |summary|
  {
    if summary == [] then []
    else
      var rest := Report(summary[1..]);
      forall j | 0 <= j < |rest| ensures rest[j].0 != summary[0].0 {
        assert rest[j] in summary[1..];
      }
      assert forall p :: p in summary <==> p == summary[0] || p in summary[1..];
      InsertItem(summary[0], rest)
  }

  /** `report` lists every retention that occurs among the tables, once
      each, in ascending order, with the number of tables that have it; the
      counts add up to the number of tables. */
  ghost predicate IsRetentionReport(report: Summary, tables: seq<SnowflakeTable>)
  {
    && Ascending(report)
    && (forall i :: 0 <= i < |report| ==> report[i].1 == CountRetention(tables, report[i].0) > 0)
    && (forall i :: 0 <= i < |tables| ==>
          exists j :: 0 <= j < |report| && report[j].0 == tables[i].retentionDays)
    && Total(report) == |tables|
  }

  /** The report lists every retention that occurs, once each, in ascending
      order, with the number of tables that have it; the counts add up to the
      number of tables. */
  lemma ReportOfHistogram(summary: Summary, tables: seq<SnowflakeTable>)
    requires IsHistogramOf(summary, tables)
    requires Total(summary) == |tables|
    ensures IsRetentionReport(Report(summary), tables)
  {
    var report := Report(summary);
    forall i | 0 <= i < |report|
      ensures report[i].1 == CountRetention(tables, report[i].0) > 0
    {
      assert report[i] in summary;
    }
    forall i | 0 <= i < |tables|
      ensures exists j :: 0 <= j < |report| && report[j].0 == tables[i].retentionDays
    {
      var j :| 0 <= j < |summary| && summary[j].0 == tables[i].retentionDays;
      assert summary[j] in report;
    }
  }

  // ---------------------------------------------------------------------
  // The run

  /** How a run ends. */
  datatype Exit =
    | MissingArguments
    | Fatal
    | NoTables
    | DryRun(report: Summary)
    | Synced(report: Summary, stats: map<string, int>)

  /** The process exit status. */
  function ExitCode(exit: Exit): int
  {
    if exit.MissingArguments? || exit.Fatal? then 1 else 0
  }

  /** What the extraction collects for these arguments. */
  function ExtractionFor(args: Args, w: Warehouse): Fallible<seq<SnowflakeTable>>
  {
    Extraction(w, AllowList(ParseFilter(args.databaseFilter)), AllowList(ParseFilter(args.schemaFilter)))
  }

  /** One run of the command. `connects` is whether the warehouse connection
      opens, `w` the warehouse's answers, `now(i)` the clock reading at the
      `i`-th table write and `hub` the DataHub server the writes go to. */
  method Run(args: Args, connects: bool, w: Warehouse, now: nat -> string, hub: DataHub) returns (exit: Exit)
    modifies hub
    ensures exit.MissingArguments? <==> !RequiredPresent(args)
    ensures exit.Fatal? <==> RequiredPresent(args) && (!connects || ExtractionFor(args, w).Aborted?)
    ensures exit.NoTables? <==> RequiredPresent(args) && connects && ExtractionFor(args, w) == Completed([])
    ensures exit.DryRun? <==>
              RequiredPresent(args) && connects && args.dryRun
              && ExtractionFor(args, w).Completed? && ExtractionFor(args, w).value != []
    ensures ExitCode(exit) == 1 <==>
              !RequiredPresent(args) || !connects || ExtractionFor(args, w).Aborted?
    ensures exit.DryRun? || exit.Synced? ==> IsRetentionReport(exit.report, ExtractionFor(args, w).value)
    // only a run that syncs writes anything, and it writes each table once, in order
    ensures !exit.Synced? ==> hub.received == old(hub.received)
    ensures exit.Synced? ==>
              var tables := ExtractionFor(args, w).value;
              && hub.received == old(hub.received) + Proposals(tables, args.datahubEnv, now)
              && exit.stats.Keys == {SuccessKey, FailedKey}
              && exit.stats[SuccessKey] == CountTrue(Accepted(tables, args.datahubEnv, now, hub.accepts))
              && exit.stats[SuccessKey] + exit.stats[FailedKey] == |tables|
  {
    if !RequiredPresent(args) {
      return MissingArguments;
    }
    var databaseFilter := ParseFilter(args.databaseFilter);
    var schemaFilter := ParseFilter(args.schemaFilter);
    var extractor := new RetentionExtractor(databaseFilter, schemaFilter);
    if !connects {
      return Fatal;
    }
    var extracted := extractor.ExtractAllRetentionData(w);
    if extracted.Aborted? {
      return Fatal;
    }
    var tables := extracted.value;
    if tables == [] {
      return NoTables;
    }
    var summary := RetentionSummary(tables);
    var report := Report(summary);
    ReportOfHistogram(summary, tables);
    if args.dryRun {
      return DryRun(report);
    }
    var syncer := new RetentionSyncer(args.datahubEnv, hub);
    var stats := syncer.SyncAll(tables, now);
    exit := Synced(report, stats);
  }
}
