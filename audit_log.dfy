/**
 * The per-row flow of the audit transform: splitting the exported value
 * strings, the 55-entry width check that quarantines malformed rows,
 * condensing, and the two export tables `build_trail` and `build_meta`
 * append to.
 */
module AuditLog {
  import opened Results
  import opened PyText
  import Headers
  import Tokenizer
  import Condenser
  import Trail
  import Meta
  import SeqFacts

  /** One exported T_ORDER audit record: its first four columns and the two value strings. */
  datatype RawRecord = RawRecord(
    timestamp: string, user: string, table: string, action: string,
    oldValues: string, newValues: string)

  /** A record after `custom_split` of both value strings (`LIST_OLD`, `LIST_NEW`). */
  datatype Parsed = Parsed(record: RawRecord, listOld: seq<string>, listNew: seq<string>)

  /** A row of the working table: the record, its two lists and its `ORDER_NUMBER`. */
  datatype Row = Row(record: RawRecord, listOld: seq<string>, listNew: seq<string>, orderNumber: string)

  /** One row of the trail table: order number, date, activity. */
  datatype TrailEntry = TrailEntry(orderNum: string, date: string, activity: string)

  /** Line 38: only the records of the T_ORDER table are kept, in order. */
  function OrderTableRecords(records: seq<RawRecord>): (r: seq<RawRecord>)
    ensures forall x :: x in r <==> x in records && x.table == "T_ORDER"
  {
    if |records| == 0 then []
    else
      var rest := OrderTableRecords(records[1..]);
      assert records == [records[0]] + records[1..];
      if records[0].table == "T_ORDER" then [records[0]] + rest else rest
  }

  /** Lines 184-185: both value strings split on the column labels. */
  function SplitRecord(rec: RawRecord): (p: Parsed)
    ensures p.record == rec
    ensures |p.listNew| > 0 <==> ':' in rec.newValues
  {
    Parsed(rec, Tokenizer.Split(Headers.HeaderList, rec.oldValues), Tokenizer.Split(Headers.HeaderList, rec.newValues))
  }

  // ---------------------------------------------------------------------
  // Width validation (lines 199-219)

  /** `extract_length` of both lists is 55. */
  predicate WidthOk(p: Parsed)
  {
    |p.listOld| == Headers.Width && |p.listNew| == Headers.Width
  }

  /** The records of `ps` that `keep` accepts, in order. */
  function Filter(ps: seq<Parsed>, keep: bool): (r: seq<Parsed>)
    ensures forall q :: q in r ==> q in ps && WidthOk(q) == keep
  {
    if |ps| == 0 then []
    else if WidthOk(ps[0]) == keep then [ps[0]] + Filter(ps[1..], keep)
    else Filter(ps[1..], keep)
  }

  /** The working rows that survive: both lists exactly 55 entries. */
  function Survivors(ps: seq<Parsed>): seq<Parsed>
  {
    Filter(ps, true)
  }

  /** Every survivor passed the width check. */
  lemma SurvivorsWide(ps: seq<Parsed>)
    ensures forall i :: 0 <= i < |Survivors(ps)| ==> WidthOk(Survivors(ps)[i])
  {
    forall i | 0 <= i < |Survivors(ps)|
      ensures WidthOk(Survivors(ps)[i])
    {
      assert Survivors(ps)[i] in Survivors(ps);
    }
  }

  /** `dataFailures`: the rows where either list is not 55 entries. */
  function DataFailures(ps: seq<Parsed>): seq<Parsed>
  {
    Filter(ps, false)
  }

  /**
   * Validation partitions the rows: each row is a survivor exactly when
   * both its lists have 55 entries and a failure otherwise, and together
   * the two hold every row once.
   */
  lemma {:induction false} ValidationPartitions(ps: seq<Parsed>)
    ensures multiset(Survivors(ps)) + multiset(DataFailures(ps)) == multiset(ps)
    ensures forall q :: q in ps ==> (q in Survivors(ps) <==> WidthOk(q))
    ensures forall q :: q in ps ==> (q in DataFailures(ps) <==> !WidthOk(q))
  {
    if |ps| > 0 {
      ValidationPartitions(ps[1..]);
      assert ps == [ps[0]] + ps[1..];
    }
  }

  // ---------------------------------------------------------------------
  // Order numbers, as written and corrected

  /**
   * Lines 191-196 as written: the order number of every split record is
   * read before the width check. A record whose new list is empty raises an
   * `IndexError` nothing catches, and the whole run stops: `None`.
   */
  function ReadOrderNumbers(ps: seq<Parsed>): (r: Option<seq<Row>>)
    ensures r.Some? <==> forall i :: 0 <= i < |ps| ==> |ps[i].listNew| > 0
    ensures r.Some? ==> |r.value| == |ps|
    ensures r.Some? ==> forall i :: 0 <= i < |ps| ==>
              r.value[i] == Row(ps[i].record, ps[i].listOld, ps[i].listNew, Meta.FieldValue(ps[i].listNew[0]))
  {
    if |ps| == 0 then Some([])
    else
      match Meta.ExtractOrderNumber(ps[0].listNew)
      case None => None
      case Some(num) =>
        match ReadOrderNumbers(ps[1..])
        case None => None
        case Some(rest) => Some([Row(ps[0].record, ps[0].listOld, ps[0].listNew, num)] + rest)
  }

  /** The rows as a record, without their order numbers, for comparing the two orders of work. */
  function Unread(rows: seq<Row>): seq<Parsed>
  {
    seq(|rows|, i requires 0 <= i < |rows| => Parsed(rows[i].record, rows[i].listOld, rows[i].listNew))
  }

  /** A split record with its order number read from its new list. */
  function RowOf(p: Parsed): (r: Row)
    requires |p.listNew| > 0
    ensures Some(r.orderNumber) == Meta.ExtractOrderNumber(p.listNew)
  {
    Row(p.record, p.listOld, p.listNew, Meta.FieldValue(p.listNew[0]))
  }

  /**
   * The order numbers of validated rows: a 55-entry list is never empty,
   * so reading them cannot fail, and the rows keep their records and lists.
   */
  function AttachOrderNumbers(ps: seq<Parsed>): (rows: seq<Row>)
    requires forall i :: 0 <= i < |ps| ==> WidthOk(ps[i])
    ensures |rows| == |ps| && Unread(rows) == ps
    ensures forall i :: 0 <= i < |ps| ==> Some(rows[i].orderNumber) == Meta.ExtractOrderNumber(ps[i].listNew)
  {
    var rows := seq(|ps|, i requires 0 <= i < |ps| => assert WidthOk(ps[i]); RowOf(ps[i]));
    assert Unread(rows) == ps by {
      forall i | 0 <= i < |ps|
        ensures Unread(rows)[i] == ps[i]
      {
      }
    }
    rows
  }

  /** Rows whose records all passed the width check are validated. */
  lemma WideRows(rows: seq<Row>)
    requires forall i :: 0 <= i < |rows| ==> WidthOk(Unread(rows)[i])
    ensures Validated(rows)
  {
    forall i | 0 <= i < |rows|
      ensures |rows[i].listOld| == Headers.Width && |rows[i].listNew| == Headers.Width
    {
      assert WidthOk(Unread(rows)[i]);
    }
  }

  /** The split records of a batch, in order. */
  function SplitAll(records: seq<RawRecord>): seq<Parsed>
  {
    seq(|records|, i requires 0 <= i < |records| => SplitRecord(records[i]))
  }

  /** What the batch leaves: the working rows and the quarantined ones. */
  datatype Batch = Batch(rows: seq<Row>, failures: seq<Parsed>)

  /** The batch as written: order numbers first, then the width check. */
  function BatchAsWritten(records: seq<RawRecord>): Option<Batch>
  {
    var ps := SplitAll(records);
    match ReadOrderNumbers(ps)
    case None => None
    case Some(all) =>
      var kept := Survivors(Unread(all));
      Some(Batch(AttachOrderNumbers(kept), DataFailures(Unread(all))))
  }

  /** The batch as intended: the width check first, then order numbers for the rows kept. */
  function BatchCorrected(records: seq<RawRecord>): (b: Batch)
    ensures Validated(b.rows)
  {
    var ps := SplitAll(records);
    SurvivorsWide(ps);
    var rows := AttachOrderNumbers(Survivors(ps));
    WideRows(rows);
    Batch(rows, DataFailures(ps))
  }

  /**
   * The corrected batch never stops: every record is either a working row
   * (both lists 55 entries, with its order number) or quarantined, and
   * nothing is lost.
   */
  lemma BatchCorrectedTotal(records: seq<RawRecord>)
    ensures var b := BatchCorrected(records);
            multiset(Unread(b.rows)) + multiset(b.failures) == multiset(SplitAll(records))
  {
    ValidationPartitions(SplitAll(records));
  }

  /**
   * As written, the batch stops exactly when some record's new value string
   * holds no ':'; otherwise it agrees with the corrected batch.
   */
  lemma BatchAsWrittenStops(records: seq<RawRecord>)
    ensures BatchAsWritten(records).None? <==> exists i :: 0 <= i < |records| && ':' !in records[i].newValues
    ensures BatchAsWritten(records).Some? ==> BatchAsWritten(records).value == BatchCorrected(records)
  {
    var ps := SplitAll(records);
    assert |ps| == |records|;
    forall i | 0 <= i < |records|
      ensures |ps[i].listNew| > 0 <==> ':' in records[i].newValues
    {
      assert ps[i] == SplitRecord(records[i]);
    }
    var r := ReadOrderNumbers(ps);
    if r.Some? {
      UnreadRead(ps);
    }
  }

  /** Reading order numbers keeps the records and lists as they were. */
  lemma {:induction false} UnreadRead(ps: seq<Parsed>)
    requires ReadOrderNumbers(ps).Some?
    ensures Unread(ReadOrderNumbers(ps).value) == ps
  {
    if |ps| > 0 {
      UnreadRead(ps[1..]);
      var rows := ReadOrderNumbers(ps).value;
      assert Unread(rows) == [ps[0]] + Unread(rows[1..]);
      assert ps == [ps[0]] + ps[1..];
    }
  }

  /**
   * A record whose new values hold no label stops the batch as written,
   * while the corrected batch quarantines it.
   */
  lemma NoLabelStopsBatch(rec: RawRecord)
    requires ':' !in rec.newValues
    ensures BatchAsWritten([rec]).None?
    ensures BatchCorrected([rec]) == Batch([], [SplitRecord(rec)])
  {
    BatchAsWrittenStops([rec]);
    var p := SplitRecord(rec);
    assert SplitAll([rec]) == [p];
    assert !WidthOk(p);
    assert [p][1..] == [] && [p][0] == p;
    assert Filter([], true) == [] && Filter([], false) == [];
    assert Filter([p], true) == Filter([], true);
    assert Survivors([p]) == [] && DataFailures([p]) == [p];
  }

  /** For instance a deleted order's record, exported with "N/A" for its new values. */
  lemma DeletedOrderStopsBatch()
    ensures var rec := RawRecord("26-MAY-23", "USER", "T_ORDER", "DELETE", "", "N/A");
            BatchAsWritten([rec]).None? && BatchCorrected([rec]).failures == [SplitRecord(rec)]
  {
    var rec := RawRecord("26-MAY-23", "USER", "T_ORDER", "DELETE", "", "N/A");
    assert ':' !in rec.newValues;
    NoLabelStopsBatch(rec);
  }

  // ---------------------------------------------------------------------
  // Condensing the working rows (lines 289-290)

  /** A row with both lists condensed. */
  function CondensedRow(row: Row): Row
    requires |row.listOld| > 45 && |row.listNew| > 45
  {
    row.(listOld := Condenser.Condensed(row.listOld), listNew := Condenser.Condensed(row.listNew))
  }

  /** Both lists of a validated row condensed from 55 to 43 entries; record and order number kept. */
  method CondenseRow(row: Row) returns (c: Row)
    requires |row.listOld| == Headers.Width && |row.listNew| == Headers.Width
    ensures c == CondensedRow(row)
    ensures c.record == row.record && c.orderNumber == row.orderNumber
    ensures |c.listOld| == 43 && |c.listNew| == 43
  {
    var listOld := Condenser.ReformatList(row.listOld);
    var listNew := Condenser.ReformatList(row.listNew);
    c := row.(listOld := listOld, listNew := listNew);
  }

  /** Rows whose two lists both have the 55 entries of the export's columns. */
  predicate Validated(rows: seq<Row>)
  {
    forall i :: 0 <= i < |rows| ==> |rows[i].listOld| == Headers.Width && |rows[i].listNew| == Headers.Width
  }

  /** Every row condensed, in order. */
  function CondensedAll(rows: seq<Row>): (cs: seq<Row>)
    requires Validated(rows)
  {
    seq(|rows|, i requires 0 <= i < |rows| => CondensedRow(rows[i]))
  }

  /** Lines 289-290 over the working table: every row condensed, in order. */
  method CondenseRows(rows: seq<Row>) returns (cs: seq<Row>)
    requires Validated(rows)
    ensures |cs| == |rows|
    ensures forall i :: 0 <= i < |rows| ==> cs[i] == CondensedRow(rows[i])
    ensures cs == CondensedAll(rows)
  {
    cs := [];
    var i := 0;
    while i < |rows|
      invariant 0 <= i <= |rows| && |cs| == i
      invariant forall j :: 0 <= j < i ==> cs[j] == CondensedRow(rows[j])
    {
      var c := CondenseRow(rows[i]);
      cs := cs + [c];
      i := i + 1;
    }
  }

  /**
   * A validated row never meets the `IndexError` of `build_trail`: after
   * condensing, both lists have 43 entries and every new entry holds a ':',
   * so the comparison runs to its end.
   */
  lemma ValidatedTrailCompletes(rec: RawRecord)
    requires WidthOk(SplitRecord(rec))
    ensures var p := SplitRecord(rec);
            Trail.Trail(Condenser.Condensed(p.listOld), Condenser.Condensed(p.listNew)).completed
  {
    var p := SplitRecord(rec);
    Condenser.CondensedKeepsLabels(p.listNew);
    Trail.TrailCompletes(Condenser.Condensed(p.listOld), Condenser.Condensed(p.listNew));
  }

  /** The trail entries for the changes logged on one row: its order number, its timestamp, each activity. */
  function EntriesFor(row: Row, cs: seq<Trail.Change>): seq<TrailEntry>
  {
    seq(|cs|, k requires 0 <= k < |cs| => TrailEntry(row.orderNumber, row.record.timestamp, cs[k].activity))
  }

  /** The trail entries `build_trail` appends for one row. */
  function RowEntries(row: Row): seq<TrailEntry>
  {
    EntriesFor(row, Trail.Trail(row.listOld, row.listNew).changes)
  }

  /**
   * Every trail entry of a row carries the row's order number and
   * timestamp, and the activity of a justified change: a compared position
   * whose stripped entries differ.
   */
  lemma RowEntriesSound(row: Row)
    ensures forall k :: 0 <= k < |RowEntries(row)| ==>
              && RowEntries(row)[k].orderNum == row.orderNumber
              && RowEntries(row)[k].date == row.record.timestamp
              && exists c :: Trail.Justified(row.listOld, row.listNew, c) && c.activity == RowEntries(row)[k].activity
  {
    var o, n := row.listOld, row.listNew;
    var t := Trail.Trail(o, n);
    Trail.TrailSound(o, n);
    assert forall k :: 0 <= k < |t.changes| ==> Trail.Justified(o, n, t.changes[k]);
    forall k | 0 <= k < |RowEntries(row)|
      ensures && RowEntries(row)[k].orderNum == row.orderNumber
              && RowEntries(row)[k].date == row.record.timestamp
              && exists c :: Trail.Justified(o, n, c) && c.activity == RowEntries(row)[k].activity
    {
      EntryAt(row, t.changes, k);
      var c := t.changes[k];
      assert Trail.Justified(o, n, c);
    }
  }

  /** A logged change has its entry. */
  lemma LoggedEntry(row: Row, cs: seq<Trail.Change>, c: Trail.Change)
    requires c in cs
    ensures TrailEntry(row.orderNumber, row.record.timestamp, c.activity) in EntriesFor(row, cs)
  {
    var k :| 0 <= k < |cs| && cs[k] == c;
    EntryAt(row, cs, k);
  }

  /** The entry for the `k`th logged change. */
  lemma EntryAt(row: Row, cs: seq<Trail.Change>, k: nat)
    requires k < |cs|
    ensures |EntriesFor(row, cs)| == |cs|
    ensures EntriesFor(row, cs)[k] == TrailEntry(row.orderNumber, row.record.timestamp, cs[k].activity)
  {
  }

  /**
   * With the order number unchanged and no exception, the trail table gets
   * an entry for every differing compared position of the row.
   */
  lemma RowEntriesComplete(row: Row, j: nat)
    requires 0 < |row.listNew| && 0 < j < |row.listOld| && j < |row.listNew|
    requires j !in Trail.IndexSkipList && Trail.Differs(row.listOld, row.listNew, j)
    requires !Trail.Differs(row.listOld, row.listNew, 0) && Trail.Trail(row.listOld, row.listNew).completed
    ensures |Strip(row.listNew[j])| > 0 || j == Trail.StatusPos
    ensures TrailEntry(row.orderNumber, row.record.timestamp, Trail.ActivityAt(row.listOld, row.listNew, j)) in RowEntries(row)
  {
    Trail.TrailComplete(row.listOld, row.listNew, j);
    LoggedEntry(row, Trail.Trail(row.listOld, row.listNew).changes, Trail.Change(j, Trail.ActivityAt(row.listOld, row.listNew, j)));
  }

  /** The trail entries of a sequence of rows, row after row. */
  function AllEntries(rows: seq<Row>): seq<TrailEntry>
  {
    if |rows| == 0 then []
    else AllEntries(rows[..|rows| - 1]) + RowEntries(rows[|rows| - 1])
  }

  /** The entries of one more row follow those of the rows before it. */
  lemma AllEntriesPrefix(rows: seq<Row>, i: nat)
    requires i < |rows|
    ensures AllEntries(rows[..i + 1]) == AllEntries(rows[..i]) + RowEntries(rows[i])
  {
    SeqFacts.PrefixSnoc(rows, i);
  }

  /** The metadata records of a sequence of rows, skipping the rows `build_meta` drops. */
  function AllMeta(rows: seq<Row>): seq<Meta.MetaRecord>
  {
    if |rows| == 0 then []
    else AllMeta(rows[..|rows| - 1]) + MetaOf(rows[|rows| - 1])
  }

  /** The record `build_meta` appends for a row, if any. */
  function MetaOf(row: Row): seq<Meta.MetaRecord>
  {
    match Meta.MetaFor(row.listNew)
    case None => []
    case Some(m) => [m]
  }

  /** The record of one more row, if any, follows those of the rows before it. */
  lemma AllMetaPrefix(rows: seq<Row>, i: nat)
    requires i < |rows|
    ensures AllMeta(rows[..i + 1]) == AllMeta(rows[..i]) + MetaOf(rows[i])
  {
    SeqFacts.PrefixSnoc(rows, i);
  }

  /** The trail table (`exportTRAIL`) `build_trail` appends to. */
  class TrailTable {
    var entries: seq<TrailEntry>

    /** The table starts empty. */
    constructor ()
      ensures entries == []
    {
      entries := [];
    }

    /** The `loc[len(exportTRAIL)] = [...]` of `build_trail`: one entry at the end of the table. */
    method LogChange(row: Row, c: Trail.Change)
      modifies this
      ensures entries == old(entries) + [TrailEntry(row.orderNumber, row.record.timestamp, c.activity)]
    {
      entries := entries + [TrailEntry(row.orderNumber, row.record.timestamp, c.activity)];
    }

    /**
     * `build_trail`: compare the row's lists position by position and
     * append one entry per change, as `Trail.Trail` says; an exception ends
     * the comparison early (`completed` is false) and keeps what was
     * appended.
     */
    method BuildTrail(row: Row) returns (completed: bool)
      modifies this
      ensures entries == old(entries) + RowEntries(row)
      ensures completed == Trail.Trail(row.listOld, row.listNew).completed
    {
      ghost var emitted: seq<Trail.Change> := [];
      var index: nat := 0;
      ResumesAtStart(row);
      while index < |row.listOld|
        invariant entries == old(entries) + EntriesFor(row, emitted)
        invariant Resumes(row, emitted, index)
        decreases |row.listOld| - index
      {
        var goOn, ok;
        goOn, ok, emitted := TakeTurn(row, index, emitted, old(entries));
        if !goOn {
          return ok;
        }
        index := index + 1;
      }
      RunsOut(row, emitted, index);
      return true;
    }

    /**
     * The body of the `for` loop of `build_trail` at `index`: compare, log
     * the change found, if any, and say whether the loop goes on (`continue`
     * or a logged field) or ends (the `break` after "Order Created", or an
     * exception, which leaves `completed` false).
     */
    method TakeTurn(row: Row, index: nat, ghost emitted: seq<Trail.Change>, ghost base: seq<TrailEntry>)
      returns (goOn: bool, completed: bool, ghost logged: seq<Trail.Change>)
      requires entries == base + EntriesFor(row, emitted)
      requires index < |row.listOld| && Resumes(row, emitted, index)
      modifies this
      ensures entries == base + EntriesFor(row, logged)
      ensures goOn ==> Resumes(row, logged, index + 1)
      ensures !goOn ==> RowEntries(row) == EntriesFor(row, logged) && completed == Trail.Trail(row.listOld, row.listNew).completed
    {
      var step := CompareAt(row.listOld, row.listNew, index);
      Turn(row, emitted, index);
      match step
      case Pass =>
        goOn, completed, logged := true, true, emitted;
      case Raise =>
        goOn, completed, logged := false, false, emitted;
      case Stop(c) =>
        LogChange(row, c);
        EntriesSnoc(row, emitted, c);
        SeqFacts.AppendAssoc(base, EntriesFor(row, emitted), [TrailEntry(row.orderNumber, row.record.timestamp, c.activity)]);
        goOn, completed, logged := false, true, emitted + [c];
      case Log(c) =>
        LogChange(row, c);
        EntriesSnoc(row, emitted, c);
        SeqFacts.AppendAssoc(base, EntriesFor(row, emitted), [TrailEntry(row.orderNumber, row.record.timestamp, c.activity)]);
        goOn, completed, logged := true, true, emitted + [c];
    }

    /** `df.apply(build_trail, axis = 1)`: each row's entries, row after row. */
    method ApplyBuildTrail(rows: seq<Row>)
      modifies this
      ensures entries == old(entries) + AllEntries(rows)
    {
      var i := 0;
      while i < |rows|
        invariant 0 <= i <= |rows|
        invariant entries == old(entries) + AllEntries(rows[..i])
      {
        var _ := BuildTrail(rows[i]);
        AllEntriesPrefix(rows, i);
        SeqFacts.AppendAssoc(old(entries), AllEntries(rows[..i]), RowEntries(rows[i]));
        i := i + 1;
      }
      SeqFacts.WholePrefix(rows);
    }
  }

  /** The metadata table (`exportMETA`) `build_meta` appends to. */
  class MetaTable {
    var records: seq<Meta.MetaRecord>

    /** The table starts empty. */
    constructor ()
      ensures records == []
    {
      records := [];
    }

    /**
     * `build_meta`: the metadata record of the row's new list appended, or,
     * when a position is missing or the warehouse id is not in `hubDict`,
     * nothing (the exception is printed and the row skipped).
     */
    method BuildMeta(row: Row) returns (appended: bool)
      modifies this
      ensures records == old(records) + MetaOf(row)
      ensures appended <==> |row.listNew| > Meta.IwrsOrderPos && Meta.FieldValue(row.listNew[Meta.WarehouseIdPos]) in Meta.HubDict
    {
      var r := Meta.MetaFor(row.listNew);
      match r
      case None =>
        appended := false;
      case Some(m) =>
        records := records + [m];
        appended := true;
    }

    /** `df.apply(build_meta, axis = 1)`: each row's record, if any, row after row. */
    method ApplyBuildMeta(rows: seq<Row>)
      modifies this
      ensures records == old(records) + AllMeta(rows)
    {
      var i := 0;
      while i < |rows|
        invariant 0 <= i <= |rows|
        invariant records == old(records) + AllMeta(rows[..i])
      {
        var _ := BuildMeta(rows[i]);
        AllMetaPrefix(rows, i);
        SeqFacts.AppendAssoc(old(records), AllMeta(rows[..i]), MetaOf(rows[i]));
        i := i + 1;
      }
      SeqFacts.WholePrefix(rows);
    }
  }

  /**
   * How `build_trail` ends: when the changes logged so far followed by the
   * rest of the run make up the row's trail, the row's entries are those of
   * all these changes.
   */
  lemma TrailEnds(row: Row, emitted: seq<Trail.Change>, rest: Trail.TrailRun)
    requires Trail.Then(emitted, rest) == Trail.Run(Trail.Steps(row.listOld, row.listNew), 0)
    ensures RowEntries(row) == EntriesFor(row, emitted + rest.changes)
    ensures rest.changes == [] ==> RowEntries(row) == EntriesFor(row, emitted)
    ensures rest.completed == Trail.Trail(row.listOld, row.listNew).completed
  {
    assert emitted + [] == emitted;
  }

  /**
   * Where the loop of `build_trail` stands before position `index`: the
   * changes logged so far, followed by what the loop logs from `index` on,
   * make up the row's trail.
   */
  ghost predicate Resumes(row: Row, emitted: seq<Trail.Change>, index: nat)
  {
    && index <= |row.listOld|
    && Trail.Then(emitted, Trail.Run(Trail.Steps(row.listOld, row.listNew), index)) == Trail.Trail(row.listOld, row.listNew)
  }

  /** Before the first position nothing is logged yet. */
  lemma ResumesAtStart(row: Row)
    ensures Resumes(row, [], 0)
  {
    assert [] + Trail.Trail(row.listOld, row.listNew).changes == Trail.Trail(row.listOld, row.listNew).changes;
  }

  /** After the last position the loop has logged the whole trail, and it completed. */
  lemma RunsOut(row: Row, emitted: seq<Trail.Change>, index: nat)
    requires Resumes(row, emitted, index) && index >= |row.listOld|
    ensures RowEntries(row) == EntriesFor(row, emitted)
    ensures Trail.Trail(row.listOld, row.listNew).completed
  {
    TrailEnds(row, emitted, Trail.Run(Trail.Steps(row.listOld, row.listNew), index));
  }

  /**
   * One turn of the loop of `build_trail` at `index`: a pass or a logged
   * change leaves the loop resuming one position on, a raise ends an
   * incomplete trail and a stop a complete one, with the row's entries
   * those of the changes logged.
   */
  lemma Turn(row: Row, emitted: seq<Trail.Change>, index: nat)
    requires index < |row.listOld| && Resumes(row, emitted, index)
    ensures var steps := Trail.Steps(row.listOld, row.listNew);
            var t := Trail.Trail(row.listOld, row.listNew);
            match steps[index]
            case Pass => Resumes(row, emitted, index + 1)
            case Raise => !t.completed && RowEntries(row) == EntriesFor(row, emitted)
            case Stop(c) => t.completed && RowEntries(row) == EntriesFor(row, emitted + [c])
            case Log(c) => Resumes(row, emitted + [c], index + 1)
  {
    var steps := Trail.Steps(row.listOld, row.listNew);
    Trail.RunUnfold(steps, index);
    match steps[index]
    case Pass =>
    case Raise =>
      TrailEnds(row, emitted, Trail.Run(steps, index));
    case Stop(c) =>
      TrailEnds(row, emitted, Trail.Run(steps, index));
    case Log(c) =>
      Trail.ThenThen(emitted, c, Trail.Run(steps, index + 1));
  }

  /** One more change, one more entry at the end. */
  lemma EntriesSnoc(row: Row, cs: seq<Trail.Change>, c: Trail.Change)
    ensures EntriesFor(row, cs + [c]) == EntriesFor(row, cs) + [TrailEntry(row.orderNumber, row.record.timestamp, c.activity)]
  {
  }

  /**
   * The body of the loop of `build_trail` at one position (lines 308-330):
   * skip, raise, or the change logged, with its activity text.
   */
  method CompareAt(o: seq<string>, n: seq<string>, index: nat) returns (step: Trail.Step)
    requires index < |o|
    ensures step == Trail.Steps(o, n)[index]
  {
    Trail.StepsAt(o, n, index);
    if index in Trail.IndexSkipList {
      return Trail.Pass;
    }
    if index >= |n| {
      // IndexError on new_val, caught
      return Trail.Raise;
    }
    var oldVal := Strip(o[index]);
    var newVal := Strip(n[index]);
    if oldVal == newVal {
      return Trail.Pass;
    }
    step := LogDifference(index, oldVal, newVal);
  }

  /** The turn at a compared position whose stripped entries differ (lines 316-330). */
  method LogDifference(index: nat, oldVal: string, newVal: string) returns (step: Trail.Step)
    ensures index == Meta.OrderNumberPos ==> step == Trail.Stop(Trail.Change(index, "Order Created"))
    ensures index == Trail.StatusPos ==> step == Trail.Log(Trail.Change(index, Trail.StatusActivity(newVal)))
    ensures index != Meta.OrderNumberPos && index != Trail.StatusPos ==>
              if |newVal| == 0 then step == Trail.Raise
              else step == Trail.Log(Trail.Change(index, Trail.FieldActivity(oldVal, newVal)))
  {
    if index == Meta.OrderNumberPos {
      return Trail.Stop(Trail.Change(index, "Order Created"));
    } else if index == Trail.StatusPos {
      var activity := "Order status -" + Slice(newVal, Find(newVal, ':') + 1, |newVal|);
      return Trail.Log(Trail.Change(index, activity));
    }
    if |newVal| == 0 {
      // IndexError on new_val[0], caught
      return Trail.Raise;
    }
    var activityHeader := [newVal[0]] + Lower(Slice(newVal, 1, Find(newVal, ':')));
    if Slice(oldVal, Find(oldVal, ':') + 1, |oldVal|) == "" {
      activityHeader := activityHeader + " added to order";
    } else {
      activityHeader := activityHeader + " updated/changed";
    }
    return Trail.Log(Trail.Change(index, activityHeader));
  }

  // ---------------------------------------------------------------------
  // Which columns the condensed positions hold

  /**
   * The positions `build_trail` treats specially hold, after condensing,
   * the columns it means: 0 the order number, 30 the status, and the
   * skipped 1, 2, 15, 16 the actual delivery and ship dates, the order
   * confirm date and the order's creating user (`Headers.Names`).
   */
  lemma TrailColumns(d: seq<string>)
    requires |d| == 55
    ensures var c := Condenser.Condensed(d);
            c[Meta.OrderNumberPos] == d[0] && c[Trail.StatusPos] == d[46]
            && c[Trail.IndexSkipList[0]] == d[1] && c[Trail.IndexSkipList[1]] == d[2]
            && c[Trail.IndexSkipList[2]] == d[23] && c[Trail.IndexSkipList[3]] == d[24]
  {
    Condenser.CondensedAt(d, 0);
    Condenser.CondensedAt(d, 1);
    Condenser.CondensedAt(d, 2);
    Condenser.CondensedAt(d, 15);
    Condenser.CondensedAt(d, 16);
    Condenser.CondensedAt(d, 30);
  }

  /**
   * The dates, codes and flags `build_meta` reads sit, after condensing,
   * at the columns of their names (`Headers.Names`).
   */
  lemma MetaColumns(d: seq<string>)
    requires |d| == 55
    ensures var c := Condenser.Condensed(d);
            c[Meta.OrderNumberPos] == d[0] && c[Meta.ActualDeliveryDatePos] == d[1]
            && c[Meta.ActualShipDatePos] == d[2] && c[Meta.DeliveryCountryCodePos] == d[11]
            && c[Meta.DestinationAddrTypePos] == d[17] && c[Meta.DrugFlagPos] == d[19]
            && c[Meta.OrderDatePos] == d[25] && c[Meta.PriorityPos] == d[27]
            && c[Meta.RequestedDeliveryDatePos] == d[32] && c[Meta.ShipmentAddrTypePos] == d[35]
            && c[Meta.ShipToCountryCodePos] == d[41] && c[Meta.TypeIdPos] == d[48]
            && c[Meta.WarehouseIdPos] == d[49] && c[Meta.IwrsOrderPos] == d[52]
  {
    Condenser.CondensedAt(d, 0);
    Condenser.CondensedAt(d, 1);
    Condenser.CondensedAt(d, 2);
    Condenser.CondensedAt(d, 7);
    Condenser.CondensedAt(d, 9);
    Condenser.CondensedAt(d, 11);
    Condenser.CondensedAt(d, 17);
    Condenser.CondensedAt(d, 19);
    Condenser.CondensedAt(d, 24);
    Condenser.CondensedAt(d, 27);
    Condenser.CondensedAt(d, 29);
    Condenser.CondensedAt(d, 32);
    Condenser.CondensedAt(d, 33);
    Condenser.CondensedAt(d, 36);
  }

  /**
   * Every metadata record the transform keeps names a warehouse of
   * `hubDict` and that warehouse's hub, and there is at most one per row.
   */
  lemma {:induction false} AllMetaHubs(rows: seq<Row>)
    ensures |AllMeta(rows)| <= |rows|
    ensures forall m :: m in AllMeta(rows) ==> m.warehouseId in Meta.HubDict && m.hubId == Meta.HubDict[m.warehouseId]
  {
    if |rows| > 0 {
      AllMetaHubs(rows[..|rows| - 1]);
    }
  }

  // ---------------------------------------------------------------------
  // The whole transform

  /** Lines 184-185: `custom_split` applied to both value strings of every record. */
  method SplitRecords(records: seq<RawRecord>) returns (ps: seq<Parsed>)
    ensures ps == SplitAll(records)
  {
    ps := [];
    var i := 0;
    while i < |records|
      invariant 0 <= i <= |records| && |ps| == i
      invariant forall j :: 0 <= j < i ==> ps[j] == SplitRecord(records[j])
    {
      var p := SplitOne(records[i]);
      ps := ps + [p];
      i := i + 1;
    }
  }

  /** Lines 184-185 for one record: both value strings through `custom_split`. */
  method SplitOne(rec: RawRecord) returns (p: Parsed)
    ensures p == SplitRecord(rec)
  {
    var listOld := Tokenizer.CustomSplit(Headers.HeaderList, rec.oldValues);
    var listNew := Tokenizer.CustomSplit(Headers.HeaderList, rec.newValues);
    p := Parsed(rec, listOld, listNew);
  }

  /**
   * Lines 184-219 over the T_ORDER records: split every record, quarantine
   * the rows whose lists are not 55 entries, and read the order numbers of
   * the rest.
   */
  method ValidateBatch(orders: seq<RawRecord>) returns (rows: seq<Row>, failures: seq<Parsed>)
    ensures Batch(rows, failures) == BatchCorrected(orders)
  {
    var ps := SplitRecords(orders);
    failures := DataFailures(ps);
    SurvivorsWide(ps);
    rows := AttachOrderNumbers(Survivors(ps));
  }

  /** The three tables the transform leaves: trail, metadata, and the quarantined rows. */
  datatype Export = Export(trail: seq<TrailEntry>, meta: seq<Meta.MetaRecord>, failures: seq<Parsed>)

  /**
   * What the transform exports for an audit export: its T_ORDER records,
   * validated before their order numbers are read.
   */
  function Exported(records: seq<RawRecord>): Export
  {
    var orders := OrderTableRecords(records);
    var b := BatchCorrected(orders);
    var cs := CondensedAll(b.rows);
    Export(AllEntries(cs), AllMeta(cs), b.failures)
  }

  /**
   * The transform over an audit export: keep the T_ORDER records, split,
   * validate, read order numbers, condense, then build the trail table and
   * the metadata table from empty.
   */
  method Transform(records: seq<RawRecord>) returns (e: Export)
    ensures e == Exported(records)
  {
    var orders := OrderTableRecords(records);
    var rows, failures := ValidateBatch(orders);
    var cs := CondenseRows(rows);
    var entries, metas := BuildTables(cs);
    e := Export(entries, metas, failures);
  }

  /** Lines 293-414 after condensing: both tables built from empty, row after row. */
  method BuildTables(cs: seq<Row>) returns (entries: seq<TrailEntry>, metas: seq<Meta.MetaRecord>)
    ensures entries == AllEntries(cs) && metas == AllMeta(cs)
  {
    var trail := new TrailTable();
    trail.ApplyBuildTrail(cs);
    entries := trail.entries;
    var meta := new MetaTable();
    meta.ApplyBuildMeta(cs);
    metas := meta.records;
  }
}
