/** The two reports of the same raw logs: web/data.go repairs invalid UTF-8, cli/cli.go does not. */
module TimelineRepair {
  import opened Fields
  import opened Options
  import opened StableSort
  import opened Timeline
  import opened Utf8

  function ToValidUtf8(): string -> string {
    (s: string) => Repair(s)
  }

  /** strconv.ParseFloat accepts no text that needs repair, nor what it is repaired to. */
  ghost predicate ReadsRepaired(parse: ParseFloat) {
    forall s :: parse(Repair(s)) == parse(s)
  }

  function RepairRow(r: Row): Row {
    Row(r.ts, r.tag, Repair(r.detail), Repair(r.kind))
  }

  function RepairRows(rows: seq<Row>): (rs: seq<Row>)
    ensures |rs| == |rows| && forall i :: 0 <= i < |rows| ==> rs[i] == RepairRow(rows[i])
  {
    seq(|rows|, i requires 0 <= i < |rows| => RepairRow(rows[i]))
  }

  function RepairOption(r: Option<Row>): Option<Row> {
    match r case None => None case Some(row) => Some(RepairRow(row))
  }

  // Lines

  lemma LinesRepaired(text: string)
    ensures WebLines(Repair(text)) == RepairAll(WebLines(text))
  {
    hide Split, RepairFrom;
    RepairNothing(text);
    SplitRepaired(text, '\n');
    var parts := Split(text, '\n');
    RepairNothing(parts[|parts| - 1]);
    assert RepairAll(parts)[..|parts| - 1] == RepairAll(parts[..|parts| - 1]);
    assert RepairAll([]) == [];
  }

  lemma TailRepaired(text: string, n: nat)
    ensures WebTail(Repair(text), n) == RepairAll(WebTail(text, n))
  {
    LinesRepaired(text);
    var lines := WebLines(text);
    hide WebLines, Repair;
    assert |lines| > n ==> RepairAll(lines)[|lines| - n..] == RepairAll(lines[|lines| - n..]);
  }

  // Rows

  lemma FieldRepaired(f: string, tag: string)
    requires !HasHigh(tag)
    ensures Repair(f) == tag <==> f == tag
  {
    AsciiFromItself(f, tag);
  }

  lemma Tags()
    ensures !HasHigh("BUFFER") && !HasHigh("EXEC") && !HasHigh("KEY") && !HasHigh("") && !HasHigh("val")
    ensures !HasHigh("DEVICE_ADDED") && !HasHigh("DEVICE_REMOVED")
  {}

  lemma BufRepaired(parse: ParseFloat, line: string)
    requires ReadsRepaired(parse)
    ensures BufRow(parse)(Repair(line)) == RepairOption(BufRow(parse)(line))
    ensures ExecRow(parse)(Repair(line)) == RepairOption(ExecRow(parse)(line))
  {
    hide Split, Repair, HasHigh;
    Tags();
    SplitRepaired(line, '\t');
    var f := Split(line, '\t');
    FieldRepaired("", "");
    if |f| >= 6 {
      FieldRepaired(f[4], "BUFFER");
      FieldRepaired(f[4], "EXEC");
      assert parse(Repair(f[1])) == parse(f[1]);
    }
  }

  /** The detail of a key row is put together from repaired parts. */
  lemma KeyDetail(device: string, key: string, value: string)
    ensures Repair(device + " " + key + " val=" + value) == Repair(device) + " " + Repair(key) + " val=" + Repair(value)
  {
    hide RepairFrom, HasHigh;
    Tags();
    var tail := "val" + ['='] + value;
    RepairAround(device, ' ', key + [' '] + tail, false);
    RepairAround(key, ' ', tail, false);
    RepairAround("val", '=', value, false);
    FieldRepaired("val", "val");
    assert device + " " + key + " val=" + value == device + [' '] + (key + [' '] + tail);
    assert Repair(device) + " " + Repair(key) + " val=" + Repair(value)
      == Repair(device) + [' '] + (Repair(key) + [' '] + ("val" + ['='] + Repair(value)));
  }

  lemma DeviceDetail(tag: string, device: string)
    requires !HasHigh(tag)
    ensures Repair(tag + " " + device) == tag + " " + Repair(device)
  {
    hide RepairFrom;
    RepairAround(tag, ' ', device, false);
    FieldRepaired(tag, tag);
  }

  lemma KeyRepaired(parse: ParseFloat, line: string)
    requires ReadsRepaired(parse)
    ensures KeyRow(parse)(Repair(line)) == RepairOption(KeyRow(parse)(line))
  {
    hide Split, Repair, HasHigh;
    Tags();
    SplitRepaired(line, '\t');
    var f := Split(line, '\t');
    FieldRepaired("", "");
    if |f| >= 2 {
      assert parse(Repair(f[0])) == parse(f[0]);
      FieldRepaired(f[1], "KEY");
      FieldRepaired(f[1], "DEVICE_ADDED");
      FieldRepaired(f[1], "DEVICE_REMOVED");
      if |f| >= 6 {
        KeyDetail(f[3], f[4], f[5]);
      }
      DeviceDetail("DEVICE_ADDED", if |f| >= 4 then f[3] else "");
      DeviceDetail("DEVICE_REMOVED", if |f| >= 4 then f[3] else "");
    }
  }

  /** Repairing a line repairs its row. */
  ghost predicate RowRepairs(row: string -> Option<Row>) {
    forall line {:trigger Repair(line)} :: row(Repair(line)) == RepairOption(row(line))
  }

  lemma RowAt(row: string -> Option<Row>, line: string)
    requires RowRepairs(row)
    ensures row(Repair(line)) == RepairOption(row(line))
  {}

  lemma RepairRowsPush(rows: seq<Row>, r: Row)
    ensures RepairRows(rows + [r]) == RepairRows(rows) + [RepairRow(r)]
  {
    hide RepairRow;
  }

  lemma {:induction false} CollectRepaired(lines: seq<string>, row: string -> Option<Row>)
    requires RowRepairs(row)
    ensures Collect(RepairAll(lines), row) == RepairRows(Collect(lines, row))
    decreases |lines|
  {
    hide Repair, RepairRow, RowRepairs;
    if lines == [] {
      assert RepairRows([]) == [];
    } else {
      var (front, last) := (lines[..|lines| - 1], lines[|lines| - 1]);
      CollectRepaired(front, row);
      assert RepairAll(lines)[..|lines| - 1] == RepairAll(front);
      RowAt(row, last);
      if row(last).Some? {
        RepairRowsPush(Collect(front, row), row(last).value);
      }
    }
  }

  /** The rows the web side collects are the repaired rows of the command-line side. */
  lemma RowsRepaired(text: string, n: nat, row: string -> Option<Row>)
    requires n > 0 && row("") == None && RowRepairs(row)
    ensures Collect(WebTail(Repair(text), n), row) == RepairRows(Collect(CliTail(text, n), row))
  {
    hide Collect, WebTail, CliTail, Repair, RowRepairs;
    TailRepaired(text, n);
    CollectRepaired(WebTail(text, n), row);
    SameRows(text, n, row);
  }

  // The timeline

  lemma {:induction false} FilterRepaired(rows: seq<Row>, t0: real)
    ensures Filter(RepairRows(rows), From(t0)) == RepairRows(Filter(rows, From(t0)))
    decreases |rows|
  {
    hide Repair;
    if rows == [] {
      assert RepairRows([]) == [];
    } else {
      var (front, last) := (rows[..|rows| - 1], rows[|rows| - 1]);
      FilterRepaired(front, t0);
      assert RepairRows(rows)[..|front|] == RepairRows(front);
      RepairRowsPush(Filter(front, From(t0)), last);
    }
  }

  lemma {:induction false} InsertRepaired(rows: seq<Row>, r: Row)
    ensures Insert(RepairRows(rows), RepairRow(r), Ts()) == RepairRows(Insert(rows, r, Ts()))
    decreases |rows|
  {
    hide Repair;
    if rows == [] || rows[|rows| - 1].ts <= r.ts {
      RepairRowsPush(rows, r);
    } else {
      var (front, last) := (rows[..|rows| - 1], rows[|rows| - 1]);
      InsertRepaired(front, r);
      assert RepairRows(rows)[..|front|] == RepairRows(front);
      RepairRowsPush(Insert(front, r, Ts()), last);
    }
  }

  lemma {:induction false} SortRepaired(rows: seq<Row>)
    ensures Sort(RepairRows(rows), Ts()) == RepairRows(Sort(rows, Ts()))
    decreases |rows|
  {
    hide Repair, Insert;
    if rows == [] {
      assert RepairRows([]) == [];
    } else {
      var front := rows[..|rows| - 1];
      SortRepaired(front);
      assert RepairRows(rows)[..|front|] == RepairRows(front);
      InsertRepaired(Sort(front, Ts()), rows[|front|]);
    }
  }

  lemma ConcatRepaired(a: seq<Row>, b: seq<Row>, c: seq<Row>)
    ensures RepairRows(a + b + c) == RepairRows(a) + RepairRows(b) + RepairRows(c)
  {}

  lemma LastRepaired(rows: seq<Row>, n: nat)
    ensures LastN(RepairRows(rows), n) == RepairRows(LastN(rows, n))
  {}

  lemma AllRowsRepair(parse: ParseFloat)
    requires ReadsRepaired(parse)
    ensures RowRepairs(BufRow(parse)) && RowRepairs(ExecRow(parse)) && RowRepairs(KeyRow(parse))
  {
    hide BufRow, ExecRow, KeyRow, ReadsRepaired;
    forall line: string
      ensures BufRow(parse)(Repair(line)) == RepairOption(BufRow(parse)(line))
      ensures ExecRow(parse)(Repair(line)) == RepairOption(ExecRow(parse)(line))
      ensures KeyRow(parse)(Repair(line)) == RepairOption(KeyRow(parse)(line))
    {
      BufRepaired(parse, line);
      KeyRepaired(parse, line);
    }
  }

  /** The web report of any logs is the command-line report of the same logs with every text repaired. */
  lemma WebShowsRepairedRows(bufText: string, cmdText: string, keyText: string, n: int, parse: ParseFloat)
    requires ReadsRepaired(parse)
    ensures WebTimeline(bufText, cmdText, keyText, n, parse, ToValidUtf8())
         == RepairRows(CliTimeline(bufText, cmdText, keyText, n, parse))
  {
    AllRowsRepair(parse);
    NoFields(parse);
    hide Collect, Filter, Sort, WebTail, CliTail, Repair, LastN, BufRow, ExecRow, KeyRow, RowRepairs, ReadsRepaired;
    RowsRepaired(bufText, 6000, BufRow(parse));
    RowsRepaired(cmdText, 6000, ExecRow(parse));
    RowsRepaired(keyText, 12000, KeyRow(parse));
    var bufs := Collect(CliTail(bufText, 6000), BufRow(parse));
    if n >= 0 {
      LastRepaired(bufs, n);
    }
    var kept: seq<Row> := if n >= 0 then LastN(bufs, n) else bufs;
    if kept == [] {
      assert RepairRows([]) == [];
    } else {
      var execs := Collect(CliTail(cmdText, 6000), ExecRow(parse));
      var keys := Collect(CliTail(keyText, 12000), KeyRow(parse));
      FilterRepaired(execs, kept[0].ts);
      FilterRepaired(keys, kept[0].ts);
      ConcatRepaired(kept, Filter(execs, From(kept[0].ts)), Filter(keys, From(kept[0].ts)));
      SortRepaired(kept + Filter(execs, From(kept[0].ts)) + Filter(keys, From(kept[0].ts)));
    }
  }

  /** Of the same raw logs both reports show the same, kinds aside, exactly when every detail shown is valid UTF-8. */
  lemma ReportsAgreeExactly(bufText: string, cmdText: string, keyText: string, n: nat, parse: ParseFloat)
    requires ReadsRepaired(parse)
    ensures var rows := CliTimeline(bufText, cmdText, keyText, n, parse);
            Plains(WebTimeline(bufText, cmdText, keyText, n, parse, ToValidUtf8())) == Plains(rows) <==>
              forall i :: 0 <= i < |rows| ==> ValidUtf8(rows[i].detail)
  {
    hide WebTimeline, CliTimeline, Repair, ValidUtf8, ReadsRepaired;
    WebShowsRepairedRows(bufText, cmdText, keyText, n, parse);
    var rows := CliTimeline(bufText, cmdText, keyText, n, parse);
    var (web, cli) := (Plains(RepairRows(rows)), Plains(rows));
    forall i | 0 <= i < |rows| ensures web[i] == cli[i] <==> ValidUtf8(rows[i].detail) {
      RepairKeepsExactly(rows[i].detail);
    }
  }
}
