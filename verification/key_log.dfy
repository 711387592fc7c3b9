/** The keystroke log: inputmon/inputmon.go `logFields` and the KEY record, read back by the reports. */
module KeyLog {
  import opened Options
  import opened Fields
  import opened Timeline
  import Repr

  /** One record is its fields. */
  type Record = r: seq<string> | r != [] witness [""]

  function Line(r: Record): string {
    Join(r, '\t') + "\n"
  }

  function Text(records: seq<Record>): string {
    if records == [] then "" else Line(records[0]) + Text(records[1..])
  }

  predicate Clean(field: string) {
    '\t' !in field && '\n' !in field
  }

  predicate CleanRecord(r: Record) {
    forall i :: 0 <= i < |r| ==> Clean(r[i])
  }

  /** The append-only log file. */
  class Log {
    var text: string
    ghost var records: seq<Record>

    ghost predicate Valid()
      reads this
    {
      text == Text(records)
    }

    constructor ()
      ensures Valid() && records == []
    {
      text, records := "", [];
    }

    /** inputmon/inputmon.go `logFields`. */
    method LogFields(fields: Record)
      requires Valid()
      modifies this
      ensures Valid() && records == old(records) + [fields]
      ensures text == old(text) + Join(fields, '\t') + "\n"
    {
      var line := Join(fields, '\t') + "\n";
      TextPush(records, fields);
      text := text + line;
      records := records + [fields];
    }
  }

  lemma {:induction false} TextPush(records: seq<Record>, r: Record)
    ensures Text(records + [r]) == Text(records) + Line(r)
    decreases |records|
  {
    if records == [] {
      assert (records + [r])[1..] == [];
    } else {
      TextPush(records[1..], r);
      assert (records + [r])[1..] == records[1..] + [r];
    }
  }

  /** The lines a reader is meant to see. */
  function Lines(records: seq<Record>): seq<string> {
    seq(|records|, i requires 0 <= i < |records| => Join(records[i], '\t'))
  }

  lemma {:induction false} SplitText(records: seq<Record>)
    requires forall i :: 0 <= i < |records| ==> CleanRecord(records[i])
    ensures Split(Text(records), '\n') == Lines(records) + [""]
    decreases |records|
  {
    hide Split, Join, Find;
    if records == [] {
      NothingSplit("", '\n');
    } else {
      var (first, rest) := (Join(records[0], '\t'), records[1..]);
      assert CleanRecord(records[0]);
      JoinAvoids(records[0], '\t', '\n');
      SplitText(rest);
      SplitFirst(first, Text(rest), '\n');
      assert Text(records) == first + ['\n'] + Text(rest);
      assert Lines(records) == [first] + Lines(rest);
    }
  }

  /** The readers get every record back, in order, field by field. */
  lemma LogRoundTrip(records: seq<Record>)
    requires forall i :: 0 <= i < |records| ==> CleanRecord(records[i])
    ensures WebLines(Text(records)) == Lines(records)
    ensures forall i :: 0 <= i < |records| ==> Split(Lines(records)[i], '\t') == records[i]
  {
    SplitText(records);
    forall i | 0 <= i < |records| ensures Split(Lines(records)[i], '\t') == records[i] {
      assert CleanRecord(records[i]);
      SplitJoin(records[i], '\t');
    }
  }

  // ---------------------------------------------------------- KEY records

  /** The fields `reader` logs for a key event. */
  function KeyFields(
      ts: string, path: string, name: string, key: string, value: string, bus: string, isPrint: char -> bool): Record
  {
    [ts, "KEY", path, Repr.Printed(name, isPrint), key, value, bus]
  }

  /** The record is one line with exactly its seven fields, unless a field that is not escaped breaks it. */
  lemma KeyRecordIntact(
      ts: string, path: string, name: string, key: string, value: string, bus: string, isPrint: char -> bool)
    ensures var r := KeyFields(ts, path, name, key, value, bus, isPrint);
      Split(Join(r, '\t'), '\t') == r <==>
        '\t' !in ts && '\t' !in path && '\t' !in key && '\t' !in value && '\t' !in bus
    ensures CleanRecord(KeyFields(ts, path, name, key, value, bus, isPrint))
      <==> Clean(ts) && Clean(path) && Clean(key) && Clean(value) && Clean(bus)
  {
    hide Repr.Printed, Split, Join;
    var r := KeyFields(ts, path, name, key, value, bus, isPrint);
    Repr.PrintedIsInline(name, isPrint);
    SplitJoinExactly(r, '\t');
    assert r[0] == ts && r[1] == "KEY" && r[2] == path && r[3] == Repr.Printed(name, isPrint);
    assert r[4] == key && r[5] == value && r[6] == bus;
  }

  /** The report recovers time, device name, key, value and bus from a logged key event. */
  lemma KeyRecordReported(ts: string, path: string, name: string, key: string, value: string, bus: string,
      isPrint: char -> bool, parse: ParseFloat)
    requires Clean(ts) && Clean(path) && Clean(key) && Clean(value) && Clean(bus) && parse(ts).Some?
    ensures var line := Join(KeyFields(ts, path, name, key, value, bus, isPrint), '\t');
      && KeyRow(parse)(line)
           == Some(Row(parse(ts).value, "KEY", Repr.Printed(name, isPrint) + " " + key + " val=" + value, bus))
      && Repr.Parse(Split(line, '\t')[3]) == Some(name)
  {
    hide Repr.Printed, Repr.Parse, Split, Join;
    KeyRecordIntact(ts, path, name, key, value, bus, isPrint);
    Repr.PrintedParses(name, isPrint);
  }

  /** A KEY record without a bus, as older logs hold it. */
  lemma KeyRecordWithoutBus(ts: string, path: string, device: string, key: string, value: string, parse: ParseFloat)
    requires Clean(ts) && Clean(path) && Clean(device) && Clean(key) && Clean(value) && parse(ts).Some?
    ensures KeyRow(parse)(Join([ts, "KEY", path, device, key, value], '\t'))
         == Some(Row(parse(ts).value, "KEY", device + " " + key + " val=" + value, ""))
  {
    hide Split, Join;
    SplitJoin([ts, "KEY", path, device, key, value], '\t');
  }

  // ---------------------------------------------------------- DEVICE records

  /** What `openDevice` logs. */
  function AddedFields(
      ts: string, path: string, name: string, phys: string, keyCap: bool, isPrint: char -> bool): Record
  {
    [ts, "DEVICE_ADDED", path, Repr.Printed(name, isPrint), "phys=" + Repr.Printed(phys, isPrint),
     if keyCap then "key-capable" else "non-key"]
  }

  /** What `removeDevice` logs. */
  function RemovedFields(ts: string, path: string, name: string, isPrint: char -> bool): Record {
    [ts, "DEVICE_REMOVED", path, Repr.Printed(name, isPrint)]
  }

  /** The report shows the device of both records, and its name can be read back from the row. */
  lemma DeviceRecordsReported(ts: string, path: string, name: string, phys: string, keyCap: bool,
      isPrint: char -> bool, parse: ParseFloat)
    requires Clean(ts) && Clean(path) && parse(ts).Some?
    ensures KeyRow(parse)(Join(AddedFields(ts, path, name, phys, keyCap, isPrint), '\t'))
         == Some(Row(parse(ts).value, "DEV", "DEVICE_ADDED" + " " + Repr.Printed(name, isPrint), ""))
    ensures KeyRow(parse)(Join(RemovedFields(ts, path, name, isPrint), '\t'))
         == Some(Row(parse(ts).value, "DEV", "DEVICE_REMOVED" + " " + Repr.Printed(name, isPrint), ""))
    ensures Repr.Parse(Repr.Printed(name, isPrint)) == Some(name)
  {
    hide Repr.Printed, Repr.Parse, Split, Join;
    Repr.PrintedIsInline(name, isPrint);
    Repr.PrintedIsInline(phys, isPrint);
    Repr.PrintedParses(name, isPrint);
    SplitJoin(AddedFields(ts, path, name, phys, keyCap, isPrint), '\t');
    SplitJoin(RemovedFields(ts, path, name, isPrint), '\t');
  }

  /** A DEVICE record cut short of its name still gives a row. */
  lemma ShortDeviceRecord(ts: string, path: string, parse: ParseFloat)
    requires Clean(ts) && Clean(path) && parse(ts).Some?
    ensures KeyRow(parse)(Join([ts, "DEVICE_ADDED", path], '\t'))
         == Some(Row(parse(ts).value, "DEV", "DEVICE_ADDED ", ""))
    ensures KeyRow(parse)(Join([ts, "DEVICE_REMOVED"], '\t'))
         == Some(Row(parse(ts).value, "DEV", "DEVICE_REMOVED ", ""))
  {
    hide Split, Join;
    SplitJoin([ts, "DEVICE_ADDED", path], '\t');
    SplitJoin([ts, "DEVICE_REMOVED"], '\t');
    assert "DEVICE_ADDED" + " " + "" == "DEVICE_ADDED " && "DEVICE_REMOVED" + " " + "" == "DEVICE_REMOVED ";
  }

  // ---------------------------------------------------------- the shell's records

  /** The line a shell hook writes: the text comes last and may hold tabs. */
  function ShellLine(clock: string, epoch: string, tty: string, pid: string, plane: string, text: string): string {
    Join([clock, epoch, "tty=" + tty, "pid=" + pid, plane], '\t') + ['\t'] + text
  }

  lemma ShellFields(clock: string, epoch: string, tty: string, pid: string, plane: string, text: string)
    requires Clean(clock) && Clean(epoch) && Clean(tty) && Clean(pid) && Clean(plane)
    ensures Split(ShellLine(clock, epoch, tty, pid, plane, text), '\t')
         == [clock, epoch, "tty=" + tty, "pid=" + pid, plane] + Split(text, '\t')
    ensures Split(text, '\t')[0] == text[..Find(text, '\t')]
  {
    SplitJoinTail([clock, epoch, "tty=" + tty, "pid=" + pid, plane], text, '\t');
    hide Join;
  }

  /** A prompt or a command is reported up to its first tab, at its second time stamp, and only on its own plane. */
  lemma ShellRecordsReported(
      clock: string, epoch: string, tty: string, pid: string, plane: string, text: string, parse: ParseFloat)
    requires Clean(clock) && Clean(epoch) && Clean(tty) && Clean(pid) && Clean(plane)
    ensures var (line, shown) := (ShellLine(clock, epoch, tty, pid, plane, text), text[..Find(text, '\t')]);
            && BufRow(parse)(line) == (if plane == "BUFFER" && parse(epoch).Some?
                                       then Some(Row(parse(epoch).value, "BUF", shown, "")) else None)
            && ExecRow(parse)(line) == (if plane == "EXEC" && parse(epoch).Some?
                                        then Some(Row(parse(epoch).value, "EXEC", shown, "")) else None)
  {
    ShellFields(clock, epoch, tty, pid, plane, text);
    hide Split, ShellLine, Find;
  }

  /** Which records of clean fields are reported at all. */
  lemma ReportedExactly(r: Record, parse: ParseFloat)
    requires CleanRecord(r)
    ensures var line := Join(r, '\t');
      && (BufRow(parse)(line).Some? <==> |r| >= 6 && r[4] == "BUFFER" && parse(r[1]).Some?)
      && (ExecRow(parse)(line).Some? <==> |r| >= 6 && r[4] == "EXEC" && parse(r[1]).Some?)
      && (KeyRow(parse)(line).Some? <==>
            |r| >= 2 && parse(r[0]).Some? &&
            (r[1] == "DEVICE_ADDED" || r[1] == "DEVICE_REMOVED" || (r[1] == "KEY" && |r| >= 6)))
  {
    hide Split, Join;
    SplitJoin(r, '\t');
  }
}
