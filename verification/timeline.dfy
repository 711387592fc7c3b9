/** The correlated timeline, written twice: web/data.go `report` and cli/cli.go `buildReport`. */
module Timeline {
  import opened Options
  import opened Fields
  import opened StableSort

  /** strconv.ParseFloat on the texts that occur, as a function; NaN is left out. */
  type ParseFloat = string -> Option<real>

  datatype Row = Row(ts: real, tag: string, detail: string, kind: string)

  // ---------------------------------------------------------- lines of a log

  /** web/data.go `splitLines`: one empty last line is dropped. */
  function WebLines(s: string): seq<string> {
    if s == "" then [] else
      var parts := Split(s, '\n');
      if parts[|parts| - 1] == "" then parts[..|parts| - 1] else parts
  }

  /** cli/cli.go `splitLines`: one final newline is dropped. */
  function CliLines(s: string): seq<string> {
    var t := if s != "" && s[|s| - 1] == '\n' then s[..|s| - 1] else s;
    if t == "" then [] else Split(t, '\n')
  }

  lemma {:induction false} SplitTrailing(s: string, c: char)
    ensures Split(s + [c], c) == Split(s, c) + [""]
    decreases |s|
  {
    var k := Find(s, c);
    if k == |s| {
      SplitFirst(s, "", c);
      assert s + [c] + "" == s + [c];
      FindAt("", c, 0);
    } else {
      hide Split;
      var (first, rest) := (s[..k], s[k + 1..]);
      assert s == first + [c] + rest && s + [c] == first + [c] + (rest + [c]);
      SplitFirst(first, rest, c);
      SplitFirst(first, rest + [c], c);
      SplitTrailing(rest, c);
    }
  }

  lemma {:induction false} LastPartEmpty(s: string, c: char)
    ensures Split(s, c)[|Split(s, c)| - 1] == "" <==> s == "" || s[|s| - 1] == c
    decreases |s|
  {
    var k := Find(s, c);
    if k < |s| {
      LastPartEmpty(s[k + 1..], c);
    }
  }

  lemma NothingToSplit(c: char)
    ensures Split("", c) == [""]
  {
    FindAt("", c, 0);
  }

  /** The two line splitters agree on every text except a lone newline. */
  lemma LinesAgreeExactly(s: string)
    ensures WebLines(s) == CliLines(s) <==> s != "\n"
    ensures s == "\n" ==> WebLines(s) == [""] && CliLines(s) == []
  {
    hide Split;
    LastPartEmpty(s, '\n');
    NothingToSplit('\n');
    if s != "" && s[|s| - 1] == '\n' {
      var t := s[..|s| - 1];
      assert s == t + ['\n'];
      SplitTrailing(t, '\n');
      assert (Split(t, '\n') + [""])[..|Split(t, '\n')|] == Split(t, '\n');
      assert s == "\n" <==> t == "";
    }
  }

  function LastN<T>(s: seq<T>, n: nat): seq<T> {
    if |s| > n then s[|s| - n..] else s
  }

  // ---------------------------------------------------------- rows of a line

  function BufRow(parse: ParseFloat): string -> Option<Row> {
    line =>
      var f := Split(line, '\t');
      if |f| >= 6 && f[4] == "BUFFER" && parse(f[1]).Some? then Some(Row(parse(f[1]).value, "BUF", f[5], "")) else None
  }

  function ExecRow(parse: ParseFloat): string -> Option<Row> {
    line =>
      var f := Split(line, '\t');
      if |f| >= 6 && f[4] == "EXEC" && parse(f[1]).Some? then Some(Row(parse(f[1]).value, "EXEC", f[5], "")) else None
  }

  function KeyRow(parse: ParseFloat): string -> Option<Row> {
    line =>
      var f := Split(line, '\t');
      if |f| < 2 || parse(f[0]).None? then None
      else if f[1] == "KEY" && |f| >= 6 then
        Some(Row(parse(f[0]).value, "KEY", f[3] + " " + f[4] + " val=" + f[5], if |f| >= 7 then f[6] else ""))
      else if f[1] == "DEVICE_ADDED" || f[1] == "DEVICE_REMOVED" then
        Some(Row(parse(f[0]).value, "DEV", f[1] + " " + (if |f| >= 4 then f[3] else ""), ""))
      else None
  }

  function Collect(lines: seq<string>, row: string -> Option<Row>): seq<Row> {
    if lines == [] then [] else
      var front := Collect(lines[..|lines| - 1], row);
      match row(lines[|lines| - 1])
      case Some(r) => front + [r]
      case None => front
  }

  lemma CollectPush(lines: seq<string>, line: string, row: string -> Option<Row>)
    ensures Collect(lines + [line], row) ==
      if row(line).Some? then Collect(lines, row) + [row(line).value] else Collect(lines, row)
  {
    assert (lines + [line])[..|lines|] == lines;
  }

  lemma NothingYet(row: string -> Option<Row>, p: Row -> bool)
    ensures Collect([], row) == [] && Filter([], p) == []
  {}

  // ---------------------------------------------------------- the timeline, as documented

  function Ts(): Row -> real {
    (r: Row) => r.ts
  }

  function From(t0: real): Row -> bool {
    (r: Row) => r.ts >= t0
  }

  /** The last n prompt rows; a negative n keeps them all. */
  function Prompts(lines: seq<string>, n: int, parse: ParseFloat): seq<Row> {
    var bufs := Collect(lines, BufRow(parse));
    if n >= 0 then LastN(bufs, n) else bufs
  }

  /** The prompt rows, then the exec rows, then the key and device rows, from t0 on. */
  function Merged(bufs: seq<Row>, cmdLines: seq<string>, keyLines: seq<string>, parse: ParseFloat): seq<Row>
    requires bufs != []
  {
    bufs
    + Filter(Collect(cmdLines, ExecRow(parse)), From(bufs[0].ts))
    + Filter(Collect(keyLines, KeyRow(parse)), From(bufs[0].ts))
  }

  function TimelineOf(
      bufLines: seq<string>, cmdLines: seq<string>, keyLines: seq<string>, n: int, parse: ParseFloat): seq<Row>
  {
    var bufs := Prompts(bufLines, n, parse);
    if bufs == [] then [] else Sort(Merged(bufs, cmdLines, keyLines, parse), Ts())
  }

  /** The timeline is ascending, holds exactly the merged rows, and keeps the order of simultaneous ones. */
  lemma TimelineMeaning(
      bufLines: seq<string>, cmdLines: seq<string>, keyLines: seq<string>, n: int, parse: ParseFloat, v: real)
    requires Prompts(bufLines, n, parse) != []
    ensures var bufs := Prompts(bufLines, n, parse);
      var timeline := TimelineOf(bufLines, cmdLines, keyLines, n, parse);
      && Sorted(timeline, Ts())
      && multiset(timeline) == multiset(bufs)
           + multiset(Filter(Collect(cmdLines, ExecRow(parse)), From(bufs[0].ts)))
           + multiset(Filter(Collect(keyLines, KeyRow(parse)), From(bufs[0].ts)))
      && WithKey(timeline, Ts(), v) == WithKey(Merged(bufs, cmdLines, keyLines, parse), Ts(), v)
  {
    var merged := Merged(Prompts(bufLines, n, parse), cmdLines, keyLines, parse);
    SortSorted(merged, Ts());
    SortStable(merged, Ts(), v);
    hide Sort, Filter, Collect;
  }

  // ---------------------------------------------------------- web/data.go

  /** web/data.go `tail`, applied to the text of the file's last 512 KiB. */
  function WebTail(text: string, n: nat): seq<string> {
    LastN(WebLines(text), n)
  }

  /** The first loop of `report`. */
  method WebBufs(bufText: string, parse: ParseFloat) returns (bufs: seq<Row>)
    ensures bufs == Collect(WebTail(bufText, 6000), BufRow(parse))
  {
    hide Split, Filter, Collect;
    NothingYet(BufRow(parse), From(0.0));
    bufs := [];
    var lines := WebTail(bufText, 6000);
    var i := 0;
    while i < |lines|
      invariant 0 <= i <= |lines| && bufs == Collect(lines[..i], BufRow(parse))
    {
      CollectPush(lines[..i], lines[i], BufRow(parse));
      assert lines[..i + 1] == lines[..i] + [lines[i]];
      var p := Split(lines[i], '\t');
      if |p| >= 6 && p[4] == "BUFFER" {
        var ts := parse(p[1]);
        if ts.Some? {
          bufs := bufs + [Row(ts.value, "BUF", p[5], "")];
        }
      }
      i := i + 1;
    }
    assert lines[..i] == lines;
  }

  /** The second loop of `report`: its appends to merged. */
  method WebExecs(cmdText: string, t0: real, parse: ParseFloat) returns (rows: seq<Row>)
    ensures rows == Filter(Collect(WebTail(cmdText, 6000), ExecRow(parse)), From(t0))
  {
    hide Split, Filter, Collect;
    NothingYet(ExecRow(parse), From(t0));
    rows := [];
    var lines := WebTail(cmdText, 6000);
    var i := 0;
    while i < |lines|
      invariant 0 <= i <= |lines| && rows == Filter(Collect(lines[..i], ExecRow(parse)), From(t0))
    {
      ghost var before := Collect(lines[..i], ExecRow(parse));
      ghost var row := ExecRow(parse)(lines[i]);
      CollectPush(lines[..i], lines[i], ExecRow(parse));
      assert lines[..i + 1] == lines[..i] + [lines[i]];
      if row.Some? {
        FilterPush(before, row.value, From(t0));
      }
      var p := Split(lines[i], '\t');
      i := i + 1;
      if |p| >= 6 && p[4] == "EXEC" {
        var ts := parse(p[1]);
        if ts.None? {
          continue;
        }
        if ts.value >= t0 {
          rows := rows + [Row(ts.value, "EXEC", p[5], "")];
        }
      }
    }
    assert lines[..i] == lines;
  }

  /** The third loop of `report`. */
  method WebKeys(keyText: string, t0: real, parse: ParseFloat) returns (rows: seq<Row>)
    ensures rows == Filter(Collect(WebTail(keyText, 12000), KeyRow(parse)), From(t0))
  {
    hide Split, Filter, Collect;
    NothingYet(KeyRow(parse), From(t0));
    rows := [];
    var lines := WebTail(keyText, 12000);
    var i := 0;
    while i < |lines|
      invariant 0 <= i <= |lines| && rows == Filter(Collect(lines[..i], KeyRow(parse)), From(t0))
    {
      ghost var before := Collect(lines[..i], KeyRow(parse));
      ghost var row := KeyRow(parse)(lines[i]);
      CollectPush(lines[..i], lines[i], KeyRow(parse));
      assert lines[..i + 1] == lines[..i] + [lines[i]];
      if row.Some? {
        FilterPush(before, row.value, From(t0));
      }
      var p := Split(lines[i], '\t');
      i := i + 1;
      if |p| < 2 {
        continue;
      }
      var ts := parse(p[0]);
      if ts.None? {
        continue;
      }
      if ts.value < t0 {
        continue;
      }
      if p[1] == "KEY" && |p| >= 6 {
        var kind := "";
        if |p| >= 7 {
          kind := p[6];
        }
        rows := rows + [Row(ts.value, "KEY", p[3] + " " + p[4] + " val=" + p[5], kind)];
      } else if p[1] == "DEVICE_ADDED" || p[1] == "DEVICE_REMOVED" {
        var extra := "";
        if |p| >= 4 {
          extra := p[3];
        }
        rows := rows + [Row(ts.value, "DEV", p[1] + " " + extra, "")];
      }
    }
    assert lines[..i] == lines;
  }

  /** The timeline of the web report, and of the command-line report before the kinds are dropped. */
  function WebTimeline(
    bufText: string, cmdText: string, keyText: string, n: int, parse: ParseFloat, repair: string -> string): seq<Row>
  {
    TimelineOf(
      WebTail(repair(bufText), 6000), WebTail(repair(cmdText), 6000), WebTail(repair(keyText), 12000), n, parse)
  }

  function CliTimeline(bufText: string, cmdText: string, keyText: string, n: int, parse: ParseFloat): seq<Row> {
    TimelineOf(CliTail(bufText, 6000), CliTail(cmdText, 6000), CliTail(keyText, 12000), n, parse)
  }

  /** web/data.go `report`; `repair` is strings.ToValidUTF8, which only the web side applies to what it reads. */
  method WebReport(
      bufText: string, cmdText: string, keyText: string, n: int, parse: ParseFloat, repair: string -> string)
    returns (items: seq<Row>)
    ensures items == WebTimeline(bufText, cmdText, keyText, n, parse, repair)
  {
    hide Collect, Filter, Sort, WebTail;
    var bufs := WebBufs(repair(bufText), parse);
    if n >= 0 && |bufs| > n {
      bufs := bufs[|bufs| - n..];
    }
    if bufs == [] {
      return [];
    }
    var execs := WebExecs(repair(cmdText), bufs[0].ts, parse);
    var keys := WebKeys(repair(keyText), bufs[0].ts, parse);
    items := Sort(bufs + execs + keys, Ts());
  }

  // ---------------------------------------------------------- cli/cli.go

  /** cli/cli.go `reportItem`: a row without the input bus. */
  datatype Item = Item(ts: real, tag: string, detail: string)

  function Plain(r: Row): Item {
    Item(r.ts, r.tag, r.detail)
  }

  function Plains(rows: seq<Row>): seq<Item> {
    seq(|rows|, i requires 0 <= i < |rows| => Plain(rows[i]))
  }

  function ItemTs(): Item -> real {
    (r: Item) => r.ts
  }

  /** cli/cli.go `tailLines`, applied to the text of the file's last 512 KiB. */
  function CliTail(text: string, n: nat): seq<string> {
    LastN(CliLines(text), n)
  }

  lemma PlainsPush(rows: seq<Row>, r: Row)
    ensures Plains(rows + [r]) == Plains(rows) + [Plain(r)]
  {}

  method CliBufs(bufText: string, parse: ParseFloat) returns (bufs: seq<Item>)
    ensures bufs == Plains(Collect(CliTail(bufText, 6000), BufRow(parse)))
  {
    hide Split, Filter, Collect;
    NothingYet(BufRow(parse), From(0.0));
    bufs := [];
    var lines := CliTail(bufText, 6000);
    var i := 0;
    while i < |lines|
      invariant 0 <= i <= |lines| && bufs == Plains(Collect(lines[..i], BufRow(parse)))
    {
      ghost var before := Collect(lines[..i], BufRow(parse));
      ghost var row := BufRow(parse)(lines[i]);
      CollectPush(lines[..i], lines[i], BufRow(parse));
      assert lines[..i + 1] == lines[..i] + [lines[i]];
      if row.Some? {
        PlainsPush(before, row.value);
      }
      var f := Split(lines[i], '\t');
      if |f| >= 6 && f[4] == "BUFFER" {
        var ts := parse(f[1]);
        if ts.Some? {
          bufs := bufs + [Item(ts.value, "BUF", f[5])];
        }
      }
      i := i + 1;
    }
    assert lines[..i] == lines;
  }

  method CliExecs(cmdText: string, t0: real, parse: ParseFloat) returns (rows: seq<Item>)
    ensures rows == Plains(Filter(Collect(CliTail(cmdText, 6000), ExecRow(parse)), From(t0)))
  {
    hide Split, Filter, Collect;
    NothingYet(ExecRow(parse), From(t0));
    rows := [];
    var lines := CliTail(cmdText, 6000);
    var i := 0;
    while i < |lines|
      invariant 0 <= i <= |lines| && rows == Plains(Filter(Collect(lines[..i], ExecRow(parse)), From(t0)))
    {
      ghost var before := Collect(lines[..i], ExecRow(parse));
      ghost var row := ExecRow(parse)(lines[i]);
      CollectPush(lines[..i], lines[i], ExecRow(parse));
      assert lines[..i + 1] == lines[..i] + [lines[i]];
      if row.Some? {
        FilterPush(before, row.value, From(t0));
        PlainsPush(Filter(before, From(t0)), row.value);
      }
      var f := Split(lines[i], '\t');
      i := i + 1;
      if |f| >= 6 && f[4] == "EXEC" {
        var ts := parse(f[1]);
        if ts.None? {
          continue;
        }
        if ts.value >= t0 {
          rows := rows + [Item(ts.value, "EXEC", f[5])];
        }
      }
    }
    assert lines[..i] == lines;
  }

  method CliKeys(keyText: string, t0: real, parse: ParseFloat) returns (rows: seq<Item>)
    ensures rows == Plains(Filter(Collect(CliTail(keyText, 12000), KeyRow(parse)), From(t0)))
  {
    hide Split, Filter, Collect;
    NothingYet(KeyRow(parse), From(t0));
    rows := [];
    var lines := CliTail(keyText, 12000);
    var i := 0;
    while i < |lines|
      invariant 0 <= i <= |lines| && rows == Plains(Filter(Collect(lines[..i], KeyRow(parse)), From(t0)))
    {
      ghost var before := Collect(lines[..i], KeyRow(parse));
      ghost var row := KeyRow(parse)(lines[i]);
      CollectPush(lines[..i], lines[i], KeyRow(parse));
      assert lines[..i + 1] == lines[..i] + [lines[i]];
      if row.Some? {
        FilterPush(before, row.value, From(t0));
        PlainsPush(Filter(before, From(t0)), row.value);
      }
      var f := Split(lines[i], '\t');
      i := i + 1;
      if |f| < 2 {
        continue;
      }
      var ts := parse(f[0]);
      if ts.None? {
        continue;
      }
      if ts.value < t0 {
        continue;
      }
      if f[1] == "KEY" && |f| >= 6 {
        rows := rows + [Item(ts.value, "KEY", f[3] + " " + f[4] + " val=" + f[5])];
      } else if f[1] == "DEVICE_ADDED" || f[1] == "DEVICE_REMOVED" {
        var dev := "";
        if |f| >= 4 {
          dev := f[3];
        }
        rows := rows + [Item(ts.value, "DEV", f[1] + " " + dev)];
      }
    }
    assert lines[..i] == lines;
  }

  lemma {:induction false} InsertPlain(rows: seq<Row>, r: Row)
    ensures Insert(Plains(rows), Plain(r), ItemTs()) == Plains(Insert(rows, r, Ts()))
    decreases |rows|
  {
    if rows == [] || rows[|rows| - 1].ts <= r.ts {
      PlainsPush(rows, r);
    } else {
      var front := rows[..|rows| - 1];
      InsertPlain(front, r);
      PlainsPush(Insert(front, r, Ts()), rows[|rows| - 1]);
      assert Plains(rows)[..|rows| - 1] == Plains(front);
    }
  }

  /** Dropping the bus commutes with the stable sort. */
  lemma {:induction false} SortPlain(rows: seq<Row>)
    ensures Sort(Plains(rows), ItemTs()) == Plains(Sort(rows, Ts()))
    decreases |rows|
  {
    if rows != [] {
      var front := rows[..|rows| - 1];
      SortPlain(front);
      assert Plains(rows)[..|rows| - 1] == Plains(front);
      InsertPlain(Sort(front, Ts()), rows[|rows| - 1]);
      hide Insert;
    }
  }

  lemma PlainsConcat(a: seq<Row>, b: seq<Row>, c: seq<Row>)
    ensures Plains(a + b + c) == Plains(a) + Plains(b) + Plains(c)
  {}

  lemma PlainsTail(rows: seq<Row>, n: nat)
    requires n <= |rows|
    ensures Plains(rows)[|rows| - n..] == Plains(rows[|rows| - n..])
  {}

  /** A slice bound beyond the slice panics in Go. */
  datatype CliResult = Items(items: seq<Item>) | Panics

  /** cli/cli.go `buildReport`. */
  method BuildReport(bufText: string, cmdText: string, keyText: string, n: int, parse: ParseFloat)
    returns (result: CliResult)
    ensures result.Panics? <==> n < 0
    ensures result.Items? ==> result.items == Plains(CliTimeline(bufText, cmdText, keyText, n, parse))
  {
    hide Collect, Filter, Sort, CliTail;
    ghost var all := Collect(CliTail(bufText, 6000), BufRow(parse));
    var bufs := CliBufs(bufText, parse);
    if |bufs| > n {
      if |bufs| - n > |bufs| {
        return Panics;
      }
      PlainsTail(all, n);
      bufs := bufs[|bufs| - n..];
    }
    ghost var kept := LastN(all, n);
    assert bufs == Plains(kept);
    if bufs == [] {
      return Items([]);
    }
    assert bufs[0].ts == kept[0].ts;
    var execs := CliExecs(cmdText, bufs[0].ts, parse);
    var keys := CliKeys(keyText, bufs[0].ts, parse);
    PlainsConcat(kept, Filter(Collect(CliTail(cmdText, 6000), ExecRow(parse)), From(kept[0].ts)),
      Filter(Collect(CliTail(keyText, 12000), KeyRow(parse)), From(kept[0].ts)));
    SortPlain(Merged(kept, CliTail(cmdText, 6000), CliTail(keyText, 12000), parse));
    result := Items(Sort(bufs + execs + keys, ItemTs()));
  }

  // ---------------------------------------------------------- what the timeline holds

  lemma {:induction false} CollectMembers(lines: seq<string>, row: string -> Option<Row>, r: Row)
    ensures r in Collect(lines, row) <==> exists i :: 0 <= i < |lines| && row(lines[i]) == Some(r)
    decreases |lines|
  {
    if lines != [] {
      var (front, last) := (lines[..|lines| - 1], lines[|lines| - 1]);
      CollectMembers(front, row, r);
      assert forall i :: 0 <= i < |front| ==> lines[i] == front[i];
      assert lines[|front|] == last;
    }
  }

  /** The tail of a log is its last n lines, or all of them. */
  lemma TailMeaning(text: string, n: nat)
    ensures var (lines, tail) := (WebLines(text), WebTail(text, n));
            |tail| <= n && |tail| <= |lines| && lines[|lines| - |tail|..] == tail && (|tail| < n ==> tail == lines)
    ensures var (lines, tail) := (CliLines(text), CliTail(text, n));
            |tail| <= n && |tail| <= |lines| && lines[|lines| - |tail|..] == tail && (|tail| < n ==> tail == lines)
  {
    hide WebLines, CliLines;
  }

  /** The prompts are the last n prompt rows, and all of them for a negative n. */
  lemma PromptsMeaning(lines: seq<string>, n: int, parse: ParseFloat)
    ensures var (rows, kept) := (Collect(lines, BufRow(parse)), Prompts(lines, n, parse));
            && |kept| <= |rows| && rows[|rows| - |kept|..] == kept
            && (n >= 0 ==> |kept| <= n) && (n < 0 || |kept| < n ==> kept == rows)
  {
    hide Collect;
  }

  predicate SomeLineGives(lines: seq<string>, row: string -> Option<Row>, r: Row) {
    exists i :: 0 <= i < |lines| && row(lines[i]) == Some(r)
  }

  lemma FilteredRows(lines: seq<string>, row: string -> Option<Row>, t0: real, r: Row)
    ensures r in Filter(Collect(lines, row), From(t0)) <==> r.ts >= t0 && SomeLineGives(lines, row, r)
  {
    CollectMembers(lines, row, r);
    FilterMembers(Collect(lines, row), From(t0));
    hide Filter, Collect;
  }

  /** A row is on the timeline when it is a prompt kept, or a line of another log gives it from the first prompt on. */
  lemma TimelineHolds(
      bufLines: seq<string>, cmdLines: seq<string>, keyLines: seq<string>, n: int, parse: ParseFloat, r: Row)
    ensures var bufs := Prompts(bufLines, n, parse);
            r in TimelineOf(bufLines, cmdLines, keyLines, n, parse) <==>
              (&& bufs != []
               && (|| r in bufs
                   || (r.ts >= bufs[0].ts &&
                       (SomeLineGives(cmdLines, ExecRow(parse), r) || SomeLineGives(keyLines, KeyRow(parse), r)))))
  {
    hide Sort, Filter, Collect, ExecRow, KeyRow, Prompts, SomeLineGives;
    var bufs := Prompts(bufLines, n, parse);
    if bufs != [] {
      var merged := Merged(bufs, cmdLines, keyLines, parse);
      FilteredRows(cmdLines, ExecRow(parse), bufs[0].ts, r);
      FilteredRows(keyLines, KeyRow(parse), bufs[0].ts, r);
      SortSorted(merged, Ts());
      assert r in multiset(Sort(merged, Ts())) <==> r in multiset(merged);
    }
  }

  // ---------------------------------------------------------- the two agree

  lemma EmptyLine(row: string -> Option<Row>)
    requires row("") == None
    ensures Collect([""], row) == Collect([], row)
  {}

  lemma NoFields(parse: ParseFloat)
    ensures BufRow(parse)("") == None && ExecRow(parse)("") == None && KeyRow(parse)("") == None
  {
    FindAt("", '\t', 0);
    assert Split("", '\t') == [""];
  }

  /** A lone newline gives the web one empty line and the CLI none, and neither gives a row. */
  lemma SameRows(text: string, n: nat, row: string -> Option<Row>)
    requires n > 0 && row("") == None
    ensures Collect(WebTail(text, n), row) == Collect(CliTail(text, n), row)
  {
    hide Split, Collect;
    LinesAgreeExactly(text);
    EmptyLine(row);
  }

  /** The web report is the command-line report of the repaired logs, and of the logs themselves when they are valid. */
  lemma ReportsAgree(
    bufText: string, cmdText: string, keyText: string, n: nat, parse: ParseFloat, repair: string -> string)
    ensures WebTimeline(bufText, cmdText, keyText, n, parse, repair)
         == CliTimeline(repair(bufText), repair(cmdText), repair(keyText), n, parse)
    ensures repair(bufText) == bufText && repair(cmdText) == cmdText && repair(keyText) == keyText ==>
      WebTimeline(bufText, cmdText, keyText, n, parse, repair) == CliTimeline(bufText, cmdText, keyText, n, parse)
  {
    hide Collect, Filter, Sort, WebTail, CliTail;
    NoFields(parse);
    SameRows(repair(bufText), 6000, BufRow(parse));
    SameRows(repair(cmdText), 6000, ExecRow(parse));
    SameRows(repair(keyText), 12000, KeyRow(parse));
  }
}
