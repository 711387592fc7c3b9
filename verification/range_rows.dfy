/** The rows both range databases are built from: toFixed, the row filter and the sort. */
module RangeRows {
  import opened Options
  import opened Octets
  import opened Ranges
  import opened StableSort

  /** net.IP.To4: the bare form of a four-byte or IPv4-mapped address. */
  function To4(ip: Key): Option<Key> {
    if |ip| == 4 then Some(ip)
    else if |ip| == 16 && (forall i :: 0 <= i < 10 ==> ip[i] == 0) && ip[10] == 0xff == ip[11] then Some(ip[12..])
    else None
  }

  /** The IPv4-mapped form of an address (section 2.5.5.2 of RFC 4291). */
  function Mapped(ip: Key): (b: Key)
    requires |ip| == 4
    ensures |b| == 16
  {
    [0, 0, 0, 0, 0, 0, 0, 0, 0, 0, 0xff, 0xff] + ip
  }

  /** web/netmon/geoip.go `toFixed`. */
  function ToFixed(ip: Option<Key>, width: nat): (k: Option<Key>) {
    if ip.None? then None
    else if width == 4 then To4(ip.value)
    else if To4(ip.value).Some? || |ip.value| != 16 then None
    else Some(ip.value)
  }

  /** A key of a table is as wide as the table, and IPv4 never enters the IPv6 table. */
  lemma ToFixedWidth(ip: Option<Key>, width: nat)
    requires width == 4 || width == 16
    ensures ToFixed(ip, width).Some? ==> |ToFixed(ip, width).value| == width
    ensures ip.Some? && To4(ip.value).Some? ==> ToFixed(ip, 16) == None && ToFixed(ip, 4) == To4(ip.value)
  {}

  /** One CSV record: the parsed addresses (net.ParseIP) and the label. */
  datatype Record<L> = Record(start: Option<Key>, end: Option<Key>, tag: L)

  datatype KeyRow<L> = KeyRow(start: Key, end: Key, tag: L)

  predicate Usable<L>(rec: Record<L>, width: nat) {
    ToFixed(rec.start, width).Some? && ToFixed(rec.end, width).Some?
  }

  function RowOf<L>(rec: Record<L>, width: nat): KeyRow<L>
    requires Usable(rec, width)
  {
    KeyRow(ToFixed(rec.start, width).value, ToFixed(rec.end, width).value, rec.tag)
  }

  predicate Wide<L>(rows: seq<KeyRow<L>>, width: nat) {
    forall i :: 0 <= i < |rows| ==> |rows[i].start| == width && |rows[i].end| == width
  }

  /** The usable rows of a file, in file order. */
  function UsableRows<L>(recs: seq<Record<L>>, width: nat): seq<KeyRow<L>> {
    if recs == [] then [] else
      var (front, last) := (UsableRows(recs[..|recs| - 1], width), recs[|recs| - 1]);
      if Usable(last, width) then front + [RowOf(last, width)] else front
  }

  /** The loop over the CSV records: records that do not fit the table are skipped. */
  method ReadRows<L>(recs: seq<Record<L>>, width: nat) returns (rows: seq<KeyRow<L>>)
    requires width == 4 || width == 16
    ensures rows == UsableRows(recs, width) && Wide(rows, width)
  {
    rows := [];
    var i := 0;
    while i < |recs|
      invariant 0 <= i <= |recs| && rows == UsableRows(recs[..i], width) && Wide(rows, width)
    {
      assert recs[..i + 1][..i] == recs[..i];
      ToFixedWidth(recs[i].start, width);
      ToFixedWidth(recs[i].end, width);
      var sb := ToFixed(recs[i].start, width);
      var eb := ToFixed(recs[i].end, width);
      if sb.Some? && eb.Some? {
        rows := rows + [KeyRow(sb.value, eb.value, recs[i].tag)];
      }
      i := i + 1;
    }
    assert recs[..i] == recs;
  }

  /** sort.Slice by start: some ascending permutation, ties in no fixed order. */
  ghost predicate IsSort<L(!new)>(sort: seq<KeyRow<L>> -> seq<KeyRow<L>>) {
    forall rows :: multiset(sort(rows)) == multiset(rows) && InOrder(sort(rows))
  }

  predicate InOrder<L>(rows: seq<KeyRow<L>>) {
    forall i, j :: 0 <= i < j < |rows| ==> Compare(rows[i].start, rows[j].start) <= 0
  }

  /** The rows as number ranges. */
  function RangesOf<L>(rows: seq<KeyRow<L>>): (rs: seq<Range>)
    ensures |rs| == |rows|
  {
    seq(|rows|, i requires 0 <= i < |rows| => Range(Value(rows[i].start), Value(rows[i].end)))
  }

  lemma SortedRanges<L>(rows: seq<KeyRow<L>>, width: nat)
    requires Wide(rows, width) && InOrder(rows)
    ensures SortedByStart(RangesOf(rows))
  {
    var rs := RangesOf(rows);
    forall i, j | 0 <= i < j < |rs| ensures rs[i].lo <= rs[j].lo {
      CompareIsNumeric(rows[i].start, rows[j].start);
    }
  }

  lemma SortKeepsWide<L>(rows: seq<KeyRow<L>>, sorted: seq<KeyRow<L>>, width: nat)
    requires Wide(rows, width) && multiset(sorted) == multiset(rows)
    ensures Wide(sorted, width) && |sorted| == |rows|
  {
    assert |multiset(sorted)| == |multiset(rows)|;
    forall i | 0 <= i < |sorted| ensures |sorted[i].start| == width && |sorted[i].end| == width {
      assert sorted[i] in multiset(rows);
    }
  }

  predicate RowContains<L>(r: KeyRow<L>, x: nat) {
    Value(r.start) <= x <= Value(r.end)
  }

  /** Looking an address up finds a row that contains it whenever the file has one, however it was sorted. */
  lemma ScanFindsRow<L>(rows: seq<KeyRow<L>>, sorted: seq<KeyRow<L>>, x: nat)
    requires multiset(sorted) == multiset(rows)
    ensures var k := Scan(RangesOf(sorted), x);
      if k >= 0 then sorted[k] in rows && RowContains(sorted[k], x) else forall r :: r in rows ==> !RowContains(r, x)
  {
    var (rs, k) := (RangesOf(sorted), Scan(RangesOf(sorted), x));
    ScanMeaning(rs, x);
    if k >= 0 {
      assert sorted[k] in multiset(rows);
    } else {
      forall r | r in rows ensures !RowContains(r, x) {
        assert r in multiset(sorted);
        var i :| 0 <= i < |sorted| && sorted[i] == r;
        assert !Contains(rs[i], x);
      }
    }
  }

  // ---------------------------------------------------------- what a file says

  /** ip writes the address k of a family: as it is, and for IPv4 also mapped, which is no IPv6 address of its own. */
  ghost predicate Writes(ip: Key, width: nat, k: Key) {
    if width == 4 then |k| == 4 && (ip == k || ip == Mapped(k))
    else |k| == 16 && ip == k && forall v4: Key :: |v4| == 4 ==> k != Mapped(v4)
  }

  lemma To4Exactly(ip: Key, k: Key)
    ensures To4(ip) == Some(k) <==> Writes(ip, 4, k)
    ensures To4(ip).None? <==> forall v4: Key :: |v4| == 4 ==> ip != v4 && ip != Mapped(v4)
  {
    if |k| == 4 {
      assert Mapped(k)[12..] == k;
    }
    if To4(ip).Some? && |ip| == 16 {
      assert ip == Mapped(ip[12..]);
    }
    forall v4: Key | |v4| == 4 && (ip == v4 || ip == Mapped(v4)) ensures To4(ip).Some? {
      assert Mapped(v4)[12..] == v4;
    }
  }

  lemma ToFixedExactly(ip: Key, width: nat, k: Key)
    requires width == 4 || width == 16
    ensures ToFixed(Some(ip), width) == Some(k) <==> Writes(ip, width, k)
  {
    To4Exactly(ip, k);
    hide To4;
  }

  /** An address writes one address of one family. */
  lemma OneFamily(ip: Key)
    ensures forall k: Key :: Writes(ip, 4, k) <==> To4(ip) == Some(k)
    ensures forall k: Key :: Writes(ip, 16, k) <==> To4(ip).None? && |ip| == 16 && ip == k
  {
    forall k: Key ensures Writes(ip, 4, k) <==> To4(ip) == Some(k) {
      To4Exactly(ip, k);
    }
    To4Exactly(ip, ip);
  }

  /** Both ends of a record are addresses of the family. */
  ghost predicate InFamily<L>(rec: Record<L>, width: nat, s: Key, e: Key) {
    rec.start.Some? && rec.end.Some? && Writes(rec.start.value, width, s) && Writes(rec.end.value, width, e)
  }

  /** They are, and x lies between them. */
  ghost predicate Encloses<L>(rec: Record<L>, width: nat, x: Key) {
    exists s: Key, e: Key :: InFamily(rec, width, s, e) && Value(s) <= Value(x) <= Value(e)
  }

  ghost predicate FamilyHas<L(!new)>(recs: seq<Record<L>>, width: nat) {
    exists rec, s: Key, e: Key :: rec in recs && InFamily(rec, width, s, e)
  }

  lemma FamilyRow<L(!new)>(rec: Record<L>, width: nat, s: Key, e: Key)
    requires width == 4 || width == 16
    ensures InFamily(rec, width, s, e) <==> Usable(rec, width) && RowOf(rec, width) == KeyRow(s, e, rec.tag)
  {
    if rec.start.Some? && rec.end.Some? {
      ToFixedExactly(rec.start.value, width, s);
      ToFixedExactly(rec.end.value, width, e);
    }
    hide ToFixed, Writes;
  }

  lemma {:induction false} RowsOfFile<L(!new)>(recs: seq<Record<L>>, width: nat, r: KeyRow<L>)
    ensures r in UsableRows(recs, width) <==> exists rec :: rec in recs && Usable(rec, width) && RowOf(rec, width) == r
    decreases |recs|
  {
    hide Usable, RowOf;
    if recs != [] {
      var (front, last) := (recs[..|recs| - 1], recs[|recs| - 1]);
      RowsOfFile(front, width, r);
      assert recs == front + [last];
    }
  }

  /** A file has usable rows exactly when some record has both ends in the family. */
  lemma UsableExactly<L(!new)>(recs: seq<Record<L>>, width: nat)
    requires width == 4 || width == 16
    ensures UsableRows(recs, width) != [] <==> FamilyHas(recs, width)
  {
    hide Usable, RowOf, InFamily, UsableRows;
    var rows := UsableRows(recs, width);
    if rows != [] {
      RowsOfFile(recs, width, rows[0]);
      var rec :| rec in recs && Usable(rec, width) && RowOf(rec, width) == rows[0];
      TagOfRow(rec, width);
      FamilyRow(rec, width, rows[0].start, rows[0].end);
    }
    if rec, s: Key, e: Key :| rec in recs && InFamily(rec, width, s, e) {
      FamilyRow(rec, width, s, e);
      RowsOfFile(recs, width, KeyRow(s, e, rec.tag));
    }
  }

  lemma TagOfRow<L>(rec: Record<L>, width: nat)
    requires Usable(rec, width)
    ensures RowOf(rec, width).tag == rec.tag
  {}

  /** What a file may answer for x: the label of a record that encloses x, or `none` when no record does. */
  ghost predicate Answered<L(!new)>(recs: seq<Record<L>>, width: nat, x: Key, none: L, tag: L) {
    || (exists rec :: rec in recs && rec.tag == tag && Encloses(rec, width, x))
    || (tag == none && forall rec :: rec in recs ==> !Encloses(rec, width, x))
  }

  /** The label the linear scan finds, whatever order the sort left, answers for the records of the file. */
  lemma FileAnswers<L(!new)>(recs: seq<Record<L>>, width: nat, rows: seq<KeyRow<L>>, x: Key, none: L)
    requires (width == 4 || width == 16) && multiset(rows) == multiset(UsableRows(recs, width))
    ensures var k := Scan(RangesOf(rows), Value(x));
            Answered(recs, width, x, none, if k >= 0 then rows[k].tag else none)
  {
    hide Usable, RowOf, InFamily, UsableRows, Value;
    var k := Scan(RangesOf(rows), Value(x));
    ScanFindsRow(UsableRows(recs, width), rows, Value(x));
    hide RangesOf, Scan;
    if k >= 0 {
      RowsOfFile(recs, width, rows[k]);
      var rec :| rec in recs && Usable(rec, width) && RowOf(rec, width) == rows[k];
      TagOfRow(rec, width);
      FamilyRow(rec, width, rows[k].start, rows[k].end);
      assert Encloses(rec, width, x);
    } else {
      forall rec | rec in recs ensures !Encloses(rec, width, x) {
        if s: Key, e: Key :| InFamily(rec, width, s, e) && Value(s) <= Value(x) <= Value(e) {
          FamilyRow(rec, width, s, e);
          RowsOfFile(recs, width, KeyRow(s, e, rec.tag));
        }
      }
    }
  }

  /** A file whose ranges are nested answers with the most specific row, however it was sorted. */
  lemma NestedRowsAnswerBest<L>(rows: seq<KeyRow<L>>, sorted: seq<KeyRow<L>>, width: nat)
    requires Wide(rows, width) && multiset(sorted) == multiset(rows) && InOrder(sorted)
    requires PairwiseNested(RangesOf(rows))
    ensures AlwaysMostSpecific(RangesOf(sorted))
  {
    var (rs, s) := (RangesOf(rows), RangesOf(sorted));
    SortKeepsWide(rows, sorted, width);
    SortedRanges(sorted, width);
    forall r | r in s ensures r in rs {
      var i :| 0 <= i < |s| && s[i] == r;
      assert sorted[i] in multiset(rows);
      var j :| 0 <= j < |rows| && rows[j] == sorted[i];
      assert rs[j] == r;
    }
    forall x: nat | Scan(s, x) >= 0 ensures MostSpecific(s, s[Scan(s, x)], x) {
      NestedAnswer(rs, s, x);
    }
  }

  function RowStart<L>(): KeyRow<L> -> real {
    (r: KeyRow<L>) => Value(r.start) as real
  }

  /** The row a lookup finds lies within every row that contains the address. */
  ghost predicate AnswersBest<L(!new)>(rows: seq<KeyRow<L>>, width: nat) {
    forall x: Key :: |x| == width && Scan(RangesOf(rows), Value(x)) >= 0 ==>
      MostSpecific(RangesOf(rows), RangesOf(rows)[Scan(RangesOf(rows), Value(x))], Value(x))
  }

  /** Every number that is found is the number of an address. */
  lemma AnswersAreRanges<L(!new)>(rows: seq<KeyRow<L>>, width: nat)
    requires Wide(rows, width)
    ensures AnswersBest(rows, width) <==> AlwaysMostSpecific(RangesOf(rows))
  {
    var rs := RangesOf(rows);
    if AnswersBest(rows, width) {
      forall x: nat | Scan(rs, x) >= 0 ensures MostSpecific(rs, rs[Scan(rs, x)], x) {
        ScanMeaning(rs, x);
        ValueBound(rows[Scan(rs, x)].end);
        BigValue(x, width);
        assert |Big(x, width)| == width;
      }
    }
  }

  /** Whatever sort.Slice does with equal keys, lookups answer best exactly when the rows of the file are nested. */
  lemma LookupsAnswerBestExactly<L(!new)>(
      rows: seq<KeyRow<L>>, width: nat, some: seq<KeyRow<L>> -> seq<KeyRow<L>>)
    requires Wide(rows, width) && IsSort(some)
    ensures (forall sort: seq<KeyRow<L>> -> seq<KeyRow<L>> :: IsSort(sort) ==> AnswersBest(sort(rows), width))
      <==> PairwiseNested(RangesOf(rows))
  {
    if PairwiseNested(RangesOf(rows)) {
      forall sort: seq<KeyRow<L>> -> seq<KeyRow<L>> | IsSort(sort) ensures AnswersBest(sort(rows), width) {
        NestedRowsAnswerBest(rows, sort(rows), width);
        SortKeepsWide(rows, sort(rows), width);
        AnswersAreRanges(sort(rows), width);
      }
    } else {
      var sorted := WorstOrder(rows, width);
      var sort := SortAs(rows, sorted, some);
      assert IsSort(sort) && sort(rows) == sorted;
    }
  }

  /** A sort that leaves one list in a given order. */
  ghost function SortAs<L>(
      rows: seq<KeyRow<L>>, sorted: seq<KeyRow<L>>, some: seq<KeyRow<L>> -> seq<KeyRow<L>>)
    : seq<KeyRow<L>> -> seq<KeyRow<L>>
  {
    (x: seq<KeyRow<L>>) => if x == rows then sorted else some(x)
  }

  /** An order of rows that are not nested with a wrong answer. */
  lemma WorstOrder<L(!new)>(rows: seq<KeyRow<L>>, width: nat) returns (sorted: seq<KeyRow<L>>)
    requires Wide(rows, width) && !PairwiseNested(RangesOf(rows))
    ensures multiset(sorted) == multiset(rows) && InOrder(sorted) && !AnswersBest(sorted, width)
  {
    var rs := RangesOf(rows);
    var i, j :| 0 <= i < |rs| && 0 <= j < |rs| && i != j && StartsInside(rs[j], rs[i]) && rs[j].hi > rs[i].hi;
    var k;
    sorted, k := LastOfItsKey(rows, j, RowStart());
    SortKeepsWide(rows, sorted, width);
    NumericOrder(sorted, width);
    AnswersAreRanges(sorted, width);
    var s := RangesOf(sorted);
    forall m | k < m < |s| ensures !Contains(s[m], rs[j].lo) {
      assert RowStart()(sorted[m]) > RowStart()(rows[j]);
    }
    ScanIs(s, rs[j].lo, k);
    assert rows[i] in multiset(sorted);
    var m :| 0 <= m < |sorted| && sorted[m] == rows[i];
    assert Contains(s[m], rs[j].lo) && s[m] == rs[i] && s[k] == rs[j];
  }

  lemma NumericOrder<L>(rows: seq<KeyRow<L>>, width: nat)
    requires Wide(rows, width) && Sorted(rows, RowStart())
    ensures InOrder(rows)
  {
    forall i, j | 0 <= i < j < |rows| ensures Compare(rows[i].start, rows[j].start) <= 0 {
      CompareIsNumeric(rows[i].start, rows[j].start);
      assert RowStart()(rows[i]) <= RowStart()(rows[j]);
    }
  }

  /** The running maximum of the end keys: row k's entry of maxend. */
  function MaxKey<L>(rows: seq<KeyRow<L>>, k: nat): Key
    requires k < |rows|
  {
    if k == 0 || Compare(rows[k].end, MaxKey(rows, k - 1)) > 0 then rows[k].end else MaxKey(rows, k - 1)
  }

  lemma {:induction false} MaxKeyValue<L>(rows: seq<KeyRow<L>>, width: nat, k: nat)
    requires Wide(rows, width) && k < |rows|
    ensures |MaxKey(rows, k)| == width && Value(MaxKey(rows, k)) == MaxEnd(RangesOf(rows), k)
    decreases k
  {
    if k > 0 {
      MaxKeyValue(rows, width, k - 1);
      CompareIsNumeric(rows[k].end, MaxKey(rows, k - 1));
    }
  }
}
