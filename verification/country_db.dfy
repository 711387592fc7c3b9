/** web/netmon/geoip.go: the table that keeps one slice per key. */
module CountryTable {
  import opened Octets
  import opened Options
  import opened Ranges
  import opened RangeRows

  type CountryRow = KeyRow<string>

  class CountryDB {
    const width: nat
    const starts: array<Key>
    const ends: array<Key>
    const ccs: array<string>
    const maxend: array<Key>
    ghost const rows: seq<CountryRow>

    ghost predicate Valid()
      reads starts, ends, ccs, maxend
    {
      && Wide(rows, width) && InOrder(rows)
      && Columns(starts[..], ends[..], ccs[..], maxend[..], rows, |rows|)
    }

    /** web/netmon/geoip.go `newCountryDB`, from the sorted rows on. */
    constructor (sorted: seq<CountryRow>, width: nat)
      requires Wide(sorted, width) && InOrder(sorted)
      ensures Valid() && rows == sorted && this.width == width
    {
      this.width, rows := width, sorted;
      starts := new Key[|sorted|](_ => []);
      ends := new Key[|sorted|](_ => []);
      ccs := new string[|sorted|](_ => "");
      maxend := new Key[|sorted|](_ => []);
      new;
      Fill(sorted, starts, ends, ccs, maxend);
    }

    /** sort.Search over the starts: the first row that starts after x. */
    method FirstAfter(x: Key) returns (idx: nat)
      requires Valid() && |x| == width
      ensures idx <= |rows|
      ensures forall k :: 0 <= k < idx ==> Value(rows[k].start) <= Value(x)
      ensures forall k :: idx <= k < |rows| ==> Value(rows[k].start) > Value(x)
    {
      SortedRanges(rows, width);
      idx := 0;
      var j := starts.Length;
      while idx < j
        invariant 0 <= idx <= j <= |rows|
        invariant forall k :: 0 <= k < idx ==> Value(rows[k].start) <= Value(x)
        invariant forall k :: j <= k < |rows| ==> Value(rows[k].start) > Value(x)
      {
        var h := (idx + j) / 2;
        CompareIsNumeric(starts[h], x);
        assert forall k :: 0 <= k < |rows| ==> RangesOf(rows)[k].lo == Value(rows[k].start);
        if Compare(starts[h], x) > 0 {
          j := h;
        } else {
          idx := h + 1;
        }
      }
    }

    /** The country of the row the linear scan finds, or "". */
    ghost function Answer(x: Key): string
      requires |x| == width
    {
      var k := Scan(RangesOf(rows), Value(x));
      if k >= 0 then rows[k].tag else ""
    }

    /** web/netmon/geoip.go `lookup`. */
    method Lookup(x: Key) returns (cc: string)
      requires Valid()
      ensures cc == if |x| != width then "" else Answer(x)
    {
      if |x| != width {
        return "";
      }
      ghost var (rs, v) := (RangesOf(rows), Value(x));
      var idx := FirstAfter(x);
      var i := idx - 1;
      assert forall k :: idx <= k < |rows| ==> !Contains(rs[k], v);
      if i < 0 {
        ScanIs(rs, v, -1);
        return "";
      }
      CompareIsNumeric(x, ends[i]);
      if Compare(x, ends[i]) <= 0 {
        ScanIs(rs, v, i);
        return ccs[i];
      }
      cc := WalkBack(x, i);
    }

    /** The walk back from row i under the running maximum. */
    method WalkBack(x: Key, i: nat) returns (cc: string)
      requires Valid() && |x| == width && i < |rows|
      requires forall k :: i <= k < |rows| ==> !Contains(RangesOf(rows)[k], Value(x))
      ensures cc == Answer(x)
    {
      ghost var (rs, v) := (RangesOf(rows), Value(x));
      var j := i - 1;
      while j >= 0
        invariant -1 <= j < i
        invariant forall k :: j < k < |rows| ==> !Contains(rs[k], v)
      {
        MaxKeyValue(rows, width, j);
        CompareIsNumeric(maxend[j], x);
        if Compare(maxend[j], x) < 0 {
          NothingBehind(rs, v, j);
          ScanIs(rs, v, -1);
          return "";
        }
        CompareIsNumeric(starts[j], x);
        CompareIsNumeric(x, ends[j]);
        if Compare(starts[j], x) <= 0 && Compare(x, ends[j]) <= 0 {
          ScanIs(rs, v, j);
          return ccs[j];
        }
        j := j - 1;
      }
      ScanIs(rs, v, -1);
      cc := "";
    }
  }

  /** The first `count` entries of every column are those of the rows. */
  ghost predicate Columns(
      starts: seq<Key>, ends: seq<Key>, ccs: seq<string>, maxend: seq<Key>, rows: seq<CountryRow>, count: nat)
  {
    && count <= |rows| == |starts| == |ends| == |ccs| == |maxend|
    && forall i :: 0 <= i < count ==>
      starts[i] == rows[i].start && ends[i] == rows[i].end && ccs[i] == rows[i].tag && maxend[i] == MaxKey(rows, i)
  }

  /** The loop of `newCountryDB`. */
  method Fill(rows: seq<CountryRow>, starts: array<Key>, ends: array<Key>, ccs: array<string>, maxend: array<Key>)
    requires starts.Length == ends.Length == ccs.Length == maxend.Length == |rows|
    requires starts != ends && starts != maxend && ends != maxend
    modifies starts, ends, ccs, maxend
    ensures Columns(starts[..], ends[..], ccs[..], maxend[..], rows, |rows|)
  {
    var mx: Key := [];
    var i := 0;
    while i < |rows|
      invariant 0 <= i <= |rows|
      invariant Columns(starts[..], ends[..], ccs[..], maxend[..], rows, i)
      invariant i > 0 ==> mx == MaxKey(rows, i - 1)
    {
      starts[i], ends[i], ccs[i] := rows[i].start, rows[i].end, rows[i].tag;
      if i == 0 || Compare(rows[i].end, mx) > 0 {
        mx := rows[i].end;
      }
      maxend[i] := mx;
      i := i + 1;
    }
  }

  /** web/netmon/geoip.go `newCountryDB`; `sort` stands for sort.Slice, null for the error of an empty table. */
  method NewCountryDB(recs: seq<Record<string>>, width: nat, sort: seq<CountryRow> -> seq<CountryRow>)
    returns (db: CountryDB?)
    requires (width == 4 || width == 16) && IsSort(sort)
    ensures db == null <==> !FamilyHas(recs, width)
    ensures db != null ==> db.Valid() && db.width == width && db.rows == sort(UsableRows(recs, width))
  {
    var rows := ReadRows(recs, width);
    UsableExactly(recs, width);
    if rows == [] {
      return null;
    }
    assert multiset(sort(rows)) == multiset(rows);
    SortKeepsWide(rows, sort(rows), width);
    db := new CountryDB(sort(rows), width);
  }

  /** web/netmon/geoip.go `geoState`: both tables, published together. */
  class GeoState {
    var v4: CountryDB?
    var v6: CountryDB?
    var ready: bool
    ghost var recs4: seq<Record<string>>
    ghost var recs6: seq<Record<string>>

    ghost predicate Valid()
      reads this
      reads if v4 == null then {} else {v4.starts, v4.ends, v4.maxend, v4.ccs}
      reads if v6 == null then {} else {v6.starts, v6.ends, v6.maxend, v6.ccs}
    {
      ready ==> v4 != null && v6 != null && Loaded(v4, recs4, 4) && Loaded(v6, recs6, 16)
    }

    constructor ()
      ensures Valid() && !ready
    {
      v4, v6, ready := null, null, false;
    }

    /** web/netmon/geoip.go `loadGeoIP`, on the records of the two files. */
    method Load(file4: seq<Record<string>>, file6: seq<Record<string>>, sort: seq<CountryRow> -> seq<CountryRow>)
      requires IsSort(sort)
      modifies this
      ensures Valid() && recs4 == file4 && recs6 == file6
      ensures ready <==> FamilyHas(file4, 4) && FamilyHas(file6, 16)
    {
      recs4, recs6 := file4, file6;
      var db4 := NewCountryDB(file4, 4, sort);
      var db6 := NewCountryDB(file6, 16, sort);
      if db4 == null || db6 == null {
        ready := false;
        return;
      }
      v4, v6, ready := db4, db6, true;
    }

    /** web/netmon/geoip.go `country`; `parsed` is what net.ParseIP makes of the text. */
    method Country(parsed: Option<Key>) returns (cc: string)
      requires Valid()
      ensures !ready || parsed.None? ==> cc == ""
      ensures forall x {:trigger Writes(parsed.value, 4, x)} ::
        ready && parsed.Some? && Writes(parsed.value, 4, x) ==> Answered(recs4, 4, x, "", cc)
      ensures forall x {:trigger Writes(parsed.value, 16, x)} ::
        ready && parsed.Some? && Writes(parsed.value, 16, x) ==> Answered(recs6, 16, x, "", cc)
    {
      if !ready || parsed.None? {
        return "";
      }
      OneFamily(parsed.value);
      match To4(parsed.value) {
        case Some(key) =>
          FileAnswers(recs4, 4, v4.rows, key, "");
          cc := v4.Lookup(key);
        case None =>
          if |parsed.value| != 16 {
            return "";
          }
          FileAnswers(recs6, 16, v6.rows, parsed.value, "");
          cc := v6.Lookup(parsed.value);
      }
    }
  }

  /** A table of the records of a file. */
  ghost predicate Loaded(db: CountryDB, recs: seq<Record<string>>, width: nat)
    reads db.starts, db.ends, db.maxend, db.ccs
  {
    db.Valid() && db.width == width && multiset(db.rows) == multiset(UsableRows(recs, width))
  }
}
