/** web/netmon/asn.go: the table whose keys are packed into flat arrays. */
module AsnTable {
  import opened Octets
  import opened Options
  import opened Ranges
  import opened RangeRows
  import opened Strides

  datatype Owner = Owner(num: nat, name: string)
  type AsnRow = KeyRow<Owner>

  /** The first `count` keys of a packed array, as a list of keys. */
  ghost predicate Column(packed: Key, width: nat, keys: seq<Key>, count: nat) {
    count <= |keys| && forall i {:trigger keys[i]} :: 0 <= i < count ==> Row(packed, width, i) == keys[i]
  }

  function Starts(rows: seq<AsnRow>): (keys: seq<Key>)
    ensures |keys| == |rows|
  {
    seq(|rows|, i requires 0 <= i < |rows| => rows[i].start)
  }

  function Ends(rows: seq<AsnRow>): (keys: seq<Key>)
    ensures |keys| == |rows|
  {
    seq(|rows|, i requires 0 <= i < |rows| => rows[i].end)
  }

  function MaxEnds(rows: seq<AsnRow>): (keys: seq<Key>)
    ensures |keys| == |rows|
  {
    seq(|rows|, i requires 0 <= i < |rows| => MaxKey(rows, i))
  }

  /** copy(packed[i*width:], key). */
  method PutKey(packed: array<Octet>, width: nat, i: nat, key: Key, ghost keys: seq<Key>)
    requires |key| == width && i < |keys| && keys[i] == key && packed.Length == |keys| * width
    requires Column(packed[..], width, keys, i)
    modifies packed
    ensures Column(packed[..], width, keys, i + 1)
  {
    RowFits(width, i, |keys|);
    ghost var before := packed[..];
    forall k | 0 <= k < width {
      packed[i * width + k] := key[k];
    }
    assert SameOutside(before, packed[..], i * width, (i + 1) * width);
    assert Row(packed[..], width, i) == packed[i * width..i * width + width] == key;
    forall t {:trigger keys[t]} | 0 <= t < i ensures Row(packed[..], width, t) == keys[t] {
      RowKept(before, packed[..], width, i, t);
    }
  }

  /** The loop of `newASNDB`: it fills the packed arrays under a running maximum. */
  method Fill(
      rows: seq<AsnRow>, width: nat, starts: array<Octet>, ends: array<Octet>, maxend: array<Octet>,
      owners: array<Owner>)
    requires Wide(rows, width) && starts != ends && starts != maxend && ends != maxend
    requires starts.Length == ends.Length == maxend.Length == |rows| * width && owners.Length == |rows|
    modifies starts, ends, maxend, owners
    ensures Column(starts[..], width, Starts(rows), |rows|)
    ensures Column(ends[..], width, Ends(rows), |rows|)
    ensures Column(maxend[..], width, MaxEnds(rows), |rows|)
    ensures owners[..] == Owners(rows)
  {
    hide Column, MaxKey;
    NoKeys(starts[..], ends[..], maxend[..], width, rows);
    var mx: Key := [];
    var i := 0;
    while i < |rows|
      invariant 0 <= i <= |rows|
      invariant Column(starts[..], width, Starts(rows), i)
      invariant Column(ends[..], width, Ends(rows), i)
      invariant Column(maxend[..], width, MaxEnds(rows), i)
      invariant owners[..i] == Owners(rows)[..i]
      invariant i > 0 ==> mx == MaxKey(rows, i - 1)
    {
      PutKey(starts, width, i, rows[i].start, Starts(rows));
      PutKey(ends, width, i, rows[i].end, Ends(rows));
      MaxKeyNext(rows, i);
      if i == 0 || Compare(rows[i].end, mx) > 0 {
        mx := rows[i].end;
      }
      MaxKeyValue(rows, width, i);
      PutKey(maxend, width, i, mx, MaxEnds(rows));
      owners[i] := rows[i].tag;
      i := i + 1;
    }
  }

  function Owners(rows: seq<AsnRow>): (owners: seq<Owner>)
    ensures |owners| == |rows|
  {
    seq(|rows|, i requires 0 <= i < |rows| => rows[i].tag)
  }

  lemma MaxKeyNext(rows: seq<AsnRow>, i: nat)
    requires i < |rows|
    ensures MaxKey(rows, i) ==
      if i == 0 || Compare(rows[i].end, MaxKey(rows, i - 1)) > 0 then rows[i].end else MaxKey(rows, i - 1)
  {}

  class AsnDB {
    const width: nat
    const n: nat
    const starts: array<Octet>
    const ends: array<Octet>
    const maxend: array<Octet>
    const owners: array<Owner>
    ghost const rows: seq<AsnRow>

    ghost predicate Valid()
      reads starts, ends, maxend, owners
    {
      && n == |rows| && Wide(rows, width) && InOrder(rows)
      && starts.Length == ends.Length == maxend.Length == n * width
      && Column(starts[..], width, Starts(rows), n)
      && Column(ends[..], width, Ends(rows), n)
      && Column(maxend[..], width, MaxEnds(rows), n)
      && owners[..] == Owners(rows)
    }

    /** web/netmon/asn.go `newASNDB`, from the sorted rows on. */
    constructor (sorted: seq<AsnRow>, width: nat)
      requires Wide(sorted, width) && InOrder(sorted)
      ensures Valid() && rows == sorted && this.width == width
      ensures fresh(starts) && fresh(ends) && fresh(maxend) && fresh(owners)
    {
      this.width, n, rows := width, |sorted|, sorted;
      NonNegative(|sorted|, width);
      starts := new Octet[|sorted| * width](_ => 0);
      ends := new Octet[|sorted| * width](_ => 0);
      maxend := new Octet[|sorted| * width](_ => 0);
      owners := new Owner[|sorted|](_ => Owner(0, ""));
      new;
      Fill(sorted, width, starts, ends, maxend, owners);
    }

    /** web/netmon/asn.go `startAt`, `endAt` and `maxendAt`. */
    method KeyAt(packed: array<Octet>, i: nat, ghost keys: seq<Key>) returns (k: Key)
      requires n == |keys| && i < n && packed.Length == n * width && Column(packed[..], width, keys, n)
      ensures k == keys[i]
    {
      RowFits(width, i, n);
      assert Row(packed[..], width, i) == keys[i];
      k := packed[i * width..(i + 1) * width];
    }

    /** sort.Search over the starts: the first row that starts after x. */
    method FirstAfter(x: Key) returns (idx: nat)
      requires Valid() && |x| == width
      ensures idx <= n
      ensures forall k :: 0 <= k < idx ==> Value(rows[k].start) <= Value(x)
      ensures forall k :: idx <= k < n ==> Value(rows[k].start) > Value(x)
    {
      SortedRanges(rows, width);
      idx := 0;
      var j := n;
      while idx < j
        invariant 0 <= idx <= j <= n
        invariant forall k :: 0 <= k < idx ==> Value(rows[k].start) <= Value(x)
        invariant forall k :: j <= k < n ==> Value(rows[k].start) > Value(x)
      {
        var h := (idx + j) / 2;
        var start := KeyAt(starts, h, Starts(rows));
        CompareIsNumeric(start, x);
        assert forall k :: 0 <= k < n ==> RangesOf(rows)[k].lo == Value(rows[k].start);
        if Compare(start, x) > 0 {
          j := h;
        } else {
          idx := h + 1;
        }
      }
    }

    /** web/netmon/asn.go `find`. */
    method Find(x: Key) returns (found: int)
      requires Valid()
      ensures found == if |x| != width then -1 else Scan(RangesOf(rows), Value(x))
    {
      if n == 0 || |x| != width {
        return -1;
      }
      ghost var (rs, v) := (RangesOf(rows), Value(x));
      var idx := FirstAfter(x);
      var i := idx - 1;
      assert forall k :: idx <= k < n ==> !Contains(rs[k], v);
      if i < 0 {
        ScanIs(rs, v, -1);
        return -1;
      }
      var end := KeyAt(ends, i, Ends(rows));
      CompareIsNumeric(x, end);
      if Compare(x, end) <= 0 {
        ScanIs(rs, v, i);
        return i;
      }
      found := WalkBack(x, i);
    }

    /** The walk back from row i under the running maximum. */
    method WalkBack(x: Key, i: nat) returns (found: int)
      requires Valid() && |x| == width && i < n
      requires forall k :: i <= k < n ==> !Contains(RangesOf(rows)[k], Value(x))
      requires forall k :: 0 <= k <= i ==> Value(rows[k].start) <= Value(x)
      ensures found == Scan(RangesOf(rows), Value(x))
    {
      ghost var (rs, v) := (RangesOf(rows), Value(x));
      var j := i - 1;
      while j >= 0
        invariant -1 <= j < i
        invariant forall k :: j < k < n ==> !Contains(rs[k], v)
      {
        var most := KeyAt(maxend, j, MaxEnds(rows));
        MaxKeyValue(rows, width, j);
        CompareIsNumeric(most, x);
        if Compare(most, x) < 0 {
          NothingBehind(rs, v, j);
          ScanIs(rs, v, -1);
          return -1;
        }
        var start := KeyAt(starts, j, Starts(rows));
        var end := KeyAt(ends, j, Ends(rows));
        CompareIsNumeric(start, x);
        CompareIsNumeric(x, end);
        if Compare(start, x) <= 0 && Compare(x, end) <= 0 {
          ScanIs(rs, v, j);
          return j;
        }
        j := j - 1;
      }
      ScanIs(rs, v, -1);
      found := -1;
    }
  }

  lemma NoKeys(a: Key, b: Key, c: Key, width: nat, rows: seq<AsnRow>)
    ensures Column(a, width, Starts(rows), 0) && Column(b, width, Ends(rows), 0) && Column(c, width, MaxEnds(rows), 0)
  {}

  /** web/netmon/asn.go `newASNDB`; `sort` stands for sort.Slice, null for the error of an empty table. */
  method NewAsnDB(recs: seq<Record<Owner>>, width: nat, sort: seq<AsnRow> -> seq<AsnRow>) returns (db: AsnDB?)
    requires (width == 4 || width == 16) && IsSort(sort)
    ensures db == null <==> !FamilyHas(recs, width)
    ensures db != null ==> db.Valid() && db.width == width && db.rows == sort(UsableRows(recs, width))
  {
    var rows := ReadRows(recs, width);
    UsableExactly(recs, width);
    if rows == [] {
      return null;
    }
    assert multiset(sort(rows)) == multiset(rows);
    SortKeepsWide(rows, sort(rows), width);
    db := new AsnDB(sort(rows), width);
  }

  const UNOWNED := Owner(0, "")

  /** web/netmon/asn.go `asnState`: both tables, published together. */
  class AsnState {
    var v4: AsnDB?
    var v6: AsnDB?
    var ready: bool
    ghost var recs4: seq<Record<Owner>>
    ghost var recs6: seq<Record<Owner>>

    ghost predicate Valid()
      reads this
      reads if v4 == null then {} else {v4.starts, v4.ends, v4.maxend, v4.owners}
      reads if v6 == null then {} else {v6.starts, v6.ends, v6.maxend, v6.owners}
    {
      ready ==> v4 != null && v6 != null && Loaded(v4, recs4, 4) && Loaded(v6, recs6, 16)
    }

    constructor ()
      ensures Valid() && !ready
    {
      v4, v6, ready := null, null, false;
    }

    /** web/netmon/asn.go `loadASN`, on the records of the two files. */
    method Load(file4: seq<Record<Owner>>, file6: seq<Record<Owner>>, sort: seq<AsnRow> -> seq<AsnRow>)
      requires IsSort(sort)
      modifies this
      ensures Valid() && recs4 == file4 && recs6 == file6
      ensures ready <==> FamilyHas(file4, 4) && FamilyHas(file6, 16)
    {
      recs4, recs6 := file4, file6;
      var db4 := NewAsnDB(file4, 4, sort);
      var db6 := NewAsnDB(file6, 16, sort);
      if db4 == null || db6 == null {
        ready := false;
        return;
      }
      v4, v6, ready := db4, db6, true;
    }

    /** web/netmon/asn.go `asnLookup`; `parsed` is what net.ParseIP makes of the text. */
    method AsnLookup(parsed: Option<Key>) returns (num: nat, name: string)
      requires Valid()
      ensures !ready || parsed.None? ==> Owner(num, name) == UNOWNED
      ensures forall x {:trigger Writes(parsed.value, 4, x)} ::
        ready && parsed.Some? && Writes(parsed.value, 4, x) ==> Answered(recs4, 4, x, UNOWNED, Owner(num, name))
      ensures forall x {:trigger Writes(parsed.value, 16, x)} ::
        ready && parsed.Some? && Writes(parsed.value, 16, x) ==> Answered(recs6, 16, x, UNOWNED, Owner(num, name))
    {
      if !ready || parsed.None? {
        return 0, "";
      }
      OneFamily(parsed.value);
      match To4(parsed.value) {
        case Some(key) =>
          num, name := OwnerIn(v4, key, recs4);
        case None =>
          if |parsed.value| != 16 {
            return 0, "";
          }
          num, name := OwnerIn(v6, parsed.value, recs6);
      }
    }

    /** The number and the name of the row that is found. */
    method OwnerIn(db: AsnDB, key: Key, ghost recs: seq<Record<Owner>>) returns (num: nat, name: string)
      requires Loaded(db, recs, |key|) && (|key| == 4 || |key| == 16)
      ensures Answered(recs, |key|, key, UNOWNED, Owner(num, name))
    {
      FileAnswers(recs, |key|, db.rows, key, UNOWNED);
      var i := db.Find(key);
      if i >= 0 {
        return db.owners[i].num, db.owners[i].name;
      }
      return 0, "";
    }
  }

  /** A table of the records of a file. */
  ghost predicate Loaded(db: AsnDB, recs: seq<Record<Owner>>, width: nat)
    reads db.starts, db.ends, db.maxend, db.owners
  {
    db.Valid() && db.width == width && multiset(db.rows) == multiset(UsableRows(recs, width))
  }
}
