/** The row cap of web/procmon/procmon.go: `capUnion` and its use in `build`. */
module CapUnion {
  import opened Lists
  import opened StableSort

  const MAX_ROWS: nat := 300

  datatype Proc = Proc(pid: int, name: string, user: string, cpu: real, rss: int, vram: int, threads: int)

  datatype Metric = Cpu | Rss | Vram | Threads

  function Value(m: Metric, p: Proc): real {
    match m
    case Cpu => p.cpu
    case Rss => p.rss as real
    case Vram => p.vram as real
    case Threads => p.threads as real
  }

  /** sort.SliceStable with a descending comparison is an ascending stable sort of the negated metric. */
  function Descending(m: Metric): Proc -> real {
    p => -Value(m, p)
  }

  function Min(a: nat, b: nat): nat {
    if a < b then a else b
  }

  /** The first MAX_ROWS rows by a metric. */
  function Top(rows: seq<Proc>, m: Metric): (t: seq<Proc>)
    ensures |t| == Min(MAX_ROWS, |rows|)
  {
    Sort(rows, Descending(m))[..Min(MAX_ROWS, |rows|)]
  }

  predicate DistinctPids(rows: seq<Proc>) {
    forall i, j :: 0 <= i < j < |rows| ==> rows[i].pid != rows[j].pid
  }

  predicate Leads(rows: seq<Proc>, p: Proc) {
    p in Top(rows, Cpu) || p in Top(rows, Rss) || p in Top(rows, Vram) || p in Top(rows, Threads)
  }

  function LeadsIn(rows: seq<Proc>): Proc -> bool {
    p => Leads(rows, p)
  }

  /** The rows that lead by some metric, in source order. */
  function Leaders(rows: seq<Proc>): seq<Proc> {
    Filter(rows, LeadsIn(rows))
  }

  // ---------------------------------------------------------- the code

  /** keep[r.PID] = r for the rows of one metric. */
  method Keep(rows: seq<Proc>, top: seq<Proc>, keep: map<int, Proc>) returns (more: map<int, Proc>)
    requires forall k :: k in keep ==> keep[k] in rows && keep[k].pid == k
    requires forall p :: p in top ==> p in rows
    ensures forall k :: k in more ==> more[k] in rows && more[k].pid == k
    ensures more.Keys == keep.Keys + set p | p in top :: p.pid
  {
    more := keep;
    var i := 0;
    while i < |top|
      invariant 0 <= i <= |top|
      invariant forall k :: k in more ==> more[k] in rows && more[k].pid == k
      invariant more.Keys == keep.Keys + set p | p in top[..i] :: p.pid
    {
      assert top[..i + 1] == top[..i] + [top[i]];
      more := more[top[i].pid := top[i]];
      i := i + 1;
    }
    assert top[..i] == top;
  }

  lemma TopFromRows(rows: seq<Proc>, m: Metric)
    ensures forall p :: p in Top(rows, m) ==> p in rows
  {
    SortSorted(rows, Descending(m));
    forall p | p in Top(rows, m) ensures p in rows {
      assert p in multiset(Sort(rows, Descending(m)));
    }
  }

  /** web/procmon/procmon.go `capUnion`. */
  method CapUnionRows(rows: seq<Proc>) returns (out: seq<Proc>)
    ensures DistinctPids(rows) ==> out == Leaders(rows)
    ensures forall p :: p in out ==> p in rows
  {
    var keep: map<int, Proc> := map[];
    TopFromRows(rows, Cpu);
    TopFromRows(rows, Rss);
    TopFromRows(rows, Vram);
    TopFromRows(rows, Threads);
    keep := Keep(rows, Top(rows, Cpu), keep);
    keep := Keep(rows, Top(rows, Rss), keep);
    keep := Keep(rows, Top(rows, Vram), keep);
    keep := Keep(rows, Top(rows, Threads), keep);
    if DistinctPids(rows) {
      forall i | 0 <= i < |rows| ensures rows[i].pid in keep.Keys <==> Leads(rows, rows[i]) {
        LeadsByPid(rows, i);
      }
    }
    out := Emit(rows, keep);
  }

  /** The emission loop: rows in source order, each kept pid once. */
  method Emit(rows: seq<Proc>, kept: map<int, Proc>) returns (out: seq<Proc>)
    requires forall k :: k in kept ==> kept[k] in rows && kept[k].pid == k
    requires DistinctPids(rows) ==> forall i :: 0 <= i < |rows| ==> (rows[i].pid in kept <==> Leads(rows, rows[i]))
    ensures DistinctPids(rows) ==> out == Leaders(rows)
    ensures forall p :: p in out ==> p in rows
  {
    hide Leads;
    var keep := kept;
    out := [];
    var i := 0;
    while i < |rows|
      invariant 0 <= i <= |rows|
      invariant forall p :: p in out ==> p in rows
      invariant forall k :: k in keep ==> k in kept && keep[k] == kept[k]
      invariant DistinctPids(rows) ==> forall j :: i <= j < |rows| && rows[j].pid in kept ==> rows[j].pid in keep
      invariant DistinctPids(rows) ==> out == Filter(rows[..i], LeadsIn(rows))
    {
      var r := rows[i];
      assert rows[..i + 1] == rows[..i] + [r];
      FilterPush(rows[..i], r, LeadsIn(rows));
      if r.pid in keep {
        if DistinctPids(rows) {
          OneRow(rows, i, keep[r.pid]);
        }
        out := out + [keep[r.pid]];
        keep := keep - {r.pid};
      }
      i := i + 1;
    }
    assert rows[..i] == rows;
  }

  lemma OneRow(rows: seq<Proc>, i: nat, p: Proc)
    requires DistinctPids(rows) && i < |rows| && p in rows && p.pid == rows[i].pid
    ensures p == rows[i]
  {}

  lemma LeadsByPid(rows: seq<Proc>, i: nat)
    requires DistinctPids(rows) && i < |rows|
    ensures Leads(rows, rows[i]) <==>
      || rows[i].pid in (set p | p in Top(rows, Cpu) :: p.pid) || rows[i].pid in (set p | p in Top(rows, Rss) :: p.pid)
      || rows[i].pid in (set p | p in Top(rows, Vram) :: p.pid)
      || rows[i].pid in (set p | p in Top(rows, Threads) :: p.pid)
  {
    SamePidSameRow(rows, i, Cpu);
    SamePidSameRow(rows, i, Rss);
    SamePidSameRow(rows, i, Vram);
    SamePidSameRow(rows, i, Threads);
  }

  lemma SamePidSameRow(rows: seq<Proc>, i: nat, m: Metric)
    requires DistinctPids(rows) && i < |rows|
    ensures rows[i].pid in (set p | p in Top(rows, m) :: p.pid) <==> rows[i] in Top(rows, m)
  {
    TopFromRows(rows, m);
    hide Top;
    if rows[i].pid in (set p | p in Top(rows, m) :: p.pid) {
      var p :| p in Top(rows, m) && p.pid == rows[i].pid;
      OneRow(rows, i, p);
    }
  }

  // ---------------------------------------------------------- what the cap keeps

  /** Filtering a repeat-free sequence by its own prefix gives the prefix. */
  lemma FilterPrefix<T>(s: seq<T>, k: nat, p: T -> bool)
    requires k <= |s| && forall i :: 0 <= i < |s| ==> p(s[i]) == (i < k)
    ensures Filter(s, p) == s[..k]
  {
    hide Filter;
    var (front, back) := (s[..k], s[k..]);
    assert s == front + back;
    FilterConcat(front, back, p);
    FilterAll(front, p);
    FilterNone(back, p);
    assert front + [] == front;
  }

  lemma {:induction false} FilterNone<T>(s: seq<T>, p: T -> bool)
    requires forall i :: 0 <= i < |s| ==> !p(s[i])
    ensures Filter(s, p) == []
    decreases |s|
  {
    if s != [] {
      FilterNone(s[..|s| - 1], p);
    }
  }

  /** The leaders by any metric are the first rows of what was kept, in the same order. */
  lemma LeadersKeepEveryTop(rows: seq<Proc>, m: Metric)
    ensures Top(Leaders(rows), m) == Top(rows, m)
  {
    var p := LeadsIn(rows);
    var sorted := Sort(rows, Descending(m));
    var k := Min(MAX_ROWS, |rows|);
    SortFilter(rows, Descending(m), p);
    assert sorted == sorted[..k] + sorted[k..];
    FilterConcat(sorted[..k], sorted[k..], p);
    FilterAll(sorted[..k], p);
    assert Filter(sorted, p) == sorted[..k] + Filter(sorted[k..], p);
    assert |Filter(sorted, p)| == |Leaders(rows)|;
    hide Leads, Filter, Sort;
  }

  function InTop(rows: seq<Proc>, m: Metric): Proc -> bool {
    p => p in Top(rows, m)
  }

  /** No metric accounts for more than MAX_ROWS rows. */
  lemma TopIsSmall(rows: seq<Proc>, m: Metric)
    requires DistinctPids(rows)
    ensures |Filter(rows, InTop(rows, m))| <= MAX_ROWS
  {
    var sorted := Sort(rows, Descending(m));
    var k := Min(MAX_ROWS, |rows|);
    SortSorted(rows, Descending(m));
    NoRepeatsByCount(rows, sorted);
    SortFilter(rows, Descending(m), InTop(rows, m));
    forall i | 0 <= i < |sorted| ensures InTop(rows, m)(sorted[i]) == (i < k) {
      if sorted[i] in sorted[..k] {
        var j :| 0 <= j < k && sorted[j] == sorted[i];
      }
    }
    FilterPrefix(sorted, k, InTop(rows, m));
    assert |Sort(Filter(rows, InTop(rows, m)), Descending(m))| == |Filter(rows, InTop(rows, m))|;
    hide Filter, Sort;
  }

  lemma {:induction false} FilterUnion<T>(
      s: seq<T>, all: T -> bool, a: T -> bool, b: T -> bool, c: T -> bool, d: T -> bool)
    requires forall x :: x in s && all(x) ==> a(x) || b(x) || c(x) || d(x)
    ensures |Filter(s, all)| <= |Filter(s, a)| + |Filter(s, b)| + |Filter(s, c)| + |Filter(s, d)|
    decreases |s|
  {
    if s != [] {
      FilterUnion(s[..|s| - 1], all, a, b, c, d);
    }
  }

  lemma LeadersAreFew(rows: seq<Proc>)
    requires DistinctPids(rows)
    ensures |Leaders(rows)| <= 1200
  {
    TopIsSmall(rows, Cpu);
    TopIsSmall(rows, Rss);
    TopIsSmall(rows, Vram);
    TopIsSmall(rows, Threads);
    FilterUnion(rows, LeadsIn(rows), InTop(rows, Cpu), InTop(rows, Rss), InTop(rows, Vram), InTop(rows, Threads));
    hide Filter, Top;
  }

  // ---------------------------------------------------------- the use in build

  /** The rows `build` publishes: capped when there are too many, then sorted by CPU. */
  method PublishRows(rows: seq<Proc>) returns (published: seq<Proc>, total: nat)
    ensures total == |rows|
    ensures DistinctPids(rows) ==> published == Sort(if |rows| > MAX_ROWS then Leaders(rows) else rows, Descending(Cpu))
  {
    total := |rows|;
    var kept := rows;
    if total > MAX_ROWS {
      kept := CapUnionRows(rows);
    }
    published := Sort(kept, Descending(Cpu));
  }

  lemma TopInside(rows: seq<Proc>, m: Metric, published: seq<Proc>)
    requires multiset(published) == multiset(rows)
    ensures multiset(Top(rows, m)) <= multiset(published)
  {
    hide Sort;
    var sorted := Sort(rows, Descending(m));
    SortSorted(rows, Descending(m));
    assert sorted == Top(rows, m) + sorted[Min(MAX_ROWS, |rows|)..];
  }

  /** However the published rows are sorted on screen, the true leaders by that column are among them. */
  lemma PublishedLeaders(rows: seq<Proc>, m: Metric, published: seq<Proc>)
    requires published == Sort(if |rows| > MAX_ROWS then Leaders(rows) else rows, Descending(Cpu))
    ensures published[..Min(MAX_ROWS, |published|)] == Top(rows, Cpu)
    ensures multiset(Top(rows, m)) <= multiset(published)
  {
    hide Leaders, Sort, Top;
    var kept := if |rows| > MAX_ROWS then Leaders(rows) else rows;
    if |rows| > MAX_ROWS {
      LeadersKeepEveryTop(rows, Cpu);
      LeadersKeepEveryTop(rows, m);
    }
    TopOf(kept);
    SortSorted(kept, Descending(Cpu));
    TopInside(kept, m, published);
  }

  lemma TopOf(rows: seq<Proc>)
    ensures Sort(rows, Descending(Cpu))[..Min(MAX_ROWS, |rows|)] == Top(rows, Cpu)
  {}

  /** A row the cap drops is beaten or matched by every leader in each column, and the leaders are published. */
  lemma DroppedAreBeaten(rows: seq<Proc>, q: Proc, published: seq<Proc>)
    requires published == Sort(if |rows| > MAX_ROWS then Leaders(rows) else rows, Descending(Cpu))
    requires q in rows && q !in published
    ensures forall m :: |Top(rows, m)| == 300 && multiset(Top(rows, m)) <= multiset(published)
    ensures forall p :: p in Top(rows, Cpu) ==> p.cpu >= q.cpu
    ensures forall p :: p in Top(rows, Rss) ==> p.rss >= q.rss
    ensures forall p :: p in Top(rows, Vram) ==> p.vram >= q.vram
    ensures forall p :: p in Top(rows, Threads) ==> p.threads >= q.threads
  {
    hide Sort, Top, Leaders;
    SortSorted(if |rows| > MAX_ROWS then Leaders(rows) else rows, Descending(Cpu));
    assert |rows| > MAX_ROWS by {
      assert q in multiset(rows);
    }
    assert q !in Leaders(rows) by {
      assert q !in multiset(published);
    }
    forall m ensures |Top(rows, m)| == 300 && multiset(Top(rows, m)) <= multiset(published) {
      PublishedLeaders(rows, m, published);
    }
    NoLeader(rows, q);
    BehindTop(rows, q, Cpu);
    BehindTop(rows, q, Rss);
    BehindTop(rows, q, Vram);
    BehindTop(rows, q, Threads);
  }

  lemma NoLeader(rows: seq<Proc>, q: Proc)
    requires q in rows && q !in Leaders(rows)
    ensures forall m :: q !in Top(rows, m)
  {
    FilterMembers(rows, LeadsIn(rows));
    hide Top, Filter;
    forall m ensures q !in Top(rows, m) {
      match m
      case Cpu =>
      case Rss =>
      case Vram =>
      case Threads =>
    }
  }

  lemma TopAt(rows: seq<Proc>, m: Metric, i: nat)
    requires i < |rows|
    ensures i < Min(MAX_ROWS, |rows|) ==> Sort(rows, Descending(m))[i] in Top(rows, m)
  {
    if i < Min(MAX_ROWS, |rows|) {
      assert Top(rows, m)[i] == Sort(rows, Descending(m))[i];
    }
  }

  lemma BehindTop(rows: seq<Proc>, q: Proc, m: Metric)
    requires q in rows && q !in Top(rows, m)
    ensures forall p :: p in Top(rows, m) ==> Value(m, p) >= Value(m, q)
  {
    var sorted := Sort(rows, Descending(m));
    SortSorted(rows, Descending(m));
    assert q in multiset(sorted);
    var i :| 0 <= i < |sorted| && sorted[i] == q;
    TopAt(rows, m, i);
    forall p | p in Top(rows, m) ensures Value(m, p) >= Value(m, q) {
      var j :| 0 <= j < |Top(rows, m)| && Top(rows, m)[j] == p;
      assert sorted[j] == p && j < i;
      assert Descending(m)(sorted[j]) <= Descending(m)(sorted[i]);
    }
    hide Sort;
  }
}
