/** strings.Split and strings.Join with a one-character separator. */
module Fields {
  /** The place of the first c, or the length. */
  function Find(s: string, c: char): (k: nat)
    ensures k <= |s|
    ensures k < |s| ==> s[k] == c
    ensures forall i :: 0 <= i < k ==> s[i] != c
  {
    if s == [] || s[0] == c then 0 else 1 + Find(s[1..], c)
  }

  function Split(s: string, c: char): (fs: seq<string>)
    ensures |fs| > 0
    decreases |s|
  {
    var k := Find(s, c);
    if k == |s| then [s] else [s[..k]] + Split(s[k + 1..], c)
  }

  function Join(fs: seq<string>, c: char): string {
    if fs == [] then "" else if |fs| == 1 then fs[0] else fs[0] + [c] + Join(fs[1..], c)
  }

  lemma FindAt(s: string, c: char, k: nat)
    requires k <= |s| && (k < |s| ==> s[k] == c) && forall i :: 0 <= i < k ==> s[i] != c
    ensures Find(s, c) == k
  {}

  /** The parts never hold the separator. */
  lemma {:induction false} PartsAreClean(s: string, c: char)
    ensures forall i :: 0 <= i < |Split(s, c)| ==> c !in Split(s, c)[i]
    decreases |s|
  {
    var k := Find(s, c);
    if k < |s| {
      PartsAreClean(s[k + 1..], c);
    }
  }

  /** Joining the parts gives the string back. */
  lemma {:induction false} JoinSplit(s: string, c: char)
    ensures Join(Split(s, c), c) == s
    decreases |s|
  {
    hide Split, Join;
    var k := Find(s, c);
    if k < |s| {
      var (first, rest) := (s[..k], s[k + 1..]);
      assert s == first + [c] + rest;
      SplitFirst(first, rest, c);
      JoinSplit(rest, c);
      JoinFirst(first, Split(rest, c), c);
    } else {
      NothingSplit(s, c);
    }
  }

  lemma NothingSplit(s: string, c: char)
    requires c !in s
    ensures Split(s, c) == [s] && Join([s], c) == s
  {
    FindAt(s, c, |s|);
  }

  lemma JoinFirst(first: string, more: seq<string>, c: char)
    requires more != []
    ensures Join([first] + more, c) == first + [c] + Join(more, c)
  {
    assert ([first] + more)[1..] == more;
  }

  lemma SplitFirst(first: string, rest: string, c: char)
    requires c !in first
    ensures Split(first + [c] + rest, c) == [first] + Split(rest, c)
  {
    var s := first + [c] + rest;
    FindAt(s, c, |first|);
    assert s[..|first|] == first && s[|first| + 1..] == rest;
  }

  lemma {:induction false} SplitJoin(fs: seq<string>, c: char)
    requires fs != [] && forall i :: 0 <= i < |fs| ==> c !in fs[i]
    ensures Split(Join(fs, c), c) == fs
    decreases |fs|
  {
    var s := Join(fs, c);
    if |fs| == 1 {
      FindAt(s, c, |s|);
    } else {
      var (first, rest) := (fs[0], Join(fs[1..], c));
      SplitJoin(fs[1..], c);
      SplitFirst(first, rest, c);
      assert s == first + [c] + rest;
      assert fs == [first] + fs[1..];
    }
  }

  /** Fields without the separator, and a last text that may hold it. */
  lemma {:induction false} SplitJoinTail(fs: seq<string>, text: string, c: char)
    requires fs != [] && forall i :: 0 <= i < |fs| ==> c !in fs[i]
    ensures Split(Join(fs, c) + [c] + text, c) == fs + Split(text, c)
    decreases |fs|
  {
    hide Split;
    var first := fs[0];
    if |fs| == 1 {
      SplitFirst(first, text, c);
    } else {
      var rest := fs[1..];
      SplitJoinTail(rest, text, c);
      SplitFirst(first, Join(rest, c) + [c] + text, c);
      assert Join(fs, c) + [c] + text == first + [c] + (Join(rest, c) + [c] + text);
      assert fs == [first] + rest;
    }
  }

  /** Splitting recovers the fields that were joined exactly when none of them holds the separator. */
  lemma SplitJoinExactly(fs: seq<string>, c: char)
    requires fs != []
    ensures Split(Join(fs, c), c) == fs <==> forall i :: 0 <= i < |fs| ==> c !in fs[i]
  {
    if forall i :: 0 <= i < |fs| ==> c !in fs[i] {
      SplitJoin(fs, c);
    }
    PartsAreClean(Join(fs, c), c);
  }

  lemma {:induction false} JoinAvoids(fs: seq<string>, c: char, d: char)
    requires c != d && forall i :: 0 <= i < |fs| ==> d !in fs[i]
    ensures d !in Join(fs, c)
    decreases |fs|
  {
    if |fs| > 1 {
      JoinAvoids(fs[1..], c, d);
    }
  }
}
