/** Cleaning of PTR names: web/netmon/rdns.go `sanitizeHost`. A string stands for its bytes. */
module RdnsHost {
  const MAX_HOST: nat := 253

  predicate HostByte(c: char) {
    'A' <= c <= 'Z' || 'a' <= c <= 'z' || '0' <= c <= '9' || c == '.' || c == '_' || c == '-'
  }

  /** The host bytes of a name, in order. */
  function Kept(name: string): string {
    if name == [] then [] else
      var (front, last) := (Kept(name[..|name| - 1]), name[|name| - 1]);
      if HostByte(last) then front + [last] else front
  }

  /** strings.TrimRight(h, "."). */
  function TrimDots(h: string): string {
    if h != [] && h[|h| - 1] == '.' then TrimDots(h[..|h| - 1]) else h
  }

  function Capped(h: string): string {
    if |h| > MAX_HOST then h[..MAX_HOST] else h
  }

  function Sanitized(name: string): string {
    TrimDots(Capped(Kept(name)))
  }

  predicate Clean(h: string) {
    (forall i :: 0 <= i < |h| ==> HostByte(h[i])) && |h| <= MAX_HOST && (h != [] ==> h[|h| - 1] != '.')
  }

  const UPPER := "ABCDEFGHIJKLMNOPQRSTUVWXYZ"
  const LOWER := "abcdefghijklmnopqrstuvwxyz"
  const DIGITS := "0123456789"

  /** Letters, digits, dot, underscore and hyphen, and no others. */
  lemma HostBytesListed(c: char)
    ensures HostByte(c) <==> c in UPPER || c in LOWER || c in DIGITS || c in "._-"
  {
    Uppers(c);
    Lowers(c);
    assert c in DIGITS <==> '0' <= c <= '9';
  }

  lemma Uppers(c: char)
    ensures c in UPPER <==> 'A' <= c <= 'Z'
  {}

  lemma Lowers(c: char)
    ensures c in LOWER <==> 'a' <= c <= 'z'
  {}

  method SanitizeHost(name: string) returns (h: string)
    ensures h == Sanitized(name)
  {
    var b := "";
    var i := 0;
    while i < |name|
      invariant 0 <= i <= |name| && b == Kept(name[..i])
    {
      var c := name[i];
      assert name[..i + 1][..i] == name[..i];
      if HostByte(c) {
        b := b + [c];
      }
      i := i + 1;
    }
    assert name[..i] == name;
    h := b;
    if |h| > MAX_HOST {
      h := h[..MAX_HOST];
    }
    while h != [] && h[|h| - 1] == '.'
      invariant TrimDots(h) == Sanitized(name)
      decreases |h|
    {
      h := h[..|h| - 1];
    }
  }

  lemma {:induction false} KeptBytes(name: string)
    ensures forall i :: 0 <= i < |Kept(name)| ==> HostByte(Kept(name)[i])
    ensures (forall i :: 0 <= i < |name| ==> HostByte(name[i])) ==> Kept(name) == name
    decreases |name|
  {
    if name != [] {
      KeptBytes(name[..|name| - 1]);
    }
  }

  lemma {:induction false} TrimFacts(h: string)
    ensures TrimDots(h) <= h
    ensures TrimDots(h) != [] ==> TrimDots(h)[|TrimDots(h)| - 1] != '.'
    ensures forall i :: |TrimDots(h)| <= i < |h| ==> h[i] == '.'
    decreases |h|
  {
    if h != [] && h[|h| - 1] == '.' {
      TrimFacts(h[..|h| - 1]);
    }
  }

  /** The result is always a clean host name, and a name is left alone exactly when it is clean. */
  lemma SanitizedIsClean(name: string)
    ensures Clean(Sanitized(name)) && |Sanitized(name)| <= 253
    ensures Sanitized(name) == name <==> Clean(name)
  {
    KeptBytes(name);
    TrimFacts(Capped(Kept(name)));
  }

  /** Only foreign bytes, whatever lies beyond MAX_HOST, and trailing dots are lost. */
  lemma OnlyDotsTrimmed(name: string)
    ensures Sanitized(name) <= Kept(name)
    ensures forall i :: |Sanitized(name)| <= i < |Kept(name)| && i < 253 ==> Kept(name)[i] == '.'
  {
    TrimFacts(Capped(Kept(name)));
  }
}
