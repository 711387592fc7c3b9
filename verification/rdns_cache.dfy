/** The LRU cache with expiry of web/netmon/rdns.go: cacheGet and cachePut. */
module RdnsCache {
  import opened Options

  /** Durations and instants are nanoseconds, as in Go's time package. */
  type Instant = int
  type Host = Option<string>

  const CACHE_CAP: nat := 4096
  const POS_TTL: nat := 6 * 3600 * 1_000_000_000
  const NEG_TTL: nat := 60 * 1_000_000_000

  function Ttl(host: Host): nat {
    if host.Some? then POS_TTL else NEG_TTL
  }

  datatype Entry = Entry(ip: string, host: Host, exp: Instant)

  // ---------------------------------------------------------- the cache as a list of entries

  predicate Distinct(c: seq<Entry>) {
    forall i, j :: 0 <= i < j < |c| ==> c[i].ip != c[j].ip
  }

  predicate Holds(c: seq<Entry>, ip: string) {
    exists i :: 0 <= i < |c| && c[i].ip == ip
  }

  /** Where ip stands in the list, or its length if it is not there. */
  function Position(c: seq<Entry>, ip: string): (p: nat)
    ensures p <= |c|
    ensures p < |c| ==> c[p].ip == ip
    ensures forall i :: 0 <= i < p ==> c[i].ip != ip
  {
    if c == [] || c[0].ip == ip then 0 else 1 + Position(c[1..], ip)
  }

  lemma PositionUnique(c: seq<Entry>, k: nat)
    requires Distinct(c) && k < |c|
    ensures Position(c, c[k].ip) == k
  {}

  /** Removes element k of a list. */
  function Remove<T>(s: seq<T>, k: nat): (rest: seq<T>)
    requires k < |s|
    ensures |rest| == |s| - 1
  {
    s[..k] + s[k + 1..]
  }

  function Drop(c: seq<Entry>, ip: string): seq<Entry> {
    var p := Position(c, ip);
    if p < |c| then Remove(c, p) else c
  }

  datatype Answer = Miss | Hit(host: Host)

  function GetAnswer(c: seq<Entry>, now: Instant, ip: string): Answer {
    var p := Position(c, ip);
    if p < |c| && now <= c[p].exp then Hit(c[p].host) else Miss
  }

  /** A hit moves the entry to the front; an expired entry is removed. */
  function AfterGet(c: seq<Entry>, now: Instant, ip: string): seq<Entry> {
    var p := Position(c, ip);
    if p == |c| then c else if now > c[p].exp then Drop(c, ip) else [c[p]] + Drop(c, ip)
  }

  /** The new entry goes to the front and the list is cut to its capacity. */
  function AfterPut(c: seq<Entry>, now: Instant, ip: string, host: Host): seq<Entry> {
    var grown := [Entry(ip, host, now + Ttl(host))] + Drop(c, ip);
    if |grown| > CACHE_CAP then grown[..CACHE_CAP] else grown
  }

  // ---------------------------------------------------------- the code

  /** A list element: the key is fixed, the entry is overwritten in place. */
  class Item {
    const ip: string
    var host: Host
    var exp: Instant

    constructor (ip: string, host: Host, exp: Instant)
      ensures this.ip == ip && this.host == host && this.exp == exp
    {
      this.ip, this.host, this.exp := ip, host, exp;
    }
  }

  /** The map and the list hold the same keys once, and each key points at its own element. */
  ghost predicate Linked(cache: map<string, Item>, lru: seq<Item>) {
    && (forall i :: 0 <= i < |lru| ==> lru[i].ip in cache && cache[lru[i].ip] == lru[i])
    && (forall ip :: ip in cache ==> cache[ip] in lru && cache[ip].ip == ip)
    && (forall i, j :: 0 <= i < j < |lru| ==> lru[i].ip != lru[j].ip)
  }

  lemma InRemove<T>(s: seq<T>, k: nat, x: T)
    requires k < |s| && x in s && x != s[k]
    ensures x in Remove(s, k)
  {
    var j :| 0 <= j < |s| && s[j] == x;
    assert x == Remove(s, k)[if j < k then j else j - 1];
  }

  lemma LinkedWithout(cache: map<string, Item>, lru: seq<Item>, k: nat)
    requires Linked(cache, lru) && k < |lru|
    ensures Linked(cache - {lru[k].ip}, Remove(lru, k))
  {
    var rest := Remove(lru, k);
    var smaller := cache - {lru[k].ip};
    forall ip | ip in smaller ensures smaller[ip] in rest {
      InRemove(lru, k, cache[ip]);
    }
    forall i | 0 <= i < |rest| ensures rest[i].ip in smaller && smaller[rest[i].ip] == rest[i] {
      assert rest[i] == lru[if i < k then i else i + 1];
    }
  }

  lemma LinkedFront(cache: map<string, Item>, lru: seq<Item>, el: Item)
    requires Linked(cache, lru) && el.ip !in cache
    ensures Linked(cache[el.ip := el], [el] + lru)
  {
    var (grown, more) := ([el] + lru, cache[el.ip := el]);
    forall ip | ip in more ensures more[ip] in grown {
      if ip != el.ip {
        assert cache[ip] in lru;
      }
    }
  }

  lemma LinkedMoved(cache: map<string, Item>, lru: seq<Item>, k: nat)
    requires Linked(cache, lru) && k < |lru|
    ensures Linked(cache, [lru[k]] + Remove(lru, k))
  {
    var el := lru[k];
    LinkedWithout(cache, lru, k);
    LinkedFront(cache - {el.ip}, Remove(lru, k), el);
    assert (cache - {el.ip})[el.ip := el] == cache;
  }

  lemma InList(cache: map<string, Item>, lru: seq<Item>, ip: string)
    requires Linked(cache, lru) && ip in cache
    ensures cache[ip] in lru && cache[ip].ip == ip
  {}

  class Cache {
    var cache: map<string, Item>
    var lru: seq<Item>

    ghost predicate Consistent()
      reads this
    {
      Linked(cache, lru)
    }

    ghost predicate Valid()
      reads this
    {
      Consistent() && |lru| <= CACHE_CAP
    }

    ghost function Contents(): (c: seq<Entry>)
      reads this, lru
      ensures |c| == |lru|
    {
      seq(|lru|, i requires 0 <= i < |lru| reads this, lru => Entry(lru[i].ip, lru[i].host, lru[i].exp))
    }

    constructor ()
      ensures Valid() && Contents() == []
    {
      cache, lru := map[], [];
    }

    /** container/list reaches an element through its pointer; here its place is looked up. */
    method FindElement(el: Item) returns (k: nat)
      requires Consistent() && el in lru
      ensures k < |lru| && lru[k] == el && k == Position(Contents(), el.ip)
    {
      k := 0;
      while lru[k] != el
        invariant 0 <= k < |lru| && el in lru[k..]
        decreases |lru| - k
      {
        k := k + 1;
      }
      PositionUnique(Contents(), k);
    }

    /** lru.MoveToFront(el). */
    method MoveToFront(el: Item, k: nat)
      requires Consistent() && k < |lru| && lru[k] == el
      modifies this`lru
      ensures Consistent() && |lru| == |old(lru)|
      ensures Contents() == [old(Contents())[k]] + Remove(old(Contents()), k)
    {
      hide Linked;
      LinkedMoved(cache, lru, k);
      lru := [el] + Remove(lru, k);
    }

    /** lru.Remove(el) and delete(cache, el.ip). */
    method RemoveElement(el: Item, k: nat)
      requires Consistent() && k < |lru| && lru[k] == el
      modifies this
      ensures Consistent() && |lru| == |old(lru)| - 1
      ensures Contents() == Remove(old(Contents()), k)
    {
      hide Linked;
      LinkedWithout(cache, lru, k);
      lru := Remove(lru, k);
      cache := cache - {el.ip};
    }

    /** lru.PushFront(el) and cache[ip] = el. */
    method PushFront(el: Item)
      requires Consistent() && el.ip !in cache
      modifies this
      ensures Consistent() && |lru| == |old(lru)| + 1
      ensures Contents() == [Entry(el.ip, el.host, el.exp)] + old(Contents())
    {
      hide Linked;
      LinkedFront(cache, lru, el);
      lru := [el] + lru;
      cache := cache[el.ip := el];
    }

    /** web/netmon/rdns.go `cacheGet`. */
    method CacheGet(now: Instant, ip: string) returns (hit: bool, host: Host)
      requires Valid()
      modifies this
      ensures Valid()
      ensures Contents() == AfterGet(old(Contents()), now, ip)
      ensures GetAnswer(old(Contents()), now, ip) == if hit then Hit(host) else Miss
      ensures !hit ==> host == None
    {
      hide Linked, Position, Remove;
      if ip !in cache {
        Absent(ip);
        return false, None;
      }
      var el := cache[ip];
      InList(cache, lru, ip);
      var k := FindElement(el);
      if now > el.exp {
        RemoveElement(el, k);
        return false, None;
      }
      MoveToFront(el, k);
      return true, el.host;
    }

    lemma Absent(ip: string)
      requires Consistent() && ip !in cache
      ensures Position(Contents(), ip) == |lru|
    {}

    /** it.entry = cacheEntry{...}. */
    method Overwrite(el: Item, k: nat, host: Host, exp: Instant)
      requires Consistent() && k < |lru| && lru[k] == el
      modifies el
      ensures Consistent()
      ensures el.host == host && el.exp == exp
      ensures Contents() == old(Contents())[k := Entry(el.ip, host, exp)]
    {
      el.host, el.exp := host, exp;
    }

    /** The first half of `cachePut`: overwrite and move to the front, or push a new element. */
    method Store(ip: string, host: Host, exp: Instant)
      requires Consistent()
      modifies this, lru
      ensures Consistent()
      ensures Contents() == [Entry(ip, host, exp)] + Drop(old(Contents()), ip)
    {
      if ip in cache {
        var el := cache[ip];
        var k := FindElement(el);
        Overwrite(el, k, host, exp);
        MoveToFront(el, k);
      } else {
        Absent(ip);
        ghost var before := Contents();
        var el := new Item(ip, host, exp);
        assert Contents() == before;
        PushFront(el);
      }
    }

    /** The second half of `cachePut`: drop elements from the back until the list fits. */
    method Evict()
      requires Consistent()
      modifies this
      ensures Valid()
      ensures Contents() == if |old(Contents())| > CACHE_CAP then old(Contents())[..CACHE_CAP] else old(Contents())
    {
      hide Linked;
      ghost var grown := Contents();
      while |lru| > CACHE_CAP
        invariant Consistent() && |lru| <= |grown|
        invariant |lru| == |grown| || |lru| >= CACHE_CAP
        invariant Contents() == grown[..|lru|]
      {
        var back := lru[|lru| - 1];
        RemoveElement(back, |lru| - 1);
      }
    }

    /** web/netmon/rdns.go `cachePut`. */
    method CachePut(now: Instant, ip: string, host: Host)
      requires Valid()
      modifies this, lru
      ensures Valid()
      ensures Contents() == AfterPut(old(Contents()), now, ip, host)
    {
      hide Linked, Drop;
      Store(ip, host, now + Ttl(host));
      Evict();
    }
  }
}
