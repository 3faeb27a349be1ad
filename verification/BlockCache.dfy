/** The least-recently-used block cache. */
module BlockCaches {
  import opened Seqs
  import opened SortedMap
  import opened Records

  datatype CacheKey = CacheKey(path: string, offset: nat)

  /** A cache's whole state: the cached blocks and their keys from least to most recently used. */
  datatype Cache = Cache(capacity: nat, blocks: map<CacheKey, seq<Record>>, usage: seq<CacheKey>)

  predicate Distinct(s: seq<CacheKey>) {
    forall i, j :: 0 <= i < j < |s| ==> s[i] != s[j]
  }

  /** The recency list orders the cached keys without repetition and never outgrows the capacity. */
  ghost predicate Consistent(c: Cache) {
    && Distinct(c.usage) && |c.usage| <= c.capacity
    && forall k :: k in c.usage <==> k in c.blocks
  }

  /** VecDeque::retain: the list without one key. */
  function Without(s: seq<CacheKey>, key: CacheKey): seq<CacheKey> {
    if s == [] then [] else (if s[0] == key then [] else [s[0]]) + Without(s[1..], key)
  }

  function Touched(c: Cache, key: CacheKey): Cache {
    if key in c.blocks then c.(usage := Without(c.usage, key) + [key]) else c
  }

  function Stored(c: Cache, key: CacheKey, value: seq<Record>): Cache {
    var usage := (if key in c.blocks then Without(c.usage, key) else c.usage) + [key];
    var blocks := c.blocks[key := value];
    if |blocks| > c.capacity then Cache(c.capacity, blocks - {usage[0]}, usage[1..])
    else Cache(c.capacity, blocks, usage)
  }

  datatype Access = Get(key: CacheKey) | Insert(key: CacheKey, value: seq<Record>)

  function Run(c: Cache, trace: seq<Access>): Cache {
    if trace == [] then c
    else
      var d := Run(c, trace[..|trace| - 1]);
      match trace[|trace| - 1]
      case Get(key) => Touched(d, key)
      case Insert(key, value) => Stored(d, key, value)
  }

  function Empty(capacity: nat): Cache {
    Cache(capacity, map[], [])
  }

  class BlockCache {
    const capacity: nat
    var blocks: map<CacheKey, seq<Record>>
    var usage: seq<CacheKey>

    function State(): Cache
      reads this
    {
      Cache(capacity, blocks, usage)
    }

    constructor (capacity: nat)
      ensures State() == Empty(capacity)
    {
      this.capacity, blocks, usage := capacity, map[], [];
    }

    method Retain(key: CacheKey)
      modifies this`usage
      ensures usage == Without(old(usage), key)
    {
      var kept := [];
      for i := 0 to |usage|
        invariant usage == old(usage) && Without(usage, key) == kept + Without(usage[i..], key)
      {
        WithoutStep(usage[i..], key);
        assert usage[i..][1..] == usage[i + 1..];
        if usage[i] != key {
          kept := kept + [usage[i]];
        }
      }
      usage := kept;
    }

    method Get(key: CacheKey) returns (r: Option<seq<Record>>)
      modifies this
      ensures r == if key in old(blocks) then Some(old(blocks)[key]) else None
      ensures State() == Touched(old(State()), key)
    {
      if key in blocks {
        Retain(key);
        usage := usage + [key];
        return Some(blocks[key]);
      }
      return None;
    }

    method Insert(key: CacheKey, value: seq<Record>)
      modifies this
      ensures State() == Stored(old(State()), key, value)
    {
      if key in blocks {
        Retain(key);
      }
      usage := usage + [key];
      blocks := blocks[key := value];
      if |blocks| > capacity {
        var oldest := usage[0];
        usage := usage[1..];
        blocks := blocks - {oldest};
      }
    }
  }

  lemma {:induction false} WithoutStep(s: seq<CacheKey>, key: CacheKey)
    requires s != []
    ensures Without(s, key) == if s[0] == key then Without(s[1..], key) else [s[0]] + Without(s[1..], key)
  {
  }

  lemma {:induction false} WithoutExact(s: seq<CacheKey>, key: CacheKey)
    requires Distinct(s)
    ensures Distinct(Without(s, key))
    ensures forall k :: k in Without(s, key) <==> k in s && k != key
    ensures |Without(s, key)| == if key in s then |s| - 1 else |s|
    ensures key !in s ==> Without(s, key) == s
  {
    if s != [] {
      var t := Without(s[1..], key);
      WithoutExact(s[1..], key);
      assert forall k :: k in s <==> k == s[0] || k in s[1..];
      if s[0] == key {
        assert Without(s, key) == t;
      } else {
        assert Without(s, key) == [s[0]] + t;
        assert s[0] !in t;
      }
    }
  }

  /** When a key was last asked for or stored, -1 if never. */
  function LastAccess(trace: seq<Access>, key: CacheKey): int {
    if trace == [] then -1
    else if trace[|trace| - 1].key == key then |trace| - 1
    else LastAccess(trace[..|trace| - 1], key)
  }

  lemma {:induction false} LastAccessBound(trace: seq<Access>, key: CacheKey)
    ensures LastAccess(trace, key) < |trace|
  {
    if trace != [] {
      LastAccessBound(trace[..|trace| - 1], key);
    }
  }

  ghost predicate ByRecency(usage: seq<CacheKey>, trace: seq<Access>) {
    forall i, j :: 0 <= i < j < |usage| ==> LastAccess(trace, usage[i]) < LastAccess(trace, usage[j])
  }

  lemma {:induction false} CountKeys(c: Cache)
    requires Distinct(c.usage) && forall k :: k in c.usage <==> k in c.blocks
    ensures |c.blocks| == |c.usage|
  {
    DistinctCount(c.usage);
    assert c.blocks.Keys == set k | k in c.usage;
  }

  lemma {:induction false} DistinctCount(s: seq<CacheKey>)
    requires Distinct(s)
    ensures |set k | k in s| == |s|
  {
    if s != [] {
      DistinctCount(s[1..]);
      assert (set k | k in s) == {s[0]} + set k | k in s[1..];
    }
  }

  /** What lies behind the head of a list by recency, and that the head does not come again. */
  lemma {:induction false} BehindHead(a: seq<CacheKey>, trace: seq<Access>)
    requires a != [] && ByRecency(a, trace)
    ensures ByRecency(a[1..], trace) && forall k :: k in a <==> k == a[0] || k in a[1..]
    ensures a[0] !in a[1..]
  {
    hide LastAccess;
    HeadTail(a);
    forall j | 0 <= j < |a[1..]|
      ensures a[1..][j] != a[0]
    {
      assert LastAccess(trace, a[0]) < LastAccess(trace, a[j + 1]);
    }
  }

  lemma {:induction false} HeadIsOldest(a: seq<CacheKey>, trace: seq<Access>, k: CacheKey)
    requires a != [] && ByRecency(a, trace) && k in a
    ensures k == a[0] || LastAccess(trace, a[0]) < LastAccess(trace, k)
  {
    hide LastAccess;
    var j :| 0 <= j < |a| && a[j] == k;
  }

  lemma {:induction false} HeadInFront(x: CacheKey, t: seq<CacheKey>, trace: seq<Access>)
    requires ByRecency(t, trace) && forall k :: k in t ==> LastAccess(trace, x) < LastAccess(trace, k)
    ensures ByRecency([x] + t, trace)
  {
    hide LastAccess;
    assert forall j :: 0 <= j < |t| ==> t[j] in t;
  }

  /** Moving a key to the back of the list keeps the order by recency. */
  lemma {:induction false} WithoutKeepsOrder(s: seq<CacheKey>, key: CacheKey, trace: seq<Access>)
    requires ByRecency(s, trace)
    ensures ByRecency(Without(s, key), trace) && forall k :: k in Without(s, key) ==> k in s
  {
    if s != [] {
      hide LastAccess, ByRecency;
      var t := Without(s[1..], key);
      BehindHead(s, trace);
      WithoutKeepsOrder(s[1..], key, trace);
      if s[0] == key {
        assert Without(s, key) == t;
      } else {
        forall k | k in t
          ensures LastAccess(trace, s[0]) < LastAccess(trace, k)
        {
          HeadIsOldest(s, trace, k);
        }
        HeadInFront(s[0], t, trace);
      }
    }
  }

  lemma {:induction false} AppendedIsLatest(s: seq<CacheKey>, trace: seq<Access>, a: Access)
    requires ByRecency(s, trace) && a.key !in s
    ensures ByRecency(s, trace + [a]) && ByRecency(s + [a.key], trace + [a])
  {
    assert (trace + [a])[..|trace|] == trace;
    forall i | 0 <= i < |s|
      ensures LastAccess(trace + [a], s[i]) == LastAccess(trace, s[i]) < |trace|
    {
      LastAccessBound(trace, s[i]);
    }
  }

  /** After any trace the cache is consistent and its list runs from the least to the most recently
      accessed key, so the key an overfull insert evicts, the head of the list, is the least recent one. */
  lemma {:induction false} RecencyOrder(capacity: nat, trace: seq<Access>)
    ensures var c := Run(Empty(capacity), trace);
            c.capacity == capacity && Consistent(c) && ByRecency(c.usage, trace)
  {
    if trace != [] {
      var n := |trace| - 1;
      var before, a := trace[..n], trace[n];
      RecencyOrder(capacity, before);
      var c := Run(Empty(capacity), before);
      assert trace == before + [a];
      AccessKeepsOrder(c, before, a);
    }
  }

  /** What both kinds of access do to the order. */
  lemma {:induction false} MovedBack(c: Cache, before: seq<Access>, a: Access)
    requires Consistent(c) && ByRecency(c.usage, before)
    ensures a.key !in c.usage ==> ByRecency(c.usage, before + [a])
    ensures ByRecency(Without(c.usage, a.key) + [a.key], before + [a])
    ensures a.key in c.usage ==> Consistent(c.(usage := Without(c.usage, a.key) + [a.key]))
  {
    var kept := Without(c.usage, a.key);
    WithoutExact(c.usage, a.key);
    WithoutKeepsOrder(c.usage, a.key, before);
    AppendedIsLatest(kept, before, a);
    SnocExact(kept, a.key);
    hide Without, Distinct, ByRecency;
  }

  lemma {:induction false} AccessKeepsOrder(c: Cache, before: seq<Access>, a: Access)
    requires Consistent(c) && ByRecency(c.usage, before)
    ensures var d := match a case Get(key) => Touched(c, key) case Insert(key, value) => Stored(c, key, value);
            d.capacity == c.capacity && Consistent(d) && ByRecency(d.usage, before + [a])
  {
    MovedBack(c, before, a);
    match a
    case Get(key) =>
      hide Without, Distinct, ByRecency;
    case Insert(key, value) =>
      StoredConsistent(c, key, value);
      BehindHead(Without(c.usage, key) + [key], before + [a]);
      hide Without, Distinct, ByRecency, Consistent;
  }

  /** The list with the key at its back, before anything is evicted. */
  lemma {:induction false} GrownExact(c: Cache, key: CacheKey, value: seq<Record>)
    requires Consistent(c)
    ensures var grown := Without(c.usage, key) + [key];
            && Distinct(grown) && |grown| <= c.capacity + 1 && |grown| == |c.blocks[key := value]|
            && forall k :: k in grown <==> k in c.blocks[key := value]
  {
    WithoutExact(c.usage, key);
    var kept := Without(c.usage, key);
    SnocExact(kept, key);
    CountKeys(Cache(c.capacity, c.blocks[key := value], kept + [key]));
    hide Distinct, Without;
  }

  /** The whole effect of storing a block, in terms of what is cached. */
  lemma {:induction false} StoredConsistent(c: Cache, key: CacheKey, value: seq<Record>)
    requires Consistent(c)
    ensures Consistent(Stored(c, key, value))
    ensures var grown, d := Without(c.usage, key) + [key], Stored(c, key, value);
            d.usage == if |grown| > c.capacity then grown[1..] else grown
  {
    hide Without, Distinct, Stored;
    StoredIs(c, key, value);
    GrownExact(c, key, value);
    Evicted(c.capacity, c.blocks[key := value], Without(c.usage, key) + [key]);
  }

  lemma {:induction false} StoredIs(c: Cache, key: CacheKey, value: seq<Record>)
    requires Consistent(c)
    ensures var grown, blocks := Without(c.usage, key) + [key], c.blocks[key := value];
            Stored(c, key, value) == if |grown| > c.capacity then Cache(c.capacity, blocks - {grown[0]}, grown[1..]) else Cache(c.capacity, blocks, grown)
  {
    WithoutExact(c.usage, key);
    GrownExact(c, key, value);
    hide Without, Distinct;
  }

  /** The head leaves the list, and the map with it. */
  lemma {:induction false} Evicted(capacity: nat, blocks: map<CacheKey, seq<Record>>, grown: seq<CacheKey>)
    requires Distinct(grown) && grown != [] && |grown| <= capacity + 1 && forall k :: k in grown <==> k in blocks
    ensures |grown| <= capacity ==> Consistent(Cache(capacity, blocks, grown))
    ensures Consistent(Cache(capacity, blocks - {grown[0]}, grown[1..]))
  {
    TailExact(grown);
    hide Distinct;
  }

  lemma {:induction false} SnocExact(s: seq<CacheKey>, key: CacheKey)
    requires Distinct(s) && key !in s
    ensures Distinct(s + [key]) && forall k :: k in s + [key] <==> k in s || k == key
  {
  }

  lemma {:induction false} TailExact(s: seq<CacheKey>)
    requires Distinct(s) && s != []
    ensures Distinct(s[1..]) && forall k :: k in s[1..] <==> k in s && k != s[0]
  {
    assert s == [s[0]] + s[1..];
  }

  /** `a` is `b` with some entries left out. */
  ghost predicate Subsequence(a: seq<CacheKey>, b: seq<CacheKey>) {
    a == [] || (b != [] && if a[0] == b[0] then Subsequence(a[1..], b[1..]) else Subsequence(a, b[1..]))
  }

  /** Two lists in one order of recency: containment is enough. */
  lemma {:induction false} ContainedIsSubsequence(a: seq<CacheKey>, b: seq<CacheKey>, trace: seq<Access>)
    requires ByRecency(a, trace) && ByRecency(b, trace)
    requires forall k :: k in a ==> k in b
    ensures Subsequence(a, b)
  {
    if a != [] {
      assert a[0] in b;
      hide ByRecency, LastAccess;
      BehindHead(a, trace);
      BehindHead(b, trace);
      if a[0] == b[0] {
        ContainedIsSubsequence(a[1..], b[1..], trace);
      } else {
        HeadIsOldest(b, trace, a[0]);
        if b[0] in a {
          HeadIsOldest(a, trace, b[0]);
        }
        ContainedIsSubsequence(a, b[1..], trace);
      }
    }
  }

  /** LRU inclusion: on one trace the list of the smaller cache is a subsequence of that of the larger. */
  lemma {:induction false} Inclusion(c: nat, d: nat, trace: seq<Access>)
    requires c <= d
    ensures Subsequence(Run(Empty(c), trace).usage, Run(Empty(d), trace).usage)
  {
    RecencyOrder(c, trace);
    RecencyOrder(d, trace);
    Contained(c, d, trace);
    ContainedIsSubsequence(Run(Empty(c), trace).usage, Run(Empty(d), trace).usage, trace);
  }

  /** The smaller cache holds no key the larger one lacks; unless it is full they hold the same list. */
  lemma {:induction false} Contained(c: nat, d: nat, trace: seq<Access>)
    requires c <= d
    ensures var small, large := Run(Empty(c), trace), Run(Empty(d), trace);
            (forall k :: k in small.usage ==> k in large.usage)
            && (|small.usage| < c ==> small.usage == large.usage)
  {
    if trace != [] {
      var n := |trace| - 1;
      var before, a := trace[..n], trace[n];
      Contained(c, d, before);
      RecencyOrder(c, before);
      RecencyOrder(d, before);
      var small, large := Run(Empty(c), before), Run(Empty(d), before);
      match a
      case Get(key) =>
        WithoutExact(small.usage, key);
        WithoutExact(large.usage, key);
      case Insert(key, value) =>
        ContainedInsert(small, large, key, value, before);
    }
  }

  lemma {:induction false} ContainedInsert(small: Cache, large: Cache, key: CacheKey, value: seq<Record>, trace: seq<Access>)
    requires Consistent(small) && Consistent(large) && small.capacity <= large.capacity
    requires ByRecency(small.usage, trace) && ByRecency(large.usage, trace)
    requires forall k :: k in small.usage ==> k in large.usage
    requires |small.usage| < small.capacity ==> small.usage == large.usage
    ensures var s, l := Stored(small, key, value), Stored(large, key, value);
            (forall k :: k in s.usage ==> k in l.usage) && (|s.usage| < small.capacity ==> s.usage == l.usage)
  {
    hide Stored, Without;
    StoredConsistent(small, key, value);
    StoredConsistent(large, key, value);
    WithoutExact(small.usage, key);
    WithoutExact(large.usage, key);
    var s, l := Without(small.usage, key) + [key], Without(large.usage, key) + [key];
    assert forall k :: k in s ==> k in l;
    if |l| > large.capacity && |s| > small.capacity {
      AppendedIsLatest(Without(small.usage, key), trace, Get(key)) by {
        WithoutKeepsOrder(small.usage, key, trace);
      }
      AppendedIsLatest(Without(large.usage, key), trace, Get(key)) by {
        WithoutKeepsOrder(large.usage, key, trace);
      }
      EvictBoth(s, l, trace + [Get(key)]);
    } else if |s| > small.capacity {
      assert forall k :: k in s[1..] ==> k in s;
    } else {
      assert |l| <= large.capacity;
    }
  }

  /** If both caches evict, the key the larger one drops is not kept by the smaller one. */
  lemma {:induction false} EvictBoth(s: seq<CacheKey>, l: seq<CacheKey>, trace: seq<Access>)
    requires s != [] && l != [] && ByRecency(s, trace) && ByRecency(l, trace)
    requires forall k :: k in s ==> k in l
    ensures forall k :: k in s[1..] ==> k in l[1..]
  {
    forall k | k in s[1..]
      ensures k in l[1..]
    {
      var j :| 0 <= j < |s[1..]| && s[1..][j] == k;
      assert LastAccess(trace, s[0]) < LastAccess(trace, s[j + 1]);
      assert s[0] in l && k in l;
      var i :| 0 <= i < |l| && l[i] == s[0];
      var m :| 0 <= m < |l| && l[m] == k;
      assert m > 0;
      assert l[1..][m - 1] == k;
    }
  }
}
