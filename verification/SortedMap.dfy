/** A BTreeMap, held as its in-order listing: entries with strictly ascending keys. */
module SortedMap {
  import opened Seqs
  import opened Order

  datatype Option<+T> = None | Some(value: T)

  datatype Entry<+V> = Entry(key: string, value: V)

  predicate Sorted<V>(es: seq<Entry<V>>) {
    forall i, j :: 0 <= i < j < |es| ==> Less(es[i].key, es[j].key)
  }

  /** The map a listing stands for. */
  function Contents<V>(es: seq<Entry<V>>): map<string, V> {
    if es == [] then map[] else Contents(es[..|es| - 1])[es[|es| - 1].key := es[|es| - 1].value]
  }

  function Find<V>(es: seq<Entry<V>>, key: string): Option<V> {
    if es == [] then None
    else if es[0].key == key then Some(es[0].value)
    else Find(es[1..], key)
  }

  function Insert<V>(es: seq<Entry<V>>, key: string, value: V): seq<Entry<V>> {
    if es == [] || Less(key, es[0].key) then [Entry(key, value)] + es
    else if es[0].key == key then [Entry(key, value)] + es[1..]
    else [es[0]] + Insert(es[1..], key, value)
  }

  function Lookup<V>(m: map<string, V>, key: string): Option<V> {
    if key in m then Some(m[key]) else None
  }

  /** `es` lists exactly the associations of `m`. */
  ghost predicate Lists<V>(es: seq<Entry<V>>, m: map<string, V>) {
    && (forall i :: 0 <= i < |es| ==> es[i].key in m && m[es[i].key] == es[i].value)
    && (forall k :: k in m ==> exists i :: 0 <= i < |es| && es[i].key == k)
  }

  lemma {:induction false} ContentsLists<V>(es: seq<Entry<V>>)
    requires Sorted(es)
    ensures Lists(es, Contents(es))
  {
    if es != [] {
      var n := |es| - 1;
      ContentsLists(es[..n]);
      SnocLists(es[..n], es[n], Contents(es[..n]));
      assert es == es[..n] + [es[n]];
    }
  }

  /** Putting an entry behind a listing of smaller keys. */
  lemma {:induction false} SnocLists<V>(t: seq<Entry<V>>, e: Entry<V>, m: map<string, V>)
    requires Sorted(t) && Lists(t, m)
    requires forall i :: 0 <= i < |t| ==> Less(t[i].key, e.key)
    ensures Sorted(t + [e]) && Lists(t + [e], m[e.key := e.value])
  {
    Strict();
    var r, m' := t + [e], m[e.key := e.value];
    forall k | k in m'
      ensures exists i :: 0 <= i < |r| && r[i].key == k
    {
      if k == e.key {
        assert r[|t|].key == k;
      } else {
        var i :| 0 <= i < |t| && t[i].key == k;
        assert r[i].key == k;
      }
    }
  }

  /** One map has one listing. */
  lemma {:induction false} ListingUnique<V>(a: seq<Entry<V>>, b: seq<Entry<V>>)
    requires Sorted(a) && Sorted(b) && Contents(a) == Contents(b)
    ensures a == b
  {
    ContentsLists(a);
    ContentsLists(b);
    ListingUniqueFor(a, b, Contents(a));
  }

  lemma {:induction false} EmptyListing<V>(a: seq<Entry<V>>, m: map<string, V>)
    requires Lists(a, m)
    ensures a == [] <==> m == map[]
  {
    if a == [] {
      assert forall k :: k !in m;
    } else {
      assert a[0].key in m;
    }
  }

  /** The first entries of two listings of one map are the same: each holds the least key. */
  lemma {:induction false} SameFirst<V>(a: seq<Entry<V>>, b: seq<Entry<V>>, m: map<string, V>)
    requires Sorted(a) && Sorted(b) && Lists(a, m) && Lists(b, m) && a != [] && b != []
    ensures a[0] == b[0] && a[0].key in m
  {
    FirstListed(a, m);
    FirstListed(b, m);
    hide Lists, Sorted, Less;
    LeastFirst(a, m, b[0].key);
    LeastFirst(b, m, a[0].key);
    OneLeast(a[0].key, b[0].key);
  }

  lemma {:induction false} FirstListed<V>(a: seq<Entry<V>>, m: map<string, V>)
    requires Lists(a, m) && a != []
    ensures a[0].key in m && m[a[0].key] == a[0].value
  {
  }

  lemma {:induction false} OneLeast(a: string, b: string)
    requires AtMost(a, b) && AtMost(b, a)
    ensures a == b
  {
    hide Less;
    if a != b {
      LessAsymmetric(a, b);
    }
  }

  lemma {:induction false} ListingUniqueFor<V>(a: seq<Entry<V>>, b: seq<Entry<V>>, m: map<string, V>)
    requires Sorted(a) && Sorted(b) && Lists(a, m) && Lists(b, m)
    ensures a == b
  {
    hide Lists, Sorted;
    EmptyListing(a, m);
    EmptyListing(b, m);
    if a != [] {
      SameFirst(a, b, m);
      TailLists(a, m);
      TailLists(b, m);
      ListingUniqueFor(a[1..], b[1..], m - {a[0].key});
      HeadTail(a);
      HeadTail(b);
    }
  }

  lemma {:induction false} LeastFirst<V>(a: seq<Entry<V>>, m: map<string, V>, k: string)
    requires a != [] && Sorted(a) && Lists(a, m) && k in m
    ensures AtMost(a[0].key, k)
  {
    var i :| 0 <= i < |a| && a[i].key == k;
  }

  lemma {:induction false} TailLists<V>(a: seq<Entry<V>>, m: map<string, V>)
    requires a != [] && Sorted(a) && Lists(a, m)
    ensures Sorted(a[1..]) && Lists(a[1..], m - {a[0].key})
  {
    Strict();
    forall k | k in m - {a[0].key}
      ensures exists i :: 0 <= i < |a[1..]| && a[1..][i].key == k
    {
      var i :| 0 <= i < |a| && a[i].key == k;
      assert a[1..][i - 1].key == k;
    }
  }

  lemma {:induction false} ListsDetermine<V>(es: seq<Entry<V>>, m: map<string, V>)
    requires Sorted(es) && Lists(es, m)
    ensures Contents(es) == m
  {
    ContentsLists(es);
    var c := Contents(es);
    forall k | k in m
      ensures k in c && c[k] == m[k]
    {
      var i :| 0 <= i < |es| && es[i].key == k;
    }
    forall k | k in c
      ensures k in m
    {
      var i :| 0 <= i < |es| && es[i].key == k;
    }
    assert c == m;
  }

  lemma {:induction false} ContentsAppend<V>(es: seq<Entry<V>>, e: Entry<V>)
    ensures Contents(es + [e]) == Contents(es)[e.key := e.value]
  {
    assert (es + [e])[..|es|] == es;
  }

  lemma {:induction false} ContentsConcat<V>(a: seq<Entry<V>>, b: seq<Entry<V>>)
    ensures Contents(a + b) == Contents(a) + Contents(b)
  {
    if b == [] {
      assert a + b == a;
    } else {
      var n := |b| - 1;
      ContentsConcat(a, b[..n]);
      assert (a + b)[..|a + b| - 1] == a + b[..n];
    }
  }

  lemma {:induction false} FindIsLookup<V>(es: seq<Entry<V>>, key: string)
    requires Sorted(es)
    ensures Find(es, key) == Lookup(Contents(es), key)
  {
    if es != [] {
      ContentsTail(es);
      FindIsLookup(es[1..], key);
    }
  }

  lemma {:induction false} ContentsTail<V>(es: seq<Entry<V>>)
    requires Sorted(es) && es != []
    ensures Sorted(es[1..]) && Contents(es[1..]) == Contents(es) - {es[0].key}
    ensures es[0].key in Contents(es) && Contents(es)[es[0].key] == es[0].value
  {
    ContentsLists(es);
    TailLists(es, Contents(es));
    ListsDetermine(es[1..], Contents(es) - {es[0].key});
  }

  /** Inserting into the listing is updating the map. */
  lemma {:induction false} InsertUpdates<V>(es: seq<Entry<V>>, key: string, value: V)
    requires Sorted(es)
    ensures Sorted(Insert(es, key, value))
    ensures Contents(Insert(es, key, value)) == Contents(es)[key := value]
  {
    ContentsLists(es);
    InsertLists(es, Contents(es), key, value);
    ListsDetermine(Insert(es, key, value), Contents(es)[key := value]);
  }

  lemma {:induction false} InsertLists<V>(es: seq<Entry<V>>, m: map<string, V>, key: string, value: V)
    requires Sorted(es) && Lists(es, m)
    ensures Sorted(Insert(es, key, value))
    ensures Lists(Insert(es, key, value), m[key := value])
  {
    Strict();
    var e := Entry(key, value);
    if es == [] || Less(key, es[0].key) {
      forall i | 0 <= i < |es|
        ensures Less(key, es[i].key)
      {
        if i > 0 {
          LessTransitive(key, es[0].key, es[i].key);
        }
      }
      ConsLists(e, es, m);
    } else if es[0].key == key {
      TailLists(es, m);
      ConsLists(e, es[1..], m - {key});
      assert (m - {key})[key := value] == m[key := value];
    } else {
      TailLists(es, m);
      var m' := m - {es[0].key};
      InsertLists(es[1..], m', key, value);
      var t := Insert(es[1..], key, value);
      LessTotal(key, es[0].key);
      forall i | 0 <= i < |t|
        ensures Less(es[0].key, t[i].key)
      {
        if t[i].key != key {
          assert t[i].key in m';
          var j :| 0 <= j < |es[1..]| && es[1..][j].key == t[i].key;
        }
      }
      ConsLists(es[0], t, m'[key := value]);
      assert m'[key := value][es[0].key := es[0].value] == m[key := value];
    }
  }

  /** Putting an entry in front of a listing of larger keys. */
  lemma {:induction false} ConsLists<V>(e: Entry<V>, t: seq<Entry<V>>, m: map<string, V>)
    requires Sorted(t) && Lists(t, m)
    requires forall i :: 0 <= i < |t| ==> Less(e.key, t[i].key)
    ensures Sorted([e] + t) && Lists([e] + t, m[e.key := e.value])
  {
    Strict();
    var r, m' := [e] + t, m[e.key := e.value];
    forall k | k in m'
      ensures exists i :: 0 <= i < |r| && r[i].key == k
    {
      if k == e.key {
        assert r[0].key == k;
      } else {
        var i :| 0 <= i < |t| && t[i].key == k;
        assert r[i + 1].key == k;
      }
    }
  }

  /** Inserting above everything puts at the end. */
  lemma {:induction false} InsertAbove<V>(es: seq<Entry<V>>, e: Entry<V>)
    requires Sorted(es + [e])
    ensures Insert(es, e.key, e.value) == es + [e]
  {
    if es == [] {
      assert [e] + es == es + [e];
    } else {
      var all := es + [e];
      assert all[0] == es[0] && all[|es|] == e && Less(es[0].key, e.key);
      LessAsymmetric(es[0].key, e.key);
      LessIrreflexive(e.key);
      assert es[1..] + [e] == all[1..];
      InsertAbove(es[1..], e);
      ConcatAssociates([es[0]], es[1..], [e]);
      HeadTail(es);
    }
  }
}
