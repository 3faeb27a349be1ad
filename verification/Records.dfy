/** Records, and what a stack of sorted tables answers when newer tables shadow older ones. */
module Records {
  import opened SortedMap

  datatype Value = Data(text: string) | Tombstone

  type Record = Entry<Value>

  /** The raw map of a stack of tables, oldest first: the last table holding a key decides. */
  function Overlay(tables: seq<seq<Record>>): map<string, Value> {
    if tables == [] then map[]
    else Overlay(tables[..|tables| - 1]) + Contents(tables[|tables| - 1])
  }

  /** What a reader sees: a tombstone counts as absent. */
  function Live(m: map<string, Value>): map<string, string> {
    map k | k in m && m[k].Data? :: m[k].text
  }

  function Reverse<T>(s: seq<T>): (r: seq<T>)
    ensures |r| == |s|
    ensures forall i :: 0 <= i < |s| ==> r[i] == s[|s| - 1 - i]
  {
    seq(|s|, i requires 0 <= i < |s| => s[|s| - 1 - i])
  }

  ghost predicate AllSorted(tables: seq<seq<Record>>) {
    forall i :: 0 <= i < |tables| ==> Sorted(tables[i])
  }

  lemma {:induction false} OverlayConcat(a: seq<seq<Record>>, b: seq<seq<Record>>)
    ensures Overlay(a + b) == Overlay(a) + Overlay(b)
  {
    if b == [] {
      assert a + b == a;
    } else {
      var n := |b| - 1;
      OverlayConcat(a, b[..n]);
      assert (a + b)[..|a + b| - 1] == a + b[..n];
      UnionAssociates(Overlay(a), Overlay(b[..n]), Contents(b[n]));
    }
  }

  lemma {:induction false} UnionAssociates(a: map<string, Value>, b: map<string, Value>, c: map<string, Value>)
    ensures (a + b) + c == a + (b + c)
  {
  }

  lemma {:induction false} OverlaySingle(t: seq<Record>)
    ensures Overlay([t]) == Contents(t)
  {
    assert [t][..0] == [];
    assert Overlay([t][..0]) == map[];
  }

  /** The newest table holding a key decides its value ... */
  lemma {:induction false} OverlayValue(tables: seq<seq<Record>>, i: nat, k: string)
    requires i < |tables| && k in Contents(tables[i])
    requires forall j :: i < j < |tables| ==> k !in Contents(tables[j])
    ensures k in Overlay(tables) && Overlay(tables)[k] == Contents(tables[i])[k]
  {
    if i < |tables| - 1 {
      OverlayValue(tables[..|tables| - 1], i, k);
    }
  }

  /** ... and every key of the stack has such a table. */
  lemma {:induction false} OverlayOrigin(tables: seq<seq<Record>>, k: string) returns (i: nat)
    requires k in Overlay(tables)
    ensures i < |tables| && k in Contents(tables[i])
    ensures forall j :: i < j < |tables| ==> k !in Contents(tables[j])
    ensures Overlay(tables)[k] == Contents(tables[i])[k]
  {
    var n := |tables| - 1;
    if k in Contents(tables[n]) {
      i := n;
    } else {
      i := OverlayOrigin(tables[..n], k);
      assert forall j :: 0 <= j < n ==> tables[..n][j] == tables[j];
    }
  }

  lemma {:induction false} OverlayKeys(tables: seq<seq<Record>>, i: nat, k: string)
    requires i < |tables| && k in Contents(tables[i])
    ensures k in Overlay(tables)
  {
    if i < |tables| - 1 {
      OverlayKeys(tables[..|tables| - 1], i, k);
    }
  }

  /** The sorted listing of a map. */
  ghost function Listing(m: map<string, Value>): (es: seq<Record>)
    ensures Sorted(es) && Contents(es) == m
  {
    if m == map[] then []
    else
      var k :| k in m;
      var rest := Listing(m - {k});
      InsertUpdates(rest, k, m[k]);
      assert (m - {k})[k := m[k]] == m;
      Insert(rest, k, m[k])
  }

  lemma {:induction false} ListingOf(es: seq<Record>)
    requires Sorted(es)
    ensures Listing(Contents(es)) == es
  {
    ListingUnique(es, Listing(Contents(es)));
  }
}
