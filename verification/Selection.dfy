/** Merging some tables of a level and putting the result below the ones left: when nothing visible changes. */
module Selection {
  import opened Seqs
  import opened SortedMap
  import opened Records

  predicate InRange<T>(s: seq<T>, c: seq<nat>) {
    forall p :: 0 <= p < |c| ==> c[p] < |s|
  }

  predicate Distinct(c: seq<nat>) {
    forall p, q :: 0 <= p < q < |c| ==> c[p] != c[q]
  }

  /** The chosen elements in the order of the choice. */
  function Pick<T>(s: seq<T>, c: seq<nat>): (r: seq<T>)
    requires InRange(s, c)
    ensures |r| == |c| && forall p :: 0 <= p < |c| ==> r[p] == s[c[p]]
  {
    seq(|c|, p requires 0 <= p < |c| => s[c[p]])
  }

  /** The elements left, in their old order. */
  function Unchosen<T>(s: seq<T>, c: seq<nat>): seq<T> {
    if s == [] then []
    else Unchosen(s[..|s| - 1], c) + if |s| - 1 in c then [] else [s[|s| - 1]]
  }

  ghost predicate HasKey(t: seq<Record>, k: string) {
    k in Contents(t)
  }

  /** Table `i` holds the newest record of `k`. */
  ghost predicate Newest(ts: seq<seq<Record>>, i: nat, k: string) {
    i < |ts| && HasKey(ts[i], k) && forall j :: i < j < |ts| ==> !HasKey(ts[j], k)
  }

  /** A newer table for `k` would rank above position `p` of the choice once the choice is merged away. */
  ghost predicate Overtaken(ts: seq<seq<Record>>, c: seq<nat>, p: nat, k: string)
    requires InRange(ts, c)
  {
    || (exists j :: 0 <= j < |ts| && j !in c && HasKey(ts[j], k))
    || (exists q :: p < q < |c| && HasKey(ts[c[q]], k))
  }

  /** The condition on a candidate, in terms of the keys the tables hold: wherever a chosen table holds the
      newest record of a key, no table left behind holds that key and no table later in the choice does. */
  ghost predicate KeySafe(ts: seq<seq<Record>>, c: seq<nat>)
    requires InRange(ts, c)
  {
    forall p, k :: 0 <= p < |c| && Newest(ts, c[p], k) ==> !Overtaken(ts, c, p, k)
  }

  /** What the level shows after the merge: the tables left shadow the merged ones. */
  ghost function Merged(ts: seq<seq<Record>>, c: seq<nat>): map<string, Value>
    requires InRange(ts, c)
  {
    Overlay(Pick(ts, c)) + Overlay(Unchosen(ts, c))
  }

  lemma {:induction false} UnchosenLacks(ts: seq<seq<Record>>, c: seq<nat>, k: string)
    requires forall j :: 0 <= j < |ts| && j !in c ==> !HasKey(ts[j], k)
    ensures k !in Overlay(Unchosen(ts, c))
  {
    if ts != [] {
      var n := |ts| - 1;
      UnchosenLacks(ts[..n], c, k);
      UnchosenStep(ts, c);
    }
  }

  lemma {:induction false} UnchosenStep(ts: seq<seq<Record>>, c: seq<nat>)
    requires ts != []
    ensures var n := |ts| - 1;
            Overlay(Unchosen(ts, c)) ==
            if n in c then Overlay(Unchosen(ts[..n], c)) else Overlay(Unchosen(ts[..n], c)) + Contents(ts[n])
  {
    var n := |ts| - 1;
    var u := Unchosen(ts[..n], c);
    InitOfSnoc(u, ts[n]);
    assert Unchosen(ts, c) == if n in c then u else u + [ts[n]];
  }

  /** The newest table left behind decides, among those left. */
  lemma {:induction false} UnchosenDecides(ts: seq<seq<Record>>, c: seq<nat>, i: nat, k: string)
    requires i < |ts| && i !in c && HasKey(ts[i], k)
    requires forall j :: i < j < |ts| && j !in c ==> !HasKey(ts[j], k)
    ensures k in Overlay(Unchosen(ts, c)) && Overlay(Unchosen(ts, c))[k] == Contents(ts[i])[k]
  {
    UnchosenStep(ts, c);
    if i < |ts| - 1 {
      UnchosenDecides(ts[..|ts| - 1], c, i, k);
    }
  }

  /** Some table left behind holds the key: there is a newest one. */
  lemma {:induction false} NewestLeft(ts: seq<seq<Record>>, c: seq<nat>, k: string, j: nat) returns (i: nat)
    requires j < |ts| && j !in c && HasKey(ts[j], k)
    ensures i < |ts| && i !in c && HasKey(ts[i], k)
    ensures forall l :: i < l < |ts| && l !in c ==> !HasKey(ts[l], k)
  {
    var n := |ts| - 1;
    if n !in c && HasKey(ts[n], k) {
      i := n;
    } else {
      i := NewestLeft(ts[..n], c, k, j);
    }
  }

  /** The key after the merge, when a table left behind holds it ... */
  lemma {:induction false} MergedFromLeft(ts: seq<seq<Record>>, c: seq<nat>, k: string, j: nat) returns (i: nat)
    requires InRange(ts, c) && j < |ts| && j !in c && HasKey(ts[j], k)
    ensures i < |ts| && i !in c && HasKey(ts[i], k)
    ensures k in Merged(ts, c) && Merged(ts, c)[k] == Contents(ts[i])[k]
    ensures Newest(ts, j, k) ==> i == j
  {
    i := NewestLeft(ts, c, k, j);
    UnchosenDecides(ts, c, i, k);
  }

  /** ... and when none does: the last chosen table that holds it decides. */
  lemma {:induction false} MergedFromChoice(ts: seq<seq<Record>>, c: seq<nat>, k: string, p: nat) returns (q: nat)
    requires InRange(ts, c) && p < |c| && HasKey(ts[c[p]], k)
    requires forall j :: 0 <= j < |ts| && j !in c ==> !HasKey(ts[j], k)
    ensures p <= q < |c| && HasKey(ts[c[q]], k)
    ensures k in Merged(ts, c) && Merged(ts, c)[k] == Contents(ts[c[q]])[k]
    ensures (forall l :: p < l < |c| ==> !HasKey(ts[c[l]], k)) ==> q == p
  {
    UnchosenLacks(ts, c, k);
    OverlayKeys(Pick(ts, c), p, k);
    q := OverlayOrigin(Pick(ts, c), k);
  }

  lemma {:induction false} NewestHolder(ts: seq<seq<Record>>, k: string) returns (i: nat)
    requires k in Overlay(ts)
    ensures Newest(ts, i, k) && Overlay(ts)[k] == Contents(ts[i])[k]
  {
    i := OverlayOrigin(ts, k);
  }

  /** A merge neither invents nor loses a key. */
  lemma {:induction false} MergedKeys(ts: seq<seq<Record>>, c: seq<nat>, k: string) returns (i: nat)
    requires InRange(ts, c) && k in Merged(ts, c)
    ensures i < |ts| && HasKey(ts[i], k)
  {
    if k in Overlay(Pick(ts, c)) {
      var p := OverlayOrigin(Pick(ts, c), k);
      i := c[p];
    } else if j :| 0 <= j < |ts| && j !in c && HasKey(ts[j], k) {
      i := j;
    } else {
      UnchosenLacks(ts, c, k);
    }
  }

  /** A safe candidate keeps the map, whatever the tables hold. */
  lemma {:induction false} SafeMergeKeeps(ts: seq<seq<Record>>, c: seq<nat>)
    requires InRange(ts, c) && Distinct(c) && KeySafe(ts, c)
    ensures Merged(ts, c) == Overlay(ts)
  {
    forall k | k in Overlay(ts)
      ensures k in Merged(ts, c) && Merged(ts, c)[k] == Overlay(ts)[k]
    {
      SafeKey(ts, c, k);
    }
    forall k | k in Merged(ts, c)
      ensures k in Overlay(ts)
    {
      var i := MergedKeys(ts, c, k);
      OverlayKeys(ts, i, k);
    }
  }

  lemma {:induction false} SafeKey(ts: seq<seq<Record>>, c: seq<nat>, k: string)
    requires InRange(ts, c) && KeySafe(ts, c) && k in Overlay(ts)
    ensures k in Merged(ts, c) && Merged(ts, c)[k] == Overlay(ts)[k]
  {
    var i := NewestHolder(ts, k);
    if i in c {
      var p :| 0 <= p < |c| && c[p] == i;
      assert !Overtaken(ts, c, p, k);
      var q := MergedFromChoice(ts, c, k, p);
    } else {
      var l := MergedFromLeft(ts, c, k, i);
    }
  }

  /** Tables that hold the same keys, with any values. */
  ghost predicate SameKeys(ts: seq<seq<Record>>, us: seq<seq<Record>>) {
    |ts| == |us| && AllSorted(us) && forall i :: 0 <= i < |ts| ==> Contents(us[i]).Keys == Contents(ts[i]).Keys
  }

  /** A value that tells which table it came from. */
  function Mark(i: nat): Value {
    Data(seq(i, _ => 'x'))
  }

  function Marked(t: seq<Record>, i: nat): seq<Record> {
    seq(|t|, j requires 0 <= j < |t| => Entry(t[j].key, Mark(i)))
  }

  lemma {:induction false} MarkedContents(t: seq<Record>, i: nat)
    requires Sorted(t)
    ensures Sorted(Marked(t, i)) && Contents(Marked(t, i)) == map k | k in Contents(t) :: Mark(i)
  {
    ContentsLists(t);
    var m := map k | k in Contents(t) :: Mark(i);
    forall k | k in m
      ensures exists j :: 0 <= j < |Marked(t, i)| && Marked(t, i)[j].key == k
    {
      var j :| 0 <= j < |t| && t[j].key == k;
      assert Marked(t, i)[j].key == k;
    }
    ListsDetermine(Marked(t, i), m);
  }

  /** Every table with values of its own, `n` characters long or more. */
  function MarkedTables(ts: seq<seq<Record>>, n: nat): seq<seq<Record>> {
    seq(|ts|, i requires 0 <= i < |ts| => Marked(ts[i], n + i))
  }

  lemma {:induction false} MarkedTablesContents(ts: seq<seq<Record>>, n: nat)
    requires AllSorted(ts)
    ensures SameKeys(ts, MarkedTables(ts, n))
    ensures forall i, k :: 0 <= i < |ts| && HasKey(ts[i], k) ==> Contents(MarkedTables(ts, n)[i])[k] == Mark(n + i)
  {
    forall i | 0 <= i < |ts|
      ensures Sorted(MarkedTables(ts, n)[i])
      ensures Contents(MarkedTables(ts, n)[i]) == map k | k in Contents(ts[i]) :: Mark(n + i)
    {
      MarkedContents(ts[i], n + i);
    }
  }

  lemma {:induction false} MarkInjective(i: nat, j: nat)
    requires Mark(i) == Mark(j)
    ensures i == j
  {
    assert |Mark(i).text| == i && |Mark(j).text| == j;
  }

  /** Where the condition fails, some contents of the same tables lose a newest record. */
  lemma {:induction false} UnsafeMergeLoses(ts: seq<seq<Record>>, c: seq<nat>, p: nat, k: string)
    requires AllSorted(ts) && InRange(ts, c) && Distinct(c)
    requires p < |c| && Newest(ts, c[p], k) && Overtaken(ts, c, p, k)
    ensures Merged(MarkedTables(ts, 0), c) != Overlay(MarkedTables(ts, 0))
  {
    var us := MarkedTables(ts, 0);
    MarkedTablesContents(ts, 0);
    assert forall j :: 0 <= j < |ts| ==> (HasKey(us[j], k) <==> HasKey(ts[j], k));
    OverlayValue(us, c[p], k);
    var other := OvertakenBy(us, c, p, k);
    if Mark(other) == Mark(c[p]) {
      MarkInjective(other, c[p]);
    }
  }

  lemma {:induction false} OvertakenBy(ts: seq<seq<Record>>, c: seq<nat>, p: nat, k: string) returns (other: nat)
    requires InRange(ts, c) && Distinct(c) && p < |c| && Overtaken(ts, c, p, k)
    ensures other < |ts| && other != c[p] && HasKey(ts[other], k)
    ensures k in Merged(ts, c) && Merged(ts, c)[k] == Contents(ts[other])[k]
  {
    if j :| 0 <= j < |ts| && j !in c && HasKey(ts[j], k) {
      other := MergedFromLeft(ts, c, k, j);
    } else {
      var q :| p < q < |c| && HasKey(ts[c[q]], k);
      var l := MergedFromChoice(ts, c, k, q);
      other := c[l];
    }
  }

  /** The exact condition: a candidate keeps the map for every content the tables may have
      if and only if it is key-safe. */
  lemma {:induction false} MergeKeepsExactly(ts: seq<seq<Record>>, c: seq<nat>)
    requires AllSorted(ts) && InRange(ts, c) && Distinct(c)
    ensures KeySafe(ts, c) <==> forall us: seq<seq<Record>> :: SameKeys(ts, us) ==> Merged(us, c) == Overlay(us)
  {
    if KeySafe(ts, c) {
      forall us: seq<seq<Record>> | SameKeys(ts, us)
        ensures Merged(us, c) == Overlay(us)
      {
        SameKeysSafe(ts, us, c);
        SafeMergeKeeps(us, c);
      }
    } else {
      var p, k :| 0 <= p < |c| && Newest(ts, c[p], k) && Overtaken(ts, c, p, k);
      UnsafeMergeLoses(ts, c, p, k);
      MarkedTablesContents(ts, 0);
    }
  }

  lemma {:induction false} SameKeysSafe(ts: seq<seq<Record>>, us: seq<seq<Record>>, c: seq<nat>)
    requires SameKeys(ts, us) && InRange(ts, c) && KeySafe(ts, c)
    ensures KeySafe(us, c)
  {
    assert forall i, k :: 0 <= i < |ts| ==> (HasKey(us[i], k) <==> HasKey(ts[i], k));
    forall p, k | 0 <= p < |c| && Newest(us, c[p], k)
      ensures !Overtaken(us, c, p, k)
    {
      assert Newest(ts, c[p], k);
      assert !Overtaken(ts, c, p, k);
    }
  }

  /** Ages ascend along the choice, and no older table left behind shares a key with a chosen one. */
  ghost predicate AgeOrdered(ts: seq<seq<Record>>, c: seq<nat>)
    requires InRange(ts, c)
  {
    && (forall p, q :: 0 <= p < q < |c| ==> c[p] < c[q])
    && (forall p, j, k :: 0 <= p < |c| && 0 <= j < c[p] && j !in c && HasKey(ts[c[p]], k) ==> !HasKey(ts[j], k))
  }

  lemma {:induction false} AgeOrderedIsSafe(ts: seq<seq<Record>>, c: seq<nat>)
    requires InRange(ts, c) && AgeOrdered(ts, c)
    ensures KeySafe(ts, c) && Distinct(c)
  {
    forall p, k | 0 <= p < |c| && Newest(ts, c[p], k)
      ensures !Overtaken(ts, c, p, k)
    {
      assert forall q :: p < q < |c| ==> c[p] < c[q];
    }
  }
}
