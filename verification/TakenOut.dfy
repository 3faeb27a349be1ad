/** Tables taken out of a stack, and some of their keys listed again: when a reader sees no difference for the keys that
    the log does not know. */
module TakenOut {
  import opened SortedMap
  import opened Records
  import opened Selection
  import opened Recovery

  /** A reader is told the same for every key but the empty one that the log does not know. */
  ghost predicate Agree(a: map<string, Value>, b: map<string, Value>, logged: set<string>) {
    forall k :: k != "" && k !in logged ==> Answer(Lookup(a, k)) == Answer(Lookup(b, k))
  }

  /** Every key whose newest record lies in a table taken out is logged. */
  ghost predicate NewestLogged(ts: seq<seq<Record>>, out: seq<nat>, logged: set<string>) {
    forall i, k :: i in out && Newest(ts, i, k) && k != "" ==> k in logged
  }

  lemma {:induction false} SameNewest(ts: seq<seq<Record>>, us: seq<seq<Record>>)
    requires SameKeys(ts, us)
    ensures forall i, k :: 0 <= i < |ts| ==> (HasKey(us[i], k) <==> HasKey(ts[i], k))
    ensures forall i, k :: Newest(us, i, k) <==> Newest(ts, i, k)
  {
    hide Contents;
    forall i, k | 0 <= i < |ts|
      ensures HasKey(us[i], k) <==> HasKey(ts[i], k)
    {
      assert Contents(us[i]).Keys == Contents(ts[i]).Keys;
    }
  }

  /** Keys whose newest record stays are found as before. */
  lemma {:induction false} NewestStays(ts: seq<seq<Record>>, out: seq<nat>, k: string)
    requires forall i :: i in out ==> !Newest(ts, i, k)
    ensures Lookup(Overlay(Unchosen(ts, out)), k) == Lookup(Overlay(ts), k)
  {
    hide Overlay, Unchosen, Contents;
    if k in Overlay(ts) {
      var i := NewestHolder(ts, k);
      UnchosenDecides(ts, out, i, k);
    } else {
      NoneHolds(ts, k);
      UnchosenLacks(ts, out, k);
    }
  }

  lemma {:induction false} NoneHolds(ts: seq<seq<Record>>, k: string)
    requires k !in Overlay(ts)
    ensures forall j :: 0 <= j < |ts| ==> !HasKey(ts[j], k)
  {
    hide Overlay, Contents;
    forall j | 0 <= j < |ts|
      ensures !HasKey(ts[j], k)
    {
      if HasKey(ts[j], k) {
        OverlayKeys(ts, j, k);
      }
    }
  }

  /** Where a newest record goes, some contents of the same tables show it. */
  lemma {:induction false} NewestGoes(ts: seq<seq<Record>>, out: seq<nat>, i: nat, k: string)
    requires AllSorted(ts) && i in out && Newest(ts, i, k)
    ensures var us := MarkedTables(ts, 0); Answer(Lookup(Overlay(Unchosen(us, out)), k)) != Answer(Lookup(Overlay(us), k))
  {
    hide Overlay, Unchosen, Contents, Sorted;
    var us := MarkedTables(ts, 0);
    MarkedTablesContents(ts, 0);
    SameNewest(ts, us);
    OverlayValue(us, i, k);
    if j :| 0 <= j < |us| && j !in out && HasKey(us[j], k) {
      var l := NewestLeft(us, out, k, j);
      UnchosenDecides(us, out, l, k);
      if Mark(l) == Mark(i) {
        MarkInjective(l, i);
      }
    } else {
      UnchosenLacks(us, out, k);
    }
  }

  /** The exact condition: for every content the tables may have, taking some out shows for no unlogged key if and only
      if every key whose newest record they hold is logged. */
  lemma {:induction false} TakenOutExactly(ts: seq<seq<Record>>, out: seq<nat>, logged: set<string>)
    requires AllSorted(ts)
    ensures NewestLogged(ts, out, logged) <==>
            forall us: seq<seq<Record>> :: SameKeys(ts, us) ==> Agree(Overlay(Unchosen(us, out)), Overlay(us), logged)
  {
    if NewestLogged(ts, out, logged) {
      forall us: seq<seq<Record>> | SameKeys(ts, us)
        ensures Agree(Overlay(Unchosen(us, out)), Overlay(us), logged)
      {
        SameNewest(ts, us);
        forall k | k != "" && k !in logged
          ensures Answer(Lookup(Overlay(Unchosen(us, out)), k)) == Answer(Lookup(Overlay(us), k))
        {
          NewestStays(us, out, k);
        }
      }
    } else {
      var i, k :| i in out && Newest(ts, i, k) && k != "" && k !in logged;
      NewestGoes(ts, out, i, k);
      MarkedTablesContents(ts, 0);
    }
  }

  function Restricted(m: map<string, Value>, keys: set<string>): map<string, Value> {
    map k | k in m && k in keys :: m[k]
  }

  /** Over `low`: the merge of the chosen tables as far as its keys are listed again, under the tables not taken out. */
  ghost function Relisted(low: map<string, Value>, ts: seq<seq<Record>>, c: seq<nat>, out: seq<nat>, again: set<string>): map<string, Value>
    requires InRange(ts, c)
  {
    low + Restricted(Overlay(Pick(ts, c)), again) + Overlay(Unchosen(ts, out))
  }

  /** Every unlogged key whose newest record a table taken out holds is listed again, and comes out of the merge with
      that record. */
  ghost predicate NewestRelisted(ts: seq<seq<Record>>, c: seq<nat>, out: seq<nat>, again: set<string>, logged: set<string>)
    requires InRange(ts, c)
  {
    forall p, k :: 0 <= p < |c| && c[p] in out && Newest(ts, c[p], k) && k != "" && k !in logged ==>
      k in again && !Overtaken(ts, c, p, k)
  }

  /** Chosen tables go, and what is listed again is listed when all of them are gone. */
  ghost predicate Going(c: seq<nat>, out: seq<nat>, again: set<string>) {
    (forall i :: i in out ==> i in c) && (again != {} ==> forall i :: i in c ==> i in out)
  }

  lemma {:induction false} SameOvertaken(ts: seq<seq<Record>>, us: seq<seq<Record>>, c: seq<nat>, p: nat, k: string)
    requires SameKeys(ts, us) && InRange(ts, c)
    ensures Overtaken(us, c, p, k) <==> Overtaken(ts, c, p, k)
  {
    SameNewest(ts, us);
    hide HasKey, Newest;
  }

  lemma {:induction false} RelistedAgrees(low: map<string, Value>, ts: seq<seq<Record>>, c: seq<nat>, out: seq<nat>, again: set<string>,
                                          logged: set<string>, k: string)
    requires InRange(ts, c) && Going(c, out, again) && NewestRelisted(ts, c, out, again, logged) && k != "" && k !in logged
    ensures Lookup(Relisted(low, ts, c, out, again), k) == Lookup(low + Overlay(ts), k)
  {
    hide Overlay, Unchosen, Contents, Pick;
    if k in Overlay(ts) {
      var i := NewestHolder(ts, k);
      if i in out {
        var p :| 0 <= p < |c| && c[p] == i;
        assert k in again && !Overtaken(ts, c, p, k);
        UnchosenLacks(ts, out, k);
        UnchosenLacks(ts, c, k);
        var q := MergedFromChoice(ts, c, k, p);
      } else {
        UnchosenDecides(ts, out, i, k);
      }
    } else {
      NoneHolds(ts, k);
      UnchosenLacks(ts, out, k);
      PickLacks(ts, c, k);
    }
  }

  lemma {:induction false} PickLacks(ts: seq<seq<Record>>, c: seq<nat>, k: string)
    requires InRange(ts, c) && forall p :: 0 <= p < |c| ==> !HasKey(ts[c[p]], k)
    ensures k !in Overlay(Pick(ts, c))
  {
    if k in Overlay(Pick(ts, c)) {
      var q := OverlayOrigin(Pick(ts, c), k);
    }
  }

  /** A length above that of whatever text a map has for the key. */
  function Beyond(m: map<string, Value>, k: string): nat {
    if k in m && m[k].Data? then |m[k].text| + 1 else 0
  }

  /** Where the condition fails, some contents of the same tables show it. */
  lemma {:induction false} NewestLost(low: map<string, Value>, ts: seq<seq<Record>>, c: seq<nat>, out: seq<nat>, again: set<string>, p: nat, k: string)
    requires AllSorted(ts) && InRange(ts, c) && Distinct(c) && Going(c, out, again)
    requires p < |c| && c[p] in out && Newest(ts, c[p], k) && (k !in again || Overtaken(ts, c, p, k))
    ensures var us := MarkedTables(ts, Beyond(low, k));
            InRange(us, c) && Answer(Lookup(Relisted(low, us, c, out, again), k)) != Answer(Lookup(low + Overlay(us), k))
  {
    hide Overlay, Unchosen, Contents, Sorted, Pick;
    var n := Beyond(low, k);
    var us := MarkedTables(ts, n);
    MarkedTablesContents(ts, n);
    SameNewest(ts, us);
    SameOvertaken(ts, us, c, p, k);
    OverlayValue(us, c[p], k);
    if j :| 0 <= j < |us| && j !in out && HasKey(us[j], k) {
      var l := NewestLeft(us, out, k, j);
      UnchosenDecides(us, out, l, k);
      assert n + l != n + c[p];
      AnotherMark(n + l, n + c[p]);
    } else {
      UnchosenLacks(us, out, k);
      if k in again {
        var q := LaterChosen(us, c, p, k);
        assert n + c[q] != n + c[p];
        AnotherMark(n + c[q], n + c[p]);
      }
    }
  }

  lemma {:induction false} AnotherMark(i: nat, j: nat)
    requires i != j
    ensures Answer(Some(Mark(i))) != Answer(Some(Mark(j)))
  {
    assert |Mark(i).text| == i && |Mark(j).text| == j;
  }

  /** The choice overtaken by a later one only: that one decides the merge. */
  lemma {:induction false} LaterChosen(us: seq<seq<Record>>, c: seq<nat>, p: nat, k: string) returns (q: nat)
    requires InRange(us, c) && Distinct(c) && p < |c| && HasKey(us[c[p]], k) && Overtaken(us, c, p, k)
    requires forall j :: 0 <= j < |us| && j !in c ==> !HasKey(us[j], k)
    ensures q < |c| && c[q] != c[p] && HasKey(us[c[q]], k)
    ensures k in Overlay(Pick(us, c)) && Overlay(Pick(us, c))[k] == Contents(us[c[q]])[k]
  {
    hide Overlay, Unchosen, Contents, Pick;
    var l :| p < l < |c| && HasKey(us[c[l]], k);
    q := MergedFromChoice(us, c, k, l);
    UnchosenLacks(us, c, k);
  }

  /** The exact condition, in the style of a merge's: for every content the tables may have, with the same keys listed
      again, a reader sees no difference for any unlogged key if and only if their newest records are all relisted. */
  lemma {:induction false} RelistedExactly(low: map<string, Value>, ts: seq<seq<Record>>, c: seq<nat>, out: seq<nat>, again: set<string>, logged: set<string>)
    requires AllSorted(ts) && InRange(ts, c) && Distinct(c) && Going(c, out, again)
    ensures NewestRelisted(ts, c, out, again, logged) <==>
            forall us: seq<seq<Record>> :: SameKeys(ts, us) ==> Agree(Relisted(low, us, c, out, again), low + Overlay(us), logged)
  {
    hide Relisted, Going, Overlay;
    if NewestRelisted(ts, c, out, again, logged) {
      forall us: seq<seq<Record>> | SameKeys(ts, us)
        ensures Agree(Relisted(low, us, c, out, again), low + Overlay(us), logged)
      {
        SameRelisted(ts, us, c, out, again, logged);
        forall k | k != "" && k !in logged
          ensures Answer(Lookup(Relisted(low, us, c, out, again), k)) == Answer(Lookup(low + Overlay(us), k))
        {
          RelistedAgrees(low, us, c, out, again, logged, k);
        }
      }
    } else {
      var p, k :| 0 <= p < |c| && c[p] in out && Newest(ts, c[p], k) && k != "" && k !in logged && !(k in again && !Overtaken(ts, c, p, k));
      NewestLost(low, ts, c, out, again, p, k);
      MarkedTablesContents(ts, Beyond(low, k));
    }
  }

  lemma {:induction false} NothingUnder(m: map<string, Value>)
    ensures map[] + m == m
  {
  }

  /** The same with nothing below. */
  lemma {:induction false} RelistedAlone(ts: seq<seq<Record>>, c: seq<nat>, out: seq<nat>, again: set<string>, logged: set<string>)
    requires AllSorted(ts) && InRange(ts, c) && Distinct(c) && Going(c, out, again)
    ensures NewestRelisted(ts, c, out, again, logged) <==>
            forall us: seq<seq<Record>> :: SameKeys(ts, us) ==> Agree(Relisted(map[], us, c, out, again), Overlay(us), logged)
  {
    hide Relisted, Going, Overlay, NewestRelisted, Agree, SameKeys;
    RelistedExactly(map[], ts, c, out, again, logged);
    forall us: seq<seq<Record>>
      ensures map[] + Overlay(us) == Overlay(us)
    {
      NothingUnder(Overlay(us));
    }
    assert forall us: seq<seq<Record>> :: SameKeys(ts, us) ==> InRange(us, c) by {
      SameLength(ts, c);
    }
  }

  lemma {:induction false} SameLength(ts: seq<seq<Record>>, c: seq<nat>)
    requires InRange(ts, c)
    ensures forall us: seq<seq<Record>> :: SameKeys(ts, us) ==> InRange(us, c)
  {
  }

  /** A choice in the order of age, with no older table left behind that has the key. */
  lemma {:induction false} NotOvertaken(ts: seq<seq<Record>>, c: seq<nat>, p: nat, k: string)
    requires InRange(ts, c) && p < |c| && Newest(ts, c[p], k) && forall q :: p < q < |c| ==> c[p] < c[q]
    requires forall j :: 0 <= j < c[p] && j !in c ==> !HasKey(ts[j], k)
    ensures !Overtaken(ts, c, p, k)
  {
    hide HasKey;
    assert c[p] in c;
    forall j | 0 <= j < |ts| && j !in c
      ensures !HasKey(ts[j], k)
    {
    }
  }

  lemma {:induction false} SameRelisted(ts: seq<seq<Record>>, us: seq<seq<Record>>, c: seq<nat>, out: seq<nat>, again: set<string>, logged: set<string>)
    requires SameKeys(ts, us) && InRange(ts, c) && NewestRelisted(ts, c, out, again, logged)
    ensures NewestRelisted(us, c, out, again, logged)
  {
    SameNewest(ts, us);
    forall p, k | 0 <= p < |c| && c[p] in out && Newest(us, c[p], k) && k != "" && k !in logged
      ensures k in again && !Overtaken(us, c, p, k)
    {
      SameOvertaken(ts, us, c, p, k);
    }
  }
}
