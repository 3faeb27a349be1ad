/** What the two k-way merges share: the heap of front records and its relation to the sources. */
module KWay {
  import opened Order
  import opened SortedMap
  import opened Records

  datatype HeapItem = HeapItem(key: string, value: Value, iterIndex: nat)

  /** Which source wins a tie on the key. */
  datatype Tie = HigherIndexWins | LowerIndexWins

  predicate Outranks(tie: Tie, a: HeapItem, b: HeapItem) {
    || Less(a.key, b.key)
    || (a.key == b.key && if tie.HigherIndexWins? then a.iterIndex > b.iterIndex else a.iterIndex < b.iterIndex)
  }

  /** The heap that belongs to sources of which `pending[i]` is still to come: one front record for each. */
  ghost function HeapOf(pending: seq<seq<Record>>): set<HeapItem> {
    set i | 0 <= i < |pending| && pending[i] != [] :: Front(pending, i)
  }

  ghost function Front(pending: seq<seq<Record>>, i: nat): HeapItem
    requires i < |pending| && pending[i] != []
  {
    HeapItem(pending[i][0].key, pending[i][0].value, i)
  }

  function Tail(s: seq<Record>): seq<Record> {
    if s == [] then [] else s[1..]
  }

  /** The sources in the order of their rank: the last one wins a tie. */
  ghost function Ranked(tie: Tie, pending: seq<seq<Record>>): seq<seq<Record>> {
    if tie.HigherIndexWins? then pending else Reverse(pending)
  }

  /** The raw map a merge has still to emit. */
  ghost function Rest(tie: Tie, pending: seq<seq<Record>>): map<string, Value> {
    Overlay(Ranked(tie, pending))
  }

  lemma {:induction false} OutranksTransitive(tie: Tie, seen: set<HeapItem>, h: HeapItem, top: HeapItem)
    requires Outranks(tie, h, top)
    requires forall g :: g in seen ==> !Outranks(tie, g, top)
    ensures forall g :: g in seen ==> !Outranks(tie, g, h)
  {
    forall g | g in seen
      ensures !Outranks(tie, g, h)
    {
      if Outranks(tie, g, h) && Less(g.key, h.key) && Less(h.key, top.key) {
        LessTransitive(g.key, h.key, top.key);
      }
    }
  }

  function DropKey(s: seq<Record>, key: string): seq<Record> {
    if s != [] && s[0].key == key then s[1..] else s
  }

  /** Replacing what is pending at one source replaces its front record in the heap. */
  lemma {:induction false} HeapOfUpdate(pending: seq<seq<Record>>, i: nat, s: seq<Record>)
    requires i < |pending|
    ensures HeapOf(pending[i := s]) ==
            (set h | h in HeapOf(pending) && h.iterIndex != i) +
            (if s == [] then {} else {HeapItem(s[0].key, s[0].value, i)})
  {
    var p' := pending[i := s];
    forall h | h in HeapOf(pending) && h.iterIndex != i
      ensures h in HeapOf(p')
    {
      assert h == Front(p', h.iterIndex);
    }
    if s != [] {
      assert Front(p', i) in HeapOf(p');
    }
    forall h | h in HeapOf(p') && h.iterIndex != i
      ensures h in HeapOf(pending)
    {
      assert h == Front(pending, h.iterIndex);
    }
  }

  /** Sorted sources: the front records bound every key still to come. */
  lemma {:induction false} FrontIsLeast(pending: seq<seq<Record>>, key: string, i: nat, k: string)
    requires AllSorted(pending) && i < |pending| && k in Contents(pending[i])
    requires forall h :: h in HeapOf(pending) ==> !Less(h.key, key)
    ensures AtMost(key, k)
    ensures pending[i] != [] && Front(pending, i) in HeapOf(pending)
    ensures k == key ==> pending[i][0].key == key
  {
    ContentsLists(pending[i]);
    var j :| 0 <= j < |pending[i]| && pending[i][j].key == k;
    assert Front(pending, i) in HeapOf(pending);
    LessTotal(key, pending[i][0].key);
    Strict();
    if j > 0 && Less(key, pending[i][0].key) {
      LessTransitive(key, pending[i][0].key, k);
    }
  }

  /** The top of the heap carries the least key ... */
  lemma {:induction false} TopIsLeast(tie: Tie, pending: seq<seq<Record>>, top: HeapItem)
    requires AllSorted(pending) && top in HeapOf(pending)
    requires forall h :: h in HeapOf(pending) ==> !Outranks(tie, h, top)
    ensures forall k :: k in Rest(tie, pending) ==> AtMost(top.key, k)
  {
    forall k | k in Rest(tie, pending)
      ensures AtMost(top.key, k)
    {
      var j := OverlayOrigin(Ranked(tie, pending), k);
      FrontIsLeast(pending, top.key, if tie.HigherIndexWins? then j else |pending| - 1 - j, k);
    }
  }

  /** ... and the value the overlay gives it. */
  lemma {:induction false} TopIsNewest(tie: Tie, pending: seq<seq<Record>>, top: HeapItem)
    requires AllSorted(pending) && top in HeapOf(pending)
    requires forall h :: h in HeapOf(pending) ==> !Outranks(tie, h, top)
    ensures top.key in Rest(tie, pending) && Rest(tie, pending)[top.key] == top.value
  {
    var i, n := top.iterIndex, |pending|;
    var at := if tie.HigherIndexWins? then i else n - 1 - i;
    FrontInContents(pending[i]);
    forall j | at < j < n
      ensures top.key !in Contents(Ranked(tie, pending)[j])
    {
      NoHigherHolder(tie, pending, top, if tie.HigherIndexWins? then j else n - 1 - j);
    }
    OverlayValue(Ranked(tie, pending), at, top.key);
  }

  lemma {:induction false} FrontInContents(s: seq<Record>)
    requires s != [] && Sorted(s)
    ensures s[0].key in Contents(s) && Contents(s)[s[0].key] == s[0].value
  {
    ContentsLists(s);
  }

  lemma {:induction false} NoHigherHolder(tie: Tie, pending: seq<seq<Record>>, top: HeapItem, j: nat)
    requires AllSorted(pending) && j < |pending|
    requires forall h :: h in HeapOf(pending) ==> !Outranks(tie, h, top)
    requires if tie.HigherIndexWins? then j > top.iterIndex else j < top.iterIndex
    ensures top.key !in Contents(pending[j])
  {
    if top.key in Contents(pending[j]) {
      FrontIsLeast(pending, top.key, j, top.key);
    }
  }

  lemma {:induction false} DropKeyContents(s: seq<Record>, key: string)
    requires Sorted(s)
    requires s != [] ==> AtMost(key, s[0].key)
    ensures Sorted(DropKey(s, key)) && Contents(DropKey(s, key)) == Contents(s) - {key}
  {
    ContentsLists(s);
    Strict();
    if s != [] && s[0].key == key {
      TailLists(s, Contents(s));
      ListsDetermine(s[1..], Contents(s) - {key});
    } else if key in Contents(s) {
      var j :| 0 <= j < |s| && s[j].key == key;
    }
  }

  lemma {:induction false} OverlayMinus(p: seq<seq<Record>>, q: seq<seq<Record>>, key: string)
    requires |p| == |q| && forall j :: 0 <= j < |p| ==> Contents(q[j]) == Contents(p[j]) - {key}
    ensures Overlay(q) == Overlay(p) - {key}
  {
    if p != [] {
      OverlayMinus(p[..|p| - 1], q[..|p| - 1], key);
    }
  }

  /** Advancing every source past the least key removes that key, and nothing else, from the rest. */
  lemma {:induction false} AdvancePast(tie: Tie, p: seq<seq<Record>>, q: seq<seq<Record>>, key: string)
    requires AllSorted(p) && |p| == |q|
    requires forall h :: h in HeapOf(p) ==> !Less(h.key, key)
    requires forall j :: 0 <= j < |p| ==> q[j] == DropKey(p[j], key)
    ensures AllSorted(q) && Rest(tie, q) == Rest(tie, p) - {key}
  {
    forall j | 0 <= j < |p|
      ensures Sorted(q[j]) && Contents(q[j]) == Contents(p[j]) - {key}
    {
      if p[j] != [] {
        assert Front(p, j) in HeapOf(p);
        LessTotal(key, p[j][0].key);
      }
      DropKeyContents(p[j], key);
    }
    OverlayMinus(Ranked(tie, p), Ranked(tie, q), key);
  }

  /** One call of a merge: the next record `r` of the raw map `m`, and the raw map `rest` left after it. */
  ghost predicate NextOf(m: map<string, Value>, drop: bool, r: Option<Record>, rest: map<string, Value>) {
    match r
    case None =>
      rest == map[] && forall k :: k in m ==> drop && m[k].Tombstone?
    case Some(e) =>
      && e.key in m && m[e.key] == e.value && !(drop && e.value.Tombstone?)
      && (forall k :: k in m && Less(k, e.key) ==> drop && m[k].Tombstone?)
      && rest == map k | k in m && Less(e.key, k) :: m[k]
  }

  /** Everything a merge emits: the raw map, without its tombstones when they are dropped. */
  function Emitted(m: map<string, Value>, drop: bool): map<string, Value> {
    if drop then map k | k in m && m[k].Data? :: m[k] else m
  }

  /** Draining: `out` so far, `m` left; the invariant a drain keeps with every call. */
  ghost predicate Drained(all: map<string, Value>, drop: bool, out: seq<Record>, m: map<string, Value>) {
    && Sorted(out)
    && (forall i, k :: 0 <= i < |out| && k in m ==> Less(out[i].key, k))
    && Emitted(all, drop) == Contents(out) + Emitted(m, drop)
  }

  lemma {:induction false} DrainStart(all: map<string, Value>, drop: bool)
    ensures Drained(all, drop, [], all)
  {
  }

  lemma {:induction false} DrainStep(all: map<string, Value>, drop: bool, out: seq<Record>, m: map<string, Value>, e: Record, rest: map<string, Value>)
    requires Drained(all, drop, out, m) && NextOf(m, drop, Some(e), rest)
    ensures Drained(all, drop, out + [e], rest)
  {
    forall i, k | 0 <= i < |out + [e]| && k in rest
      ensures Less((out + [e])[i].key, k)
    {
      assert k in m;
    }
    EmittedStep(m, drop, e, rest);
    ContentsAppend(out, e);
    UnionSnoc(Contents(out), e, Emitted(rest, drop));
  }

  lemma {:induction false} UnionSnoc(a: map<string, Value>, e: Record, b: map<string, Value>)
    ensures a + (map[e.key := e.value] + b) == a[e.key := e.value] + b
  {
  }

  lemma {:induction false} EmittedStep(m: map<string, Value>, drop: bool, e: Record, rest: map<string, Value>)
    requires NextOf(m, drop, Some(e), rest)
    ensures Emitted(m, drop) == map[e.key := e.value] + Emitted(rest, drop)
  {
    Strict();
    forall k | k in Emitted(m, drop)
      ensures k == e.key || k in rest
    {
      LessTotal(k, e.key);
    }
  }

  lemma {:induction false} DrainEnd(all: map<string, Value>, drop: bool, out: seq<Record>, m: map<string, Value>, rest: map<string, Value>)
    requires Drained(all, drop, out, m) && NextOf(m, drop, None, rest)
    ensures Sorted(out) && Contents(out) == Emitted(all, drop)
  {
    assert Emitted(m, drop) == map[];
  }

  ghost function FrontOf(s: seq<Record>, i: nat): set<HeapItem> {
    if s == [] then {} else {HeapItem(s[0].key, s[0].value, i)}
  }

  lemma {:induction false} NothingLeft(tie: Tie, pending: seq<seq<Record>>)
    requires HeapOf(pending) == {}
    ensures Rest(tie, pending) == map[]
  {
    assert forall i :: 0 <= i < |pending| && pending[i] != [] ==> Front(pending, i) in HeapOf(pending);
    AllEmpty(Ranked(tie, pending));
  }

  lemma {:induction false} AllEmpty(p: seq<seq<Record>>)
    requires forall i :: 0 <= i < |p| ==> p[i] == []
    ensures Overlay(p) == map[]
  {
    if p != [] {
      AllEmpty(p[..|p| - 1]);
    }
  }

  lemma {:induction false} TopBoundsHeap(tie: Tie, heap: set<HeapItem>, top: HeapItem)
    requires forall h :: h in heap ==> !Outranks(tie, h, top)
    ensures forall h :: h in heap ==> !Less(h.key, top.key)
  {
  }

  /** Swapping a duplicate of a key for a later record of its source leaves fewer duplicates. */
  lemma {:induction false} FewerDuplicates(before: set<HeapItem>, heap: set<HeapItem>, top: HeapItem, s: seq<Record>)
    requires top in before && heap == before - {top} + FrontOf(s, top.iterIndex)
    requires forall h :: h in before ==> !Less(h.key, top.key)
    requires s != [] ==> Less(top.key, s[0].key)
    ensures (set h | h in heap && h.key == top.key) < (set h | h in before && h.key == top.key)
    ensures forall h :: h in heap ==> !Less(h.key, top.key)
  {
    Strict();
    assert (set h | h in heap && h.key == top.key) == (set h | h in before && h.key == top.key) - {top};
    assert top in (set h | h in before && h.key == top.key);
  }

  lemma {:induction false} NoDuplicateLeft(tie: Tie, heap: set<HeapItem>, key: string, top: HeapItem)
    requires top in heap && top.key != key
    requires forall h :: h in heap ==> !Less(h.key, key) && !Outranks(tie, h, top)
    ensures forall h :: h in heap ==> h.key != key
  {
    LessTotal(key, top.key);
  }

  /** In a sorted source a key stands at the front at most once. */
  lemma {:induction false} FrontKeyOnce(s: seq<Record>, t: seq<Record>, key: string)
    requires Sorted(s) && t != [] && t[0].key == key
    requires t == s || t == DropKey(s, key)
    ensures t == s && (Tail(t) != [] ==> Less(key, Tail(t)[0].key))
  {
    Strict();
  }

  lemma {:induction false} SkippedTombstone(m: map<string, Value>, key: string, r: Option<Record>, rest: map<string, Value>)
    requires key in m && m[key].Tombstone? && forall k :: k in m ==> AtMost(key, k)
    requires NextOf(m - {key}, true, r, rest)
    ensures NextOf(m, true, r, rest)
  {
    Strict();
    forall k | k in m && k != key
      ensures k in m - {key}
    {
    }
  }

  lemma {:induction false} LeastIsNext(m: map<string, Value>, drop: bool, e: Record)
    requires e.key in m && m[e.key] == e.value && !(drop && e.value.Tombstone?)
    requires forall k :: k in m ==> AtMost(e.key, k)
    ensures NextOf(m, drop, Some(e), m - {e.key})
  {
    Strict();
  }

  lemma {:induction false} RestShrinks(m: map<string, Value>, drop: bool, e: Record, rest: map<string, Value>)
    requires NextOf(m, drop, Some(e), rest)
    ensures rest.Keys < m.Keys
  {
    Strict();
    assert e.key !in rest;
  }

  /** After its first record a sorted source holds neither that key nor a smaller one. */
  lemma {:induction false} TailStaysAbove(p: seq<seq<Record>>, i: nat, heap: set<HeapItem>, key: string)
    requires AllSorted(p) && i < |p| && p[i] != [] && p[i][0].key == key
    requires forall h :: h in HeapOf(p) ==> !Less(h.key, key)
    requires heap == HeapOf(p) - {Front(p, i)} + FrontOf(Tail(p[i]), i)
    ensures AllSorted(p[i := Tail(p[i])])
    ensures forall h :: h in heap ==> !Less(h.key, key)
    ensures forall j :: 0 <= j < |p| ==> DropKey(p[i := Tail(p[i])][j], key) == DropKey(p[j], key)
  {
    Strict();
  }

  /** The sources of a merge with the heap of their front records. */
  class SourceHeap {
    const tie: Tie
    /** What each source has still to yield behind its front record. */
    var iters: seq<seq<Record>>
    var heap: set<HeapItem>

    /** What each source has still to yield, the record it has in the heap included. */
    ghost var pending: seq<seq<Record>>

    ghost predicate Valid()
      reads this
    {
      Loaded() && AllSorted(pending) && forall i :: 0 <= i < |iters| ==> iters[i] == Tail(pending[i])
    }

    ghost predicate Loaded()
      reads this
    {
      |iters| == |pending| && heap == HeapOf(pending)
    }

    /** The raw map still to be merged. */
    ghost function Remaining(): map<string, Value>
      reads this
    {
      Rest(tie, pending)
    }

    constructor (tie: Tie, sources: seq<seq<Record>>)
      requires AllSorted(sources)
      ensures Valid() && pending == sources && this.tie == tie
    {
      this.tie := tie;
      iters, heap := sources, {};
      pending := seq(|sources|, _ => []);
      new;
      for i := 0 to |sources|
        invariant Loaded() && |iters| == |sources|
        invariant forall j :: 0 <= j < i ==> pending[j] == sources[j] && iters[j] == Tail(sources[j])
        invariant forall j :: i <= j < |sources| ==> pending[j] == [] && iters[j] == sources[j]
      {
        Advance(i);
      }
      assert pending == sources;
    }

    /** Pulls the next record of source `i`, which has none in the heap, into the heap. */
    method Advance(i: nat)
      requires Loaded() && i < |iters| && pending[i] == []
      modifies this
      ensures Loaded() && pending == old(pending)[i := old(iters)[i]]
      ensures iters == old(iters)[i := Tail(old(iters)[i])]
      ensures heap == old(heap) + FrontOf(old(iters)[i], i)
    {
      HeapOfUpdate(pending, i, iters[i]);
      HeapOfUpdate(pending, i, []);
      assert pending[i := []] == pending;
      pending := pending[i := iters[i]];
      if iters[i] != [] {
        var record := iters[i][0];
        heap := heap + {HeapItem(record.key, record.value, i)};
      }
      iters := iters[i := Tail(iters[i])];
    }

    /** BinaryHeap::peek: the item no other item outranks. */
    method Peek() returns (top: HeapItem)
      requires heap != {}
      ensures top in heap
      ensures forall h :: h in heap ==> !Outranks(tie, h, top)
    {
      top :| top in heap;
      Strict();
      var rest := heap - {top};
      while rest != {}
        invariant rest <= heap && top in heap
        invariant forall h :: h in heap - rest ==> !Outranks(tie, h, top)
        decreases rest
      {
        var h :| h in rest;
        if Outranks(tie, h, top) {
          OutranksTransitive(tie, heap - rest, h, top);
          top := h;
        }
        rest := rest - {h};
      }
    }

    /** The top of the heap of sorted sources: the least key, with the value the overlay gives it. */
    method PeekLeast() returns (top: HeapItem)
      requires Valid() && heap != {}
      ensures top in heap && forall h :: h in heap ==> !Less(h.key, top.key)
      ensures top.key in Remaining() && Remaining()[top.key] == top.value
      ensures forall k :: k in Remaining() ==> AtMost(top.key, k)
    {
      top := Peek();
      TopIsLeast(tie, pending, top);
      TopIsNewest(tie, pending, top);
      TopBoundsHeap(tie, heap, top);
    }

    /** BinaryHeap::pop: takes the top item off the heap; its source is left without a record there. */
    method Pop(top: HeapItem)
      requires Loaded() && top in heap
      modifies this`heap, this`pending
      ensures Loaded() && pending == old(pending)[top.iterIndex := []] && heap == old(heap) - {top}
    {
      HeapOfUpdate(pending, top.iterIndex, []);
      pending := pending[top.iterIndex := []];
      heap := heap - {top};
    }

    /** Replaces the top item by the next record of its source. */
    method Skip(top: HeapItem)
      requires Loaded() && top in heap && iters[top.iterIndex] == Tail(pending[top.iterIndex])
      modifies this
      ensures Loaded() && pending == old(pending)[top.iterIndex := Tail(old(pending)[top.iterIndex])]
      ensures iters == old(iters)[top.iterIndex := Tail(pending[top.iterIndex])]
      ensures heap == old(heap) - {top} + FrontOf(pending[top.iterIndex], top.iterIndex)
    {
      Pop(top);
      Advance(top.iterIndex);
    }

    /** Skips every record of `key` at the front of a source; a source without a record in the heap waits. */
    method SkipDuplicates(key: string)
      requires Loaded() && AllSorted(pending)
      requires forall i :: 0 <= i < |iters| && pending[i] != [] ==> iters[i] == Tail(pending[i])
      requires forall h :: h in heap ==> !Less(h.key, key)
      modifies this
      ensures Loaded() && |iters| == |old(iters)|
      ensures forall i :: 0 <= i < |iters| ==> pending[i] == DropKey(old(pending)[i], key)
      ensures forall i :: 0 <= i < |iters| ==>
                iters[i] == if old(pending)[i] == [] then old(iters)[i] else Tail(pending[i])
    {
      hide Less, Outranks, Sorted;
      while heap != {}
        invariant Loaded() && |iters| == |old(iters)|
        invariant forall i :: 0 <= i < |iters| ==>
                    iters[i] == if old(pending)[i] == [] then old(iters)[i] else Tail(pending[i])
        invariant forall i :: 0 <= i < |iters| ==>
                    pending[i] == old(pending)[i] || pending[i] == DropKey(old(pending)[i], key)
        invariant forall h :: h in heap ==> !Less(h.key, key)
        decreases set h | h in heap && h.key == key
      {
        var top := Peek();
        if top.key != key {
          NoDuplicateLeft(tie, heap, key, top);
          break;
        }
        ghost var before := heap;
        FrontKeyOnce(old(pending)[top.iterIndex], pending[top.iterIndex], key);
        Skip(top);
        FewerDuplicates(before, heap, top, pending[top.iterIndex]);
      }
      forall i | 0 <= i < |iters|
        ensures pending[i] == DropKey(old(pending)[i], key)
      {
        if pending[i] != [] {
          assert Front(pending, i) in heap;
        }
      }
    }

    /** Takes the top item and skips the duplicates of its key; the source of the top item waits. */
    method PopThenSkip(top: HeapItem)
      requires Valid() && top in heap && forall h :: h in heap ==> !Less(h.key, top.key)
      modifies this
      ensures Loaded() && |iters| == |old(iters)|
      ensures pending[top.iterIndex] == [] && iters[top.iterIndex] == Tail(old(pending)[top.iterIndex])
      ensures forall i :: 0 <= i < |iters| && i != top.iterIndex ==>
                pending[i] == DropKey(old(pending)[i], top.key) && iters[i] == Tail(pending[i])
    {
      Pop(top);
      SkipDuplicates(top.key);
    }

    /** Moves the source of the top item on and skips the duplicates of its key. */
    method AdvanceThenSkip(top: HeapItem)
      requires Valid() && top in heap && forall h :: h in heap ==> !Less(h.key, top.key)
      modifies this
      ensures Loaded() && |iters| == |old(iters)|
      ensures forall i :: 0 <= i < |iters| ==>
                pending[i] == DropKey(old(pending)[i], top.key) && iters[i] == Tail(pending[i])
    {
      ghost var p := pending;
      Skip(top);
      TailStaysAbove(p, top.iterIndex, heap, top.key);
      SkipDuplicates(top.key);
    }
  }
}
