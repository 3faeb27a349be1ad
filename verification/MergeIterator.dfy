/** The compaction merge: of several records for one key the one of the highest source index survives. */
module MergeIterators {
  import opened Order
  import opened SortedMap
  import opened Records
  import opened KWay

  class MergeIterator {
    const sources: SourceHeap
    const dropTombstones: bool

    ghost predicate Valid()
      reads sources
    {
      sources.Valid() && sources.tie == HigherIndexWins
    }

    ghost function Remaining(): map<string, Value>
      reads sources
    {
      sources.Remaining()
    }

    constructor (iters: seq<seq<Record>>, dropTombstones: bool)
      requires AllSorted(iters)
      ensures Valid() && fresh(sources) && Remaining() == Overlay(iters)
      ensures this.dropTombstones == dropTombstones
    {
      this.dropTombstones := dropTombstones;
      sources := new SourceHeap(HigherIndexWins, iters);
    }

    /** Takes every record of the least key; the newest of them is the answer. */
    method PopKey() returns (item: HeapItem)
      requires Valid() && sources.heap != {}
      modifies sources
      ensures Valid() && item.key in old(Remaining()) && old(Remaining())[item.key] == item.value
      ensures forall k :: k in old(Remaining()) ==> AtMost(item.key, k)
      ensures Remaining() == old(Remaining()) - {item.key}
    {
      item := sources.PeekLeast();
      ghost var p := sources.pending;
      sources.PopThenSkip(item);
      sources.Advance(item.iterIndex);
      AdvancePast(HigherIndexWins, p, sources.pending, item.key);
    }

    /** The next record of the merge; a dropped tombstone makes it ask for the one after. */
    method Next() returns (r: Option<Record>)
      requires Valid()
      modifies sources
      ensures Valid() && NextOf(old(Remaining()), dropTombstones, r, Remaining())
      decreases Remaining().Keys
    {
      if sources.heap == {} {
        NothingLeft(HigherIndexWins, sources.pending);
        return None;
      }
      ghost var m := Remaining();
      var item := PopKey();
      if dropTombstones && item.value.Tombstone? {
        r := Next();
        SkippedTombstone(m, item.key, r, Remaining());
        return;
      }
      r := Some(Entry(item.key, item.value));
      LeastIsNext(m, dropTombstones, r.value);
    }

    /** Everything the merge still emits: strictly ascending, one record a key, the newest one. */
    method Drain() returns (out: seq<Record>)
      requires Valid()
      modifies sources
      ensures Valid() && Sorted(out) && Contents(out) == Emitted(old(Remaining()), dropTombstones)
    {
      ghost var all, m := Remaining(), Remaining();
      out := [];
      DrainStart(all, dropTombstones);
      var r := Next();
      ghost var rest := Remaining();
      while r.Some?
        invariant Valid() && rest == Remaining()
        invariant Drained(all, dropTombstones, out, m) && NextOf(m, dropTombstones, r, rest)
        decreases m.Keys
      {
        DrainStep(all, dropTombstones, out, m, r.value, rest);
        RestShrinks(m, dropTombstones, r.value, rest);
        out, m := out + [r.value], rest;
        r := Next();
        rest := Remaining();
      }
      DrainEnd(all, dropTombstones, out, m, rest);
    }
  }
}
