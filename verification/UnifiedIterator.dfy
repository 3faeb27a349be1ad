/** The read merge over memtable and tables, newest source first: the lowest source index survives. */
module UnifiedIterators {
  import opened Order
  import opened SortedMap
  import opened Records
  import opened KWay

  class UnifiedStorageIterator {
    const sources: SourceHeap

    ghost predicate Valid()
      reads sources
    {
      sources.Valid() && sources.tie == LowerIndexWins
    }

    ghost function Remaining(): map<string, Value>
      reads sources
    {
      sources.Remaining()
    }

    constructor (iters: seq<seq<Record>>)
      requires AllSorted(iters)
      ensures Valid() && fresh(sources) && Remaining() == Overlay(Reverse(iters))
    {
      sources := new SourceHeap(LowerIndexWins, iters);
    }

    /** Takes every record of the least key; the winner's own source moves on before the others. */
    method PopKey() returns (item: HeapItem)
      requires Valid() && sources.heap != {}
      modifies sources
      ensures Valid() && item.key in old(Remaining()) && old(Remaining())[item.key] == item.value
      ensures forall k :: k in old(Remaining()) ==> AtMost(item.key, k)
      ensures Remaining() == old(Remaining()) - {item.key}
    {
      item := sources.PeekLeast();
      ghost var p := sources.pending;
      sources.AdvanceThenSkip(item);
      AdvancePast(LowerIndexWins, p, sources.pending, item.key);
    }

    method Next() returns (r: Option<Record>)
      requires Valid()
      modifies sources
      ensures Valid() && NextOf(old(Remaining()), false, r, Remaining())
    {
      if sources.heap == {} {
        NothingLeft(LowerIndexWins, sources.pending);
        return None;
      }
      ghost var m := Remaining();
      var item := PopKey();
      r := Some(Entry(item.key, item.value));
      LeastIsNext(m, false, r.value);
    }

    /** Everything the iterator still emits. */
    method Drain() returns (out: seq<Record>)
      requires Valid()
      modifies sources
      ensures Valid() && Sorted(out) && Contents(out) == old(Remaining())
    {
      ghost var all, m := Remaining(), Remaining();
      out := [];
      DrainStart(all, false);
      var r := Next();
      ghost var rest := Remaining();
      while r.Some?
        invariant Valid() && rest == Remaining()
        invariant Drained(all, false, out, m) && NextOf(m, false, r, rest)
        decreases m.Keys
      {
        DrainStep(all, false, out, m, r.value, rest);
        RestShrinks(m, false, r.value, rest);
        out, m := out + [r.value], rest;
        r := Next();
        rest := Remaining();
      }
      DrainEnd(all, false, out, m, rest);
    }
  }
}
