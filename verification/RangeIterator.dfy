/** The range filter over the read merge: skips what lies below `start`, ends at `end`. */
module RangeIterators {
  import opened Order
  import opened SortedMap
  import opened Records
  import opened KWay
  import opened UnifiedIterators

  predicate InRange(start: string, end: string, key: string) {
    !Less(key, start) && Less(key, end)
  }

  /** The part of a raw map inside [start, end). */
  function Within(m: map<string, Value>, start: string, end: string): map<string, Value> {
    map k | k in m && InRange(start, end, k) :: m[k]
  }

  class RangeStorageIterator {
    const inner: UnifiedStorageIterator
    const start: string
    const end: string

    ghost predicate Valid()
      reads inner.sources
    {
      inner.Valid()
    }

    /** What the range iterator has still to emit. */
    ghost function Remaining(): map<string, Value>
      reads inner.sources
    {
      Within(inner.Remaining(), start, end)
    }

    constructor (inner: UnifiedStorageIterator, start: string, end: string)
      requires inner.Valid()
      ensures Valid() && this.inner == inner && this.start == start && this.end == end
    {
      this.inner, this.start, this.end := inner, start, end;
    }

    method Next() returns (r: Option<Record>)
      requires Valid()
      modifies inner.sources
      ensures Valid() && NextOf(old(Remaining()), false, r, Remaining())
    {
      ghost var all, m := Remaining(), inner.Remaining();
      var record := inner.Next();
      while record.Some?
        invariant Valid() && Within(m, start, end) == all && NextOf(m, false, record, inner.Remaining())
        decreases m.Keys
      {
        RestShrinks(m, false, record.value, inner.Remaining());
        if Less(record.value.key, start) {
          SkippedBelow(m, start, end, record.value, inner.Remaining());
          m := inner.Remaining();
          record := inner.Next();
          continue;
        }
        if !Less(record.value.key, end) {
          EndReached(m, start, end, record.value, inner.Remaining());
          return None;
        }
        EmittedInRange(m, start, end, record.value, inner.Remaining());
        return record;
      }
      assert Within(m, start, end) == map[];
      return None;
    }

    /** Everything the iterator still emits: the records with start <= key < end, ascending. */
    method Drain() returns (out: seq<Record>)
      requires Valid()
      modifies inner.sources
      ensures Valid() && Sorted(out) && Contents(out) == old(Remaining())
    {
      ghost var all, m := Remaining(), Remaining();
      out := [];
      DrainStart(all, false);
      var r := Next();
      ghost var rest := Remaining();
      while r.Some?
        invariant Valid() && rest == Remaining()
        invariant Drained(all, false, out, m) && NextOf(m, false, r, rest)
        decreases m.Keys
      {
        DrainStep(all, false, out, m, r.value, rest);
        RestShrinks(m, false, r.value, rest);
        out, m := out + [r.value], rest;
        r := Next();
        rest := Remaining();
      }
      DrainEnd(all, false, out, m, rest);
    }
  }

  lemma {:induction false} SkippedBelow(m: map<string, Value>, start: string, end: string, e: Record, rest: map<string, Value>)
    requires NextOf(m, false, Some(e), rest) && Less(e.key, start)
    ensures Within(rest, start, end) == Within(m, start, end)
  {
    forall k | k in m && !Less(k, start)
      ensures k in rest
    {
      LessTotal(e.key, k);
    }
  }

  /** Behind a key past the end nothing in range is left. */
  lemma {:induction false} EndReached(m: map<string, Value>, start: string, end: string, e: Record, rest: map<string, Value>)
    requires NextOf(m, false, Some(e), rest) && !Less(e.key, end)
    ensures Within(m, start, end) == map[] && Within(rest, start, end) == map[]
  {
    forall k | k in m
      ensures !Less(k, end)
    {
      LessTotal(e.key, k);
      if Less(e.key, k) && Less(k, end) {
        LessTransitive(e.key, k, end);
      }
    }
  }

  lemma {:induction false} EmittedInRange(m: map<string, Value>, start: string, end: string, e: Record, rest: map<string, Value>)
    requires NextOf(m, false, Some(e), rest) && InRange(start, end, e.key)
    ensures NextOf(Within(m, start, end), false, Some(e), Within(rest, start, end))
  {
    Strict();
  }
}
