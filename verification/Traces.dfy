/**
 Fixed-capacity observability traces: queues that live in an array, are drained by
 shifting, and count what they had to refuse.
 */
module Traces {
  import opened Words

  const COUNT_MAX: nat := 0xFFFF_FFFF

  /** What a saturating 32-bit counter shows after this many increments. */
  function Saturated(n: nat): nat { if n <= COUNT_MAX then n else COUNT_MAX }

  function Min(a: nat, b: nat): nat { if a <= b then a else b }

  datatype Status = Status(len: nat, capacity: nat, freeSlots: nat, overflowCount: nat)

  datatype Cycle = Cycle(drained: nat, overflowCount: nat, status: Status)

  /** The report of a drain cycle: nothing is lost between what is drained, what stays and what was refused. */
  function CycleOf(queued: nat, uncollected: nat, room: nat, capacity: nat): (c: Cycle)
    ensures c.drained + c.status.len == queued && c.drained <= room
    ensures queued <= capacity ==> c.status.len + c.status.freeSlots == capacity
    ensures c.status.len > 0 ==> c.drained == room
  {
    var drained := Min(queued, room);
    Cycle(drained, Saturated(uncollected),
          Status(queued - drained, capacity, SaturatingSub(capacity, queued - drained), 0))
  }

  class FixedTrace<T(0)> {
    const items: array<Option<T>>
    var len: nat
    var overflowCount: nat

    /** What is queued, oldest first. */
    ghost var queue: seq<T>
    /** Every item ever accepted, and those of them that have left, both in order. */
    ghost var accepted: seq<T>
    ghost var released: seq<T>
    /** Pushes attempted, refused, and refused since the overflow count was last taken. */
    ghost var attempts: nat
    ghost var refused: nat
    ghost var uncollected: nat

    ghost predicate Valid()
      reads this, items
    {
      && len == |queue| <= items.Length
      && (forall i :: 0 <= i < len ==> items[i] == Some(queue[i]))
      && accepted == released + queue
      && attempts == |accepted| + refused
      && overflowCount == Saturated(uncollected) && uncollected <= refused
    }

    constructor (capacity: nat)
      ensures Valid() && fresh(items) && items.Length == capacity
      ensures queue == [] && accepted == [] && attempts == 0 && uncollected == 0
    {
      items := new Option<T>[capacity](_ => None);
      len, overflowCount := 0, 0;
      queue, accepted, released := [], [], [];
      attempts, refused, uncollected := 0, 0, 0;
    }

    method Get(index: nat) returns (r: Option<T>)
      requires Valid()
      ensures r == if index < |queue| then Some(queue[index]) else None
    {
      if index < len { r := items[index]; } else { r := None; }
    }

    /** Appends an item, or counts an overflow when the trace is full. */
    method Push(item: T) returns (ok: bool)
      requires Valid()
      modifies this, items
      ensures Valid() && attempts == old(attempts) + 1
      ensures ok <==> old(|queue|) < items.Length
      ensures ok ==> queue == old(queue) + [item] && accepted == old(accepted) + [item] && refused == old(refused)
      ensures !ok ==> queue == old(queue) && accepted == old(accepted) && refused == old(refused) + 1
      ensures uncollected == old(uncollected) + (if ok then 0 else 1) && released == old(released)
    {
      attempts := attempts + 1;
      if len == items.Length {
        overflowCount := if overflowCount == COUNT_MAX then COUNT_MAX else overflowCount + 1;
        refused, uncollected := refused + 1, uncollected + 1;
        return false;
      }
      items[len] := Some(item);
      len := len + 1;
      queue, accepted := queue + [item], accepted + [item];
      return true;
    }

    method CopyOut(out: array<Option<T>>, count: nat)
      requires count == Min(len, out.Length) && len <= items.Length && out != items
      modifies out
      ensures forall i :: 0 <= i < out.Length ==> out[i] == if i < count then items[i] else None
    {
      var i := 0;
      while i < out.Length
        invariant 0 <= i <= out.Length
        invariant forall j :: 0 <= j < i ==> out[j] == if j < count then items[j] else None
      {
        out[i] := if i < count then items[i] else None;
        i := i + 1;
      }
    }

    method MoveDown(count: nat, remaining: nat, ghost was: seq<Option<T>>)
      requires count + remaining <= items.Length && was == items[..]
      modifies items
      ensures forall i {:trigger items[i]} :: 0 <= i < items.Length ==>
                items[i] == if i < remaining then was[count + i] else was[i]
    {
      var i := 0;
      while i < remaining
        invariant 0 <= i <= remaining
        invariant forall j {:trigger items[j]} :: 0 <= j < items.Length ==>
                    items[j] == if j < i then was[count + j] else was[j]
      {
        items[i] := items[count + i];
        i := i + 1;
      }
    }

    method Empty(from: nat, to: nat)
      requires from <= to <= items.Length
      modifies items
      ensures forall i {:trigger items[i]} :: 0 <= i < items.Length ==>
                items[i] == if from <= i < to then None else old(items[i])
    {
      var i := from;
      while i < to
        invariant from <= i <= to
        invariant forall j :: 0 <= j < items.Length ==> items[j] == if from <= j < i then None else old(items[j])
      {
        items[i] := None;
        i := i + 1;
      }
    }

    /** Moves the items behind the first `count` to the front and empties the slots they leave. */
    method Shift(count: nat)
      requires count <= len <= items.Length
      modifies items
      ensures forall i :: 0 <= i < len - count ==> items[i] == old(items[count + i])
    {
      MoveDown(count, len - count, items[..]);
      Empty(len - count, len);
    }

    /** Hands over the oldest items, as many as fit, in order; each leaves the trace exactly once. */
    method DrainInto(out: array<Option<T>>) returns (count: nat)
      requires Valid() && out != items
      modifies this`len, this`queue, this`released, items, out
      ensures Valid() && count == Min(old(|queue|), out.Length)
      ensures queue == old(queue)[count..] && released == old(released) + old(queue)[..count]
      ensures forall i :: 0 <= i < out.Length ==> out[i] == if i < count then Some(old(queue)[i]) else None
    {
      if out.Length == 0 {
        assert queue[..0] == [] && queue[0..] == queue;
        return 0;
      }
      count := if len <= out.Length then len else out.Length;
      CopyOut(out, count);
      Shift(count);
      released, queue := released + queue[..count], queue[count..];
      len := len - count;
    }

    method TakeOverflowCount() returns (n: nat)
      requires Valid()
      modifies this`overflowCount, this`uncollected
      ensures Valid() && n == Saturated(old(uncollected)) && uncollected == 0
    {
      n := overflowCount;
      overflowCount, uncollected := 0, 0;
    }

    /** Takes the overflow count, drains, and reports both with the state that is left. */
    method DrainCycle(out: array<Option<T>>) returns (c: Cycle)
      requires Valid() && out != items
      modifies this`len, this`queue, this`released, this`overflowCount, this`uncollected, items, out
      ensures Valid() && uncollected == 0
      ensures c == CycleOf(old(|queue|), old(uncollected), out.Length, items.Length)
      ensures c.overflowCount == Saturated(old(uncollected)) && c.status.overflowCount == 0
      ensures c.status.len == |queue| && c.status.capacity == items.Length && c.status.freeSlots == items.Length - |queue|
      ensures queue == old(queue)[c.drained..] && released == old(released) + old(queue)[..c.drained]
      ensures forall i :: 0 <= i < out.Length ==> out[i] == if i < c.drained then Some(old(queue)[i]) else None
    {
      var overflow := TakeOverflowCount();
      var drained := DrainInto(out);
      c := Cycle(drained, overflow, Status(len, items.Length, SaturatingSub(items.Length, len), overflowCount));
    }

    /** Forgets what is queued; nothing of it will be drained. */
    method Clear()
      requires Valid()
      modifies this`len, this`queue, this`released
      ensures Valid() && queue == [] && released == accepted
    {
      len := 0;
      released, queue := accepted, [];
    }
  }

  // ---------------------------------------------------------------- pairs

  datatype Record<T> = Record(kind: nat, sample: T)

  /** Sample i is record i's sample. */
  predicate InStep<T(==)>(samples: seq<T>, records: seq<Record<T>>)
  {
    |samples| == |records| && forall i :: 0 <= i < |samples| ==> samples[i] == records[i].sample
  }

  lemma StepTogether<T>(samples: seq<T>, records: seq<Record<T>>, r: Record<T>)
    requires InStep(samples, records)
    ensures InStep(samples + [r.sample], records + [r])
  {}

  lemma DropTogether<T>(samples: seq<T>, records: seq<Record<T>>, n: nat)
    requires InStep(samples, records) && n <= |samples|
    ensures InStep(samples[n..], records[n..])
  {}

  datatype PairResult = Pushed | RecordOverflow | SampleOverflow

  /** The two traces that are pushed and drained together. */
  class TracePair<T(0)> {
    const sample: FixedTrace<T>
    const record: FixedTrace<Record<T>>

    ghost predicate Valid()
      reads this, sample, sample.items, record, record.items
    {
      && sample.Valid() && record.Valid()
      && (sample as object) != record && (sample.items as object) != record.items
    }

    ghost predicate Paired()
      reads sample, record
    {
      InStep(sample.queue, record.queue) && InStep(sample.accepted, record.accepted)
    }

    constructor (samples: nat, records: nat)
      ensures Valid() && Paired()
      ensures sample.items.Length == samples && record.items.Length == records
      ensures fresh(sample) && fresh(record) && fresh(sample.items) && fresh(record.items)
    {
      sample := new FixedTrace<T>(samples);
      record := new FixedTrace<Record<T>>(records);
    }

    /** The record goes first; with equal capacities in step, both are accepted or neither is. */
    method PushPair(kind: nat, item: T) returns (r: PairResult)
      requires Valid()
      modifies sample, record, sample.items, record.items
      ensures Valid()
      ensures old(Paired()) && sample.items.Length == record.items.Length ==> Paired() && !r.SampleOverflow?
      ensures r.RecordOverflow? <==> old(|record.queue|) == record.items.Length
      ensures r.SampleOverflow? <==> old(|record.queue|) < record.items.Length && old(|sample.queue|) == sample.items.Length
      ensures record.attempts == old(record.attempts) + 1
      ensures sample.attempts == old(sample.attempts) + if r.RecordOverflow? then 0 else 1
      ensures r.RecordOverflow? ==> record.queue == old(record.queue) && sample.queue == old(sample.queue)
      ensures r.SampleOverflow? ==> record.queue == old(record.queue) + [Record(kind, item)] && sample.queue == old(sample.queue)
      ensures r.Pushed? ==> record.accepted == old(record.accepted) + [Record(kind, item)] &&
                            sample.accepted == old(sample.accepted) + [item]
    {
      ghost var paired := Paired();
      var entry := Record(kind, item);
      if paired {
        StepTogether(sample.queue, record.queue, entry);
        StepTogether(sample.accepted, record.accepted, entry);
      }
      var ok := record.Push(entry);
      if !ok { return RecordOverflow; }
      ok := sample.Push(item);
      r := if ok then Pushed else SampleOverflow;
    }

    /**
     One drain cycle of both: each tells how many items were refused since the last one.
     Draining into buffers of equal size keeps the traces in step, and hands over matching
     items.
     */
    method DrainPair(sampleOut: array<Option<T>>, recordOut: array<Option<Record<T>>>) returns (s: Cycle, r: Cycle)
      requires Valid() && sampleOut != sample.items && recordOut != record.items
      requires (sampleOut as object) != recordOut && (sampleOut as object) != record.items
      requires (recordOut as object) != sample.items
      modifies sample, record, sample.items, record.items, sampleOut, recordOut
      ensures Valid()
      ensures s == CycleOf(old(|sample.queue|), old(sample.uncollected), sampleOut.Length, sample.items.Length)
      ensures r == CycleOf(old(|record.queue|), old(record.uncollected), recordOut.Length, record.items.Length)
      ensures sample.queue == old(sample.queue)[s.drained..] && record.queue == old(record.queue)[r.drained..]
      ensures sample.uncollected == 0 && record.uncollected == 0
      ensures forall i :: 0 <= i < sampleOut.Length ==>
                sampleOut[i] == if i < s.drained then Some(old(sample.queue)[i]) else None
      ensures forall i :: 0 <= i < recordOut.Length ==>
                recordOut[i] == if i < r.drained then Some(old(record.queue)[i]) else None
      ensures old(Paired()) && sampleOut.Length == recordOut.Length ==> Paired() && s.drained == r.drained
    {
      ghost var paired, n := Paired(), Min(|sample.queue|, sampleOut.Length);
      if paired { DropTogether(sample.queue, record.queue, n); }
      s := sample.DrainCycle(sampleOut);
      r := record.DrainCycle(recordOut);
    }

    /** Copies the drained items over an array that keeps its values behind them. */
    static method CopyOver<U>(slots: array<Option<U>>, out: array<U>, ghost count: nat)
      requires slots.Length == out.Length && count <= out.Length && (slots as object) != out
      requires forall i :: 0 <= i < slots.Length ==> (slots[i].Some? <==> i < count)
      modifies out
      ensures forall i :: 0 <= i < out.Length ==> out[i] == if i < count then slots[i].value else old(out[i])
    {
      var i := 0;
      while i < out.Length
        invariant 0 <= i <= out.Length
        invariant forall j :: 0 <= j < out.Length ==>
                    out[j] == if j < i && j < count then slots[j].value else old(out[j])
      {
        if slots[i].Some? { out[i] := slots[i].value; }
        i := i + 1;
      }
    }

    /** The cycle as the main loop runs it: what is drained goes to the front of the caller's arrays, and the rest of them stays. */
    method DrainCycle(sampleOut: array<T>, recordOut: array<Record<T>>) returns (s: Cycle, r: Cycle)
      requires Valid() && (sampleOut as object) != recordOut
      requires (sampleOut as object) != sample.items && (sampleOut as object) != record.items
      requires (recordOut as object) != sample.items && (recordOut as object) != record.items
      modifies sample, record, sample.items, record.items, sampleOut, recordOut
      ensures Valid()
      ensures s == CycleOf(old(|sample.queue|), old(sample.uncollected), sampleOut.Length, sample.items.Length)
      ensures r == CycleOf(old(|record.queue|), old(record.uncollected), recordOut.Length, record.items.Length)
      ensures sample.queue == old(sample.queue)[s.drained..] && record.queue == old(record.queue)[r.drained..]
      ensures forall i :: 0 <= i < sampleOut.Length ==>
                sampleOut[i] == if i < s.drained then old(sample.queue)[i] else old(sampleOut[i])
      ensures forall i :: 0 <= i < recordOut.Length ==>
                recordOut[i] == if i < r.drained then old(record.queue)[i] else old(recordOut[i])
      ensures old(Paired()) && sampleOut.Length == recordOut.Length ==>
                Paired() && s.drained == r.drained && forall i :: 0 <= i < s.drained ==> sampleOut[i] == recordOut[i].sample
    {
      var sampleSlots := new Option<T>[sampleOut.Length](_ => None);
      var recordSlots := new Option<Record<T>>[recordOut.Length](_ => None);
      s, r := DrainPair(sampleSlots, recordSlots);
      CopyOver(sampleSlots, sampleOut, s.drained);
      CopyOver(recordSlots, recordOut, r.drained);
    }
  }
}
