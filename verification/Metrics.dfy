/**
 The desktop's metric store: fixed-size ring buffers, one per series, filled by
 scrapes that carry a missing series forward, and the success rate drawn from them.
 */
module Metrics {
  import opened Arithmetic
  import opened Wrappers

  const CAPACITY: nat := 150

  datatype Sample = Sample(ts: real, v: real)

  /** The samples a ring buffer still shows out of all that were pushed. */
  function Shown(pushed: seq<Sample>): (r: seq<Sample>)
    ensures |r| == Least(|pushed|, CAPACITY) && r == pushed[|pushed| - |r|..]
  {
    pushed[|pushed| - Least(|pushed|, CAPACITY)..]
  }

  // ------------------------------------------------------------ one ring buffer

  class RingBuffer {
    const ts: array<real>
    const v: array<real>
    var head: nat
    var filled: nat
    ghost var pushed: seq<Sample>

    ghost predicate Valid()
      reads this, ts, v
    {
      && ts != v && ts.Length == CAPACITY && v.Length == CAPACITY
      && head == |pushed| % CAPACITY && filled == Least(|pushed|, CAPACITY)
      && (forall k | |pushed| - filled <= k < |pushed| ::
            ts[k % CAPACITY] == pushed[k].ts && v[k % CAPACITY] == pushed[k].v)
    }

    constructor ()
      ensures Valid() && pushed == [] && fresh(ts) && fresh(v)
    {
      ts, v := new real[CAPACITY], new real[CAPACITY];
      head, filled, pushed := 0, 0, [];
    }

    method Push(t: real, value: real)
      requires Valid()
      modifies this, ts, v
      ensures Valid() && pushed == old(pushed) + [Sample(t, value)]
    {
      ts[head] := t;
      v[head] := value;
      forall k | |pushed| - CAPACITY < k < |pushed| && k >= 0
        ensures k % CAPACITY != head
      {
        SlotsDiffer(k, |pushed|);
      }
      head := (head + 1) % CAPACITY;
      if filled < CAPACITY {
        filled := filled + 1;
      }
      pushed := pushed + [Sample(t, value)];
    }

    method LatestValue() returns (r: Option<real>)
      requires Valid()
      ensures r == if pushed == [] then None else Some(pushed[|pushed| - 1].v)
    {
      if filled == 0 {
        return None;
      }
      var idx := (head - 1 + CAPACITY) % CAPACITY;
      SlotOf(|pushed| - 1, 1);
      return Some(v[idx]);
    }

    /** Where the `i`-th sample shown is stored. */
    lemma SlotShows(i: nat, start: nat, idx: nat)
      requires Valid() && i < filled
      requires start == (if filled < CAPACITY then 0 else head) && idx == (start + i) % CAPACITY
      ensures idx < CAPACITY && i < |Shown(pushed)| && Sample(ts[idx], v[idx]) == Shown(pushed)[i]
    {
      var k := |pushed| - filled + i;
      SlotOfShown(|pushed|, i);
      assert ts[k % CAPACITY] == pushed[k].ts;
    }

    method ToArrays() returns (times: seq<real>, values: seq<real>)
      requires Valid()
      ensures |times| == |values| == |Shown(pushed)|
      ensures forall i | 0 <= i < |times| :: Sample(times[i], values[i]) == Shown(pushed)[i]
    {
      times, values := [], [];
      if filled == 0 {
        return;
      }
      ghost var shown := Shown(pushed);
      var start := if filled < CAPACITY then 0 else head;
      for i := 0 to filled
        invariant |times| == |values| == i
        invariant forall j | 0 <= j < i :: Sample(times[j], values[j]) == shown[j]
      {
        var idx := (start + i) % CAPACITY;
        SlotShows(i, start, idx);
        times, values := times + [ts[idx]], values + [v[idx]];
      }
    }
  }

  lemma SlotsDiffer(k: nat, n: nat)
    requires k < n < k + CAPACITY
    ensures k % CAPACITY != n % CAPACITY
  {
  }

  lemma SlotOfShown(n: nat, i: nat)
    requires i < Least(n, CAPACITY)
    ensures ((if n < CAPACITY then 0 else n % CAPACITY) + i) % CAPACITY == (n - Least(n, CAPACITY) + i) % CAPACITY
  {
    if n >= CAPACITY {
      SlotOf(n, i);
      SlotOf(n - CAPACITY, i);
    }
  }

  lemma SlotOf(n: nat, i: nat)
    ensures (n % CAPACITY + i) % CAPACITY == (n + i) % CAPACITY
    ensures n >= CAPACITY ==> (n - CAPACITY) % CAPACITY == n % CAPACITY
  {
  }
}
