/** The store itself: one ring buffer object per series, filled in place. */
module MetricsStore {
  import opened Metrics
  import opened Scrapes

  /** Two buffers share no memory. */
  ghost predicate Apart(a: RingBuffer, b: RingBuffer)
  {
    a != b && a.ts != b.ts && a.ts != b.v && a.v != b.ts && a.v != b.v
  }

  ghost predicate Owns(repr: set<object>, b: RingBuffer)
  {
    b in repr && b.ts in repr && b.v in repr
  }

  ghost predicate AllApart(series: map<string, RingBuffer>)
  {
    forall j, k | j in series && k in series && j != k :: Apart(series[j], series[k])
  }

  lemma ApartOneMore(series: map<string, RingBuffer>, key: string, buf: RingBuffer)
    requires AllApart(series) && key !in series && forall k | k in series :: Apart(series[k], buf)
    ensures AllApart(series[key := buf])
  {
  }

  /** Every buffer of a map is sound and in the footprint. */
  ghost predicate AllKept(series: map<string, RingBuffer>, repr: set<object>)
    reads repr
  {
    forall k | k in series :: Owns(repr, series[k]) && series[k].Valid()
  }

  ghost function HistoriesOf(series: map<string, RingBuffer>, repr: set<object>): Histories
    requires AllKept(series, repr)
    reads repr
  {
    map k | k in series :: series[k].pushed
  }

  lemma {:induction false} KeptOneMore(series: map<string, RingBuffer>, repr: set<object>, key: string, buf: RingBuffer)
    requires AllKept(series, repr) && key !in series && buf.Valid() && buf.pushed == []
    ensures AllKept(series[key := buf], repr + {buf, buf.ts, buf.v})
    ensures HistoriesOf(series[key := buf], repr + {buf, buf.ts, buf.v}) == HistoriesOf(series, repr)[key := []]
  {
  }

  /** The keys of a map, each once. */
  ghost predicate Lists(keys: seq<string>, all: set<string>)
  {
    && (forall k :: k in keys <==> k in all)
    && (forall i, j | 0 <= i < j < |keys| :: keys[i] != keys[j])
  }

  lemma ListsOneMore(keys: seq<string>, all: set<string>, key: string)
    requires Lists(keys, all) && key !in all
    ensures Lists(keys + [key], all + {key})
  {
  }

  /** The series under the first `i` keys have been carried forward. */
  ghost predicate PartlyCarried(before: Histories, after: Histories, keys: seq<string>, i: nat, seen: set<string>, ts: real)
    requires i <= |keys|
  {
    && after.Keys == before.Keys
    && (forall k | k in before ::
          after[k] == if k in keys[..i] && k !in seen then Repeated(before[k], ts) else before[k])
  }

  lemma CarryOneMore(before: Histories, after: Histories, keys: seq<string>, i: nat, seen: set<string>, ts: real)
    requires i < |keys| && Lists(keys, before.Keys) && PartlyCarried(before, after, keys, i, seen, ts)
    ensures keys[i] in after
    ensures keys[i] in seen ==> PartlyCarried(before, after, keys, i + 1, seen, ts)
    ensures keys[i] !in seen ==>
              PartlyCarried(before, after[keys[i] := Repeated(after[keys[i]], ts)], keys, i + 1, seen, ts)
  {
    assert keys[i] !in keys[..i];
    assert keys[..i + 1] == keys[..i] + [keys[i]];
  }

  lemma AllAreCarried(before: Histories, after: Histories, keys: seq<string>, seen: set<string>, ts: real)
    requires Lists(keys, before.Keys) && PartlyCarried(before, after, keys, |keys|, seen, ts)
    ensures after == Carried(before, seen, ts)
  {
    assert keys[..|keys|] == keys;
  }

  /** Pushes to one buffer of a map. */
  method PushTo(series: map<string, RingBuffer>, ghost repr: set<object>, key: string, ts: real, value: real)
    requires AllKept(series, repr) && AllApart(series) && key in series
    modifies repr
    ensures AllKept(series, repr)
    ensures HistoriesOf(series, repr) == Pushed(old(HistoriesOf(series, repr)), key, Sample(ts, value))
  {
    series[key].Push(ts, value);
    assert forall k | k in series && k != key :: series[k].Valid() && series[k].pushed == old(series[k].pushed);
  }

  class Store {
    var bossSeries: map<string, RingBuffer>
    /** The keys in insertion order, which is how the map is walked. */
    var keys: seq<string>
    ghost var Repr: set<object>

    ghost predicate Valid()
      reads this`bossSeries, this`keys, this`Repr, Repr
    {
      && AllKept(bossSeries, Repr)
      && AllApart(bossSeries)
      && this !in Repr
      && Lists(keys, bossSeries.Keys)
    }

    ghost function Histories(): Histories
      requires Valid()
      reads this`bossSeries, this`keys, this`Repr, Repr
    {
      HistoriesOf(bossSeries, Repr)
    }

    constructor ()
      ensures Valid() && Histories() == map[] && fresh(Repr)
    {
      bossSeries, keys := map[], [];
      Repr := {};
    }

    /** Adds an empty series. */
    method Create(key: string)
      requires Valid() && key !in bossSeries
      modifies this
      ensures Valid() && fresh(Repr - old(Repr)) && key in bossSeries
      ensures Histories() == old(Histories())[key := []]
    {
      var buf := new RingBuffer();
      assert forall k | k in bossSeries :: Owns(Repr, bossSeries[k]);
      Adopt(key, buf);
    }

    method Adopt(key: string, buf: RingBuffer)
      requires Valid() && key !in bossSeries && buf.Valid() && buf.pushed == []
      requires forall k | k in bossSeries :: Apart(bossSeries[k], buf)
      modifies this
      ensures Valid() && Repr == old(Repr) + {buf, buf.ts, buf.v} && key in bossSeries
      ensures Histories() == old(Histories())[key := []]
    {
      ListsOneMore(keys, bossSeries.Keys, key);
      ApartOneMore(bossSeries, key, buf);
      KeptOneMore(bossSeries, Repr, key, buf);
      assert bossSeries[key := buf].Keys == bossSeries.Keys + {key};
      Replace(bossSeries[key := buf], keys + [key], Repr + {buf, buf.ts, buf.v});
    }

    method Replace(series: map<string, RingBuffer>, order: seq<string>, ghost repr: set<object>)
      requires AllKept(series, repr) && AllApart(series) && this !in repr && Lists(order, series.Keys)
      modifies this
      ensures Valid() && bossSeries == series && keys == order && Repr == repr
      ensures Histories() == old(HistoriesOf(series, repr))
    {
      bossSeries, keys, Repr := series, order, repr;
    }

    /** Pushes one sample to an existing series, in place. */
    method Extend(key: string, ts: real, value: real)
      requires Valid() && key in bossSeries
      modifies Repr
      ensures Valid() && bossSeries == old(bossSeries) && Repr == old(Repr) && keys == old(keys)
      ensures Histories() == Pushed(old(Histories()), key, Sample(ts, value))
    {
      PushTo(bossSeries, Repr, key, ts, value);
    }

    method PushReading(ts: real, r: Reading)
      requires Valid()
      modifies this, Repr
      ensures Valid() && fresh(Repr - old(Repr))
      ensures Histories() == Pushed(old(Histories()), r.key, Sample(ts, r.value))
    {
      if r.key !in bossSeries {
        Create(r.key);
      }
      Extend(r.key, ts, r.value);
    }

    /** One scrape: its samples are pushed, then every other series repeats its latest value. */
    method PushBoss(ts: real, readings: seq<Reading>)
      requires Valid()
      modifies this, Repr
      ensures Valid() && fresh(Repr - old(Repr))
      ensures Histories() == Scraped(old(Histories()), Scrape(ts, readings))
    {
      var seen := PushReadings(ts, readings);
      CarryForward(ts, seen);
    }

    method PushReadings(ts: real, readings: seq<Reading>) returns (seen: set<string>)
      requires Valid()
      modifies this, Repr
      ensures Valid() && fresh(Repr - old(Repr))
      ensures Histories() == AllPushed(old(Histories()), ts, readings) && seen == KeysOf(readings)
    {
      seen := {};
      var i := 0;
      while i < |readings|
        invariant 0 <= i <= |readings|
        invariant Valid() && fresh(Repr - old(Repr))
        invariant Histories() == AllPushed(old(Histories()), ts, readings[..i]) && seen == KeysOf(readings[..i])
      {
        assert readings[..i + 1][..i] == readings[..i];
        KeysSplit(readings[..i + 1]);
        PushReading(ts, readings[i]);
        seen := seen + {readings[i].key};
        i := i + 1;
      }
      assert readings[..i] == readings;
    }

    method CarryForward(ts: real, seen: set<string>)
      requires Valid()
      modifies Repr
      ensures Valid() && Repr == old(Repr) && Histories() == Carried(old(Histories()), seen, ts)
    {
      ghost var before := Histories();
      var i := 0;
      while i < |keys|
        invariant 0 <= i <= |keys|
        invariant Valid() && Repr == old(Repr) && keys == old(keys)
        invariant PartlyCarried(before, Histories(), keys, i, seen, ts)
      {
        CarryOneMore(before, Histories(), keys, i, seen, ts);
        assert keys[i] in bossSeries;
        if keys[i] !in seen {
          RepeatLatest(keys[i], ts);
        }
        i := i + 1;
      }
      AllAreCarried(before, Histories(), keys, seen, ts);
    }

    method RepeatLatest(key: string, ts: real)
      requires Valid() && key in bossSeries
      modifies Repr
      ensures Valid() && bossSeries == old(bossSeries) && Repr == old(Repr) && keys == old(keys)
      ensures Histories() == old(Histories())[key := Repeated(old(Histories())[key], ts)]
    {
      var last := bossSeries[key].LatestValue();
      if last.Some? {
        Extend(key, ts, last.value);
      }
    }
  }

  // ------------------------------------------------------------ the success rate

  /** An index beyond the end reads as nothing, which counts as 0. */
  function ValueAt(values: seq<real>, i: nat): real
  {
    if i < |values| then values[i] else 0.0
  }

  /** The histories of a store, which reading it leaves alone. */
  ghost predicate Keeps(store: Store, h: Histories)
    reads store, store.Repr
  {
    store.Valid() && store.Histories() == h
  }

  /** The values of one status, zeros if it has no series. */
  method StatusValues(store: Store, status: string, length: nat, ghost h: Histories) returns (values: seq<real>)
    requires Keeps(store, h)
    ensures Keeps(store, h)
    ensures forall i: nat | i < length :: ValueAt(values, i) == ShownValue(h, status, i)
  {
    if StatusKey(status) !in store.bossSeries {
      return seq(length, _ => 0.0);
    }
    var times;
    times, values := store.bossSeries[StatusKey(status)].ToArrays();
    assert forall i | 0 <= i < |values| :: Sample(times[i], values[i]).v == values[i];
  }

  method OkValues(store: Store, ghost h: Histories) returns (values: seq<real>)
    requires Keeps(store, h)
    ensures Keeps(store, h) && AreOkValues(h, values)
  {
    if StatusKey("ok") !in store.bossSeries {
      return [];
    }
    var times;
    times, values := store.bossSeries[StatusKey("ok")].ToArrays();
    assert forall i | 0 <= i < |values| :: Sample(times[i], values[i]).v == values[i];
  }

  method ComputeSuccessRateSeries(store: Store) returns (out: seq<real>)
    requires store.Valid()
    ensures out == SuccessRates(store.Histories())
  {
    out := RatesAgainst(store, OTHERS, store.Histories());
  }

  method RatesAgainst(store: Store, statuses: seq<string>, ghost h: Histories) returns (out: seq<real>)
    requires Keeps(store, h)
    ensures Keeps(store, h) && out == RatesOver(h, statuses)
  {
    var okValues := OkValues(store, h);
    var otherValues := OtherValues(store, statuses, |okValues|, h);
    out := RatesOf(okValues, otherValues, statuses, h);
  }

  method RatesOf(okValues: seq<real>, all: seq<seq<real>>, statuses: seq<string>, ghost h: Histories)
    returns (out: seq<real>)
    requires AreShown(h, all, statuses, |okValues|) && AreOkValues(h, okValues)
    ensures out == RatesOver(h, statuses)
  {
    out := [];
    for i := 0 to |okValues|
      invariant |out| == i
      invariant forall j | 0 <= j < i :: out[j] == Rate(okValues[j], OtherAt(h, statuses, j))
    {
      var other := SumAt(all, statuses, |okValues|, i, h);
      out := out + [Rate(okValues[i], other)];
    }
  }

  ghost predicate AreOkValues(h: Histories, values: seq<real>)
  {
    |values| == |OkShown(h)| && forall i | 0 <= i < |values| :: values[i] == OkShown(h)[i].v
  }

  method OtherValues(store: Store, statuses: seq<string>, length: nat, ghost h: Histories) returns (all: seq<seq<real>>)
    requires Keeps(store, h)
    ensures Keeps(store, h) && AreShown(h, all, statuses, length)
  {
    all := [];
    for j := 0 to |statuses|
      invariant Keeps(store, h) && AreShown(h, all, statuses[..j], length)
    {
      var values := StatusValues(store, statuses[j], length, h);
      ShownOneMore(h, all, statuses, j, values, length);
      all := all + [values];
    }
    assert statuses[..|statuses|] == statuses;
  }

  /** The values of each of some statuses. */
  ghost predicate AreShown(h: Histories, all: seq<seq<real>>, statuses: seq<string>, length: nat)
  {
    && |all| == |statuses|
    && (forall j, i: nat | 0 <= j < |all| && i < length :: ValueAt(all[j], i) == ShownValue(h, statuses[j], i))
  }

  lemma ShownOneMore(h: Histories, all: seq<seq<real>>, statuses: seq<string>, j: nat, values: seq<real>, length: nat)
    requires j < |statuses| && AreShown(h, all, statuses[..j], length)
    requires forall i: nat | i < length :: ValueAt(values, i) == ShownValue(h, statuses[j], i)
    ensures AreShown(h, all + [values], statuses[..j + 1], length)
  {
  }

  method SumAt(all: seq<seq<real>>, statuses: seq<string>, length: nat, i: nat, ghost h: Histories) returns (other: real)
    requires AreShown(h, all, statuses, length) && i < length
    ensures other == OtherAt(h, statuses, i)
  {
    other := 0.0;
    for j := 0 to |all|
      invariant other == OtherAt(h, statuses[..j], i)
    {
      assert statuses[..j + 1][..j] == statuses[..j];
      other := other + ValueAt(all[j], i);
    }
    assert statuses[..|statuses|] == statuses;
  }
}
