/** The per-key sliding window counter of detection/base.py. */
module SlidingWindow {
  import opened Models
  import opened Sequences

  type Entries = map<string, seq<LogEvent>>

  function Recent(cutoff: Instant): LogEvent -> bool {
    (e: LogEvent) => e.timestamp >= cutoff
  }

  function Bucket(entries: Entries, key: string): seq<LogEvent> {
    if key in entries then entries[key] else []
  }

  /** One `add`: append, then evict what is older than the window. */
  function Added(entries: Entries, windowSeconds: int, key: string, event: LogEvent): Entries {
    entries[key := Filter(Recent(event.timestamp - Seconds(windowSeconds)), Bucket(entries, key) + [event])]
  }

  class SlidingWindowCounter {
    const windowSeconds: int
    var entries: Entries

    constructor (windowSeconds: int)
      ensures this.windowSeconds == windowSeconds && entries == map[]
    {
      this.windowSeconds := windowSeconds;
      entries := map[];
    }

    method Add(key: string, event: LogEvent) returns (window: seq<LogEvent>)
      modifies this
      ensures entries == Added(old(entries), windowSeconds, key, event)
      ensures window == Bucket(entries, key)
      ensures forall other | other != key :: Bucket(entries, other) == old(Bucket(entries, other))
    {
      var bucket := if key in entries then entries[key] else [];
      bucket := bucket + [event];
      var cutoff := event.timestamp - Seconds(windowSeconds);
      bucket := Filter(Recent(cutoff), bucket);
      entries := entries[key := bucket];
      window := bucket;
    }

    method WindowAsOf(key: string, asOf: Instant) returns (window: seq<LogEvent>)
      ensures window == Filter(Recent(asOf - Seconds(windowSeconds)), Bucket(entries, key))
    {
      var cutoff := asOf - Seconds(windowSeconds);
      window := Filter(Recent(cutoff), if key in entries then entries[key] else []);
    }
  }

  // ---------------------------------------------------------------------------
  // Eviction loses nothing
  // ---------------------------------------------------------------------------

  /** The bucket is the whole history `h` of its key, cut at the window of the last event. */
  ghost predicate Lossless(windowSeconds: int, bucket: seq<LogEvent>, h: seq<LogEvent>) {
    bucket == if h == [] then [] else Filter(Recent(h[|h| - 1].timestamp - Seconds(windowSeconds)), h)
  }

  /** Any look at the window from now on shows what the whole history would show. */
  lemma LosslessView(windowSeconds: int, bucket: seq<LogEvent>, h: seq<LogEvent>, asOf: Instant)
    requires Lossless(windowSeconds, bucket, h)
    requires h != [] ==> h[|h| - 1].timestamp <= asOf
    ensures Filter(Recent(asOf - Seconds(windowSeconds)), bucket) == Filter(Recent(asOf - Seconds(windowSeconds)), h)
  {
    if h != [] {
      var early, late := h[|h| - 1].timestamp - Seconds(windowSeconds), asOf - Seconds(windowSeconds);
      FilterCompose(Recent(early), Recent(late), Recent(late), h);
    }
  }

  lemma LosslessAdd(windowSeconds: int, bucket: seq<LogEvent>, h: seq<LogEvent>, e: LogEvent)
    requires Lossless(windowSeconds, bucket, h)
    requires h != [] ==> h[|h| - 1].timestamp <= e.timestamp
    ensures Lossless(windowSeconds, Filter(Recent(e.timestamp - Seconds(windowSeconds)), bucket + [e]), h + [e])
  {
    var cutoff := e.timestamp - Seconds(windowSeconds);
    LosslessView(windowSeconds, bucket, h, e.timestamp);
    FilterSnoc(Recent(cutoff), bucket, e);
    FilterSnoc(Recent(cutoff), h, e);
  }

  datatype Record = Record(key: string, event: LogEvent)

  function AddAll(windowSeconds: int, records: seq<Record>): Entries {
    if records == [] then map[]
    else
      var last := records[|records| - 1];
      Added(AddAll(windowSeconds, records[..|records| - 1]), windowSeconds, last.key, last.event)
  }

  /** Everything ever recorded under `key`. */
  function History(records: seq<Record>, key: string): seq<LogEvent> {
    if records == [] then []
    else
      var last, front := records[|records| - 1], History(records[..|records| - 1], key);
      if last.key == key then front + [last.event] else front
  }

  lemma OneRecordMore(windowSeconds: int, records: seq<Record>, key: string)
    requires records != []
    ensures var front, last := records[..|records| - 1], records[|records| - 1];
            && AddAll(windowSeconds, records)
               == Added(AddAll(windowSeconds, front), windowSeconds, last.key, last.event)
            && History(records, key)
               == if last.key == key then History(front, key) + [last.event] else History(front, key)
  {
    hide Added;
  }

  ghost predicate OrderedPerKey(records: seq<Record>) {
    forall i, j | 0 <= i < j < |records| && records[i].key == records[j].key ::
      records[i].event.timestamp <= records[j].event.timestamp
  }

  lemma {:induction false} LastOfHistory(records: seq<Record>, key: string)
    requires History(records, key) != []
    ensures var h := History(records, key); Record(key, h[|h| - 1]) in records
  {
    var last := records[|records| - 1];
    if last.key != key {
      LastOfHistory(records[..|records| - 1], key);
    }
  }

  lemma LastOfHistoryIsEarlier(records: seq<Record>)
    requires OrderedPerKey(records) && records != []
    ensures var last := records[|records| - 1];
            var h := History(records[..|records| - 1], last.key);
            h != [] ==> h[|h| - 1].timestamp <= last.event.timestamp
  {
    var front, last := records[..|records| - 1], records[|records| - 1];
    var h := History(front, last.key);
    if h != [] {
      LastOfHistory(front, last.key);
      var i :| 0 <= i < |front| && front[i] == Record(last.key, h[|h| - 1]);
      assert records[i] == front[i];
    }
  }

  lemma NothingRecorded(windowSeconds: int, key: string)
    ensures Bucket(AddAll(windowSeconds, []), key) == [] && History([], key) == []
    ensures Survivors(windowSeconds, []) == [] && Lossless(windowSeconds, [], [])
  {
  }

  lemma OrderedFront(records: seq<Record>)
    requires OrderedPerKey(records) && records != []
    ensures OrderedPerKey(records[..|records| - 1])
  {
  }

  lemma LosslessAfter(entries: Entries, windowSeconds: int, r: Record, key: string, h: seq<LogEvent>)
    requires Lossless(windowSeconds, Bucket(entries, key), h)
    requires r.key == key && h != [] ==> h[|h| - 1].timestamp <= r.event.timestamp
    ensures Lossless(windowSeconds, Bucket(Added(entries, windowSeconds, r.key, r.event), key),
                     if r.key == key then h + [r.event] else h)
  {
    hide Filter, Lossless, Added, Bucket;
    BucketAfter(entries, windowSeconds, r, key);
    if r.key == key {
      LosslessAdd(windowSeconds, Bucket(entries, key), h, r.event);
    }
  }

  lemma {:induction false} BucketIsLossless(windowSeconds: int, records: seq<Record>, key: string)
    requires OrderedPerKey(records)
    ensures Lossless(windowSeconds, Bucket(AddAll(windowSeconds, records), key), History(records, key))
  {
    hide Filter, Added, Bucket, Lossless, AddAll, History, OrderedPerKey;
    if records == [] {
      NothingRecorded(windowSeconds, key);
    } else {
      var front, last := records[..|records| - 1], records[|records| - 1];
      OrderedFront(records);
      BucketIsLossless(windowSeconds, front, key);
      LastOfHistoryIsEarlier(records);
      OneRecordMore(windowSeconds, records, key);
      LosslessAfter(AddAll(windowSeconds, front), windowSeconds, last, key, History(front, key));
    }
  }

  /** With non-decreasing timestamps per key, after any sequence of `add` calls every bucket is
      the whole history of its key cut at the window of its last event, and `window_as_of` any
      instant from then on equals the same cut of the whole history. */
  lemma EvictionIsLossless(windowSeconds: int, records: seq<Record>, key: string, asOf: Instant)
    requires OrderedPerKey(records)
    requires forall r | r in records && r.key == key :: r.event.timestamp <= asOf
    ensures Lossless(windowSeconds, Bucket(AddAll(windowSeconds, records), key), History(records, key))
    ensures Filter(Recent(asOf - Seconds(windowSeconds)), Bucket(AddAll(windowSeconds, records), key))
         == Filter(Recent(asOf - Seconds(windowSeconds)), History(records, key))
  {
    BucketIsLossless(windowSeconds, records, key);
    if History(records, key) != [] {
      LastOfHistory(records, key);
    }
    LosslessView(windowSeconds, Bucket(AddAll(windowSeconds, records), key), History(records, key), asOf);
  }

  // Without the order -------------------------------------------------------------

  /** No event of the window from `cutoff` on was followed by one more than a window later. */
  ghost predicate NoneOvertaken(windowSeconds: int, h: seq<LogEvent>, cutoff: Instant) {
    forall i, j | 0 <= i < j < |h| && h[i].timestamp >= cutoff ::
      h[j].timestamp - h[i].timestamp <= Seconds(windowSeconds)
  }

  /** What is left of a history when every event in turn evicts. */
  function Survivors(windowSeconds: int, h: seq<LogEvent>): seq<LogEvent> {
    if h == [] then []
    else
      var front, last := h[..|h| - 1], h[|h| - 1];
      Filter(Recent(last.timestamp - Seconds(windowSeconds)), Survivors(windowSeconds, front) + [last])
  }

  lemma {:induction false} BucketIsSurvivors(windowSeconds: int, records: seq<Record>, key: string)
    ensures Bucket(AddAll(windowSeconds, records), key) == Survivors(windowSeconds, History(records, key))
  {
    hide Filter, Survivors, Added, Bucket, AddAll, History;
    if records == [] {
      NothingRecorded(windowSeconds, key);
    } else {
      var front, last := records[..|records| - 1], records[|records| - 1];
      OneRecordMore(windowSeconds, records, key);
      BucketIsSurvivors(windowSeconds, front, key);
      BucketAfter(AddAll(windowSeconds, front), windowSeconds, last, key);
      EachEvicts(windowSeconds, History(front, key), last.event);
    }
  }

  lemma BucketAfter(entries: Entries, windowSeconds: int, r: Record, key: string)
    ensures Bucket(Added(entries, windowSeconds, r.key, r.event), key)
         == if r.key == key
            then Filter(Recent(r.event.timestamp - Seconds(windowSeconds)), Bucket(entries, key) + [r.event])
            else Bucket(entries, key)
  {
  }

  lemma EachEvicts(windowSeconds: int, h: seq<LogEvent>, e: LogEvent)
    ensures Survivors(windowSeconds, h + [e])
         == Filter(Recent(e.timestamp - Seconds(windowSeconds)), Survivors(windowSeconds, h) + [e])
  {
    hide Filter;
    assert (h + [e])[..|h|] == h;
  }

  lemma LastEvicts(windowSeconds: int, front: seq<LogEvent>, last: LogEvent)
    requires windowSeconds >= 0
    ensures Survivors(windowSeconds, front + [last])
         == Filter(Recent(last.timestamp - Seconds(windowSeconds)), Survivors(windowSeconds, front)) + [last]
  {
    hide Filter, Survivors;
    EachEvicts(windowSeconds, front, last);
    FilterSnoc(Recent(last.timestamp - Seconds(windowSeconds)), Survivors(windowSeconds, front), last);
  }

  lemma SurvivorsSnoc(windowSeconds: int, front: seq<LogEvent>, last: LogEvent, cutoff: Instant)
    requires windowSeconds >= 0
    ensures Filter(Recent(cutoff), Survivors(windowSeconds, front + [last]))
         == Filter(Recent(last.timestamp - Seconds(windowSeconds)),
             Filter(Recent(cutoff), Survivors(windowSeconds, front)))
            + if last.timestamp >= cutoff then [last] else []
  {
    hide Filter, Survivors, Seconds;
    var early := last.timestamp - Seconds(windowSeconds);
    var before := Survivors(windowSeconds, front);
    LastEvicts(windowSeconds, front, last);
    FilterSnoc(Recent(cutoff), Filter(Recent(early), before), last);
    var late := if early <= cutoff then cutoff else early;
    FilterCompose(Recent(early), Recent(cutoff), Recent(late), before);
    FilterCompose(Recent(cutoff), Recent(early), Recent(late), before);
    var kept := Filter(Recent(cutoff), Filter(Recent(early), before));
    assert kept + [] == kept;
  }

  lemma {:induction false} SurvivorsAreFewer(windowSeconds: int, h: seq<LogEvent>, cutoff: Instant)
    requires windowSeconds >= 0
    ensures |Filter(Recent(cutoff), Survivors(windowSeconds, h))| <= |Filter(Recent(cutoff), h)|
  {
    if h != [] {
      hide Filter;
      var front, last := h[..|h| - 1], h[|h| - 1];
      assert h == front + [last];
      SurvivorsAreFewer(windowSeconds, front, cutoff);
      SurvivorsSnoc(windowSeconds, front, last, cutoff);
      FilterSnoc(Recent(cutoff), front, last);
      FilterIsAll(Recent(last.timestamp - Seconds(windowSeconds)),
          Filter(Recent(cutoff), Survivors(windowSeconds, front)));
    }
  }

  lemma OneMoreOvertakes(windowSeconds: int, front: seq<LogEvent>, last: LogEvent, cutoff: Instant)
    ensures NoneOvertaken(windowSeconds, front + [last], cutoff)
        <==> NoneOvertaken(windowSeconds, front, cutoff)
             && forall e | e in Filter(Recent(cutoff), front) :: e.timestamp >= last.timestamp - Seconds(windowSeconds)
  {
    hide Filter;
    var h := front + [last];
    FilterMembers(Recent(cutoff), front);
    if NoneOvertaken(windowSeconds, h, cutoff) {
      assert forall i | 0 <= i < |front| :: h[i] == front[i];
      assert h[|front|] == last;
    }
  }

  lemma {:induction false} SurvivorsExactly(windowSeconds: int, h: seq<LogEvent>, cutoff: Instant)
    requires windowSeconds >= 0
    ensures Filter(Recent(cutoff), Survivors(windowSeconds, h)) == Filter(Recent(cutoff), h)
        <==> NoneOvertaken(windowSeconds, h, cutoff)
  {
    if h != [] {
      hide Filter, NoneOvertaken;
      var front, last := h[..|h| - 1], h[|h| - 1];
      assert h == front + [last];
      SurvivorsExactly(windowSeconds, front, cutoff);
      SurvivorsSnoc(windowSeconds, front, last, cutoff);
      FilterSnoc(Recent(cutoff), front, last);
      OneMoreOvertakes(windowSeconds, front, last, cutoff);
      SurvivorsAreFewer(windowSeconds, front, cutoff);
      var p := Recent(last.timestamp - Seconds(windowSeconds));
      FilterIsAll(p, Filter(Recent(cutoff), Survivors(windowSeconds, front)));
      SameTail(Filter(p, Filter(Recent(cutoff), Survivors(windowSeconds, front))), Filter(Recent(cutoff), front),
               if last.timestamp >= cutoff then [last] else []);
    }
  }

  lemma SameTail(a: seq<LogEvent>, b: seq<LogEvent>, tail: seq<LogEvent>)
    ensures a + tail == b + tail <==> a == b
  {
    if a + tail == b + tail {
      assert a == (a + tail)[..|a + tail| - |tail|] && b == (b + tail)[..|b + tail| - |tail|];
    }
  }

  /** Exactly when eviction loses nothing, in whatever order events are added: a look at the window
      shows what the whole history would show iff no event of that window has been followed by one
      more than a window later. */
  lemma EvictionIsLosslessIff(windowSeconds: int, records: seq<Record>, key: string, asOf: Instant)
    requires windowSeconds >= 0
    ensures Filter(Recent(asOf - Seconds(windowSeconds)), Bucket(AddAll(windowSeconds, records), key))
         == Filter(Recent(asOf - Seconds(windowSeconds)), History(records, key))
        <==> NoneOvertaken(windowSeconds, History(records, key), asOf - Seconds(windowSeconds))
  {
    hide Filter, Survivors, AddAll, Bucket, History, NoneOvertaken;
    BucketIsSurvivors(windowSeconds, records, key);
    SurvivorsExactly(windowSeconds, History(records, key), asOf - Seconds(windowSeconds));
  }

  /** The order requirement is real: an event that steps back in time finds the evictions made
      by later ones already done, and an event inside its window is gone. */
  lemma EvictionNeedsOrder(a: LogEvent, b: LogEvent, c: LogEvent)
    requires a.timestamp == Seconds(0) && b.timestamp == Seconds(100) && c.timestamp == Seconds(10)
    ensures var records := [Record("ip", a), Record("ip", b), Record("ip", c)];
            && a in Filter(Recent(c.timestamp - Seconds(60)), History(records, "ip"))
            && a !in Bucket(AddAll(60, records), "ip")
  {
    var records := [Record("ip", a), Record("ip", b), Record("ip", c)];
    HistoryOfThree("ip", a, b, c);
    hide Filter, History, AddAll, Bucket;
    BucketIsSurvivors(60, records, "ip");
    FilterMembers(Recent(c.timestamp - Seconds(60)), [a, b, c]);
    assert [a, b, c][..2] == [a, b];
    FilterMembers(Recent(b.timestamp - Seconds(60)), Survivors(60, [a, b][..1]) + [b]);
    FilterMembers(Recent(c.timestamp - Seconds(60)), Survivors(60, [a, b]) + [c]);
    assert a in [a, b, c] && a != b && a != c;
  }

  lemma HistoryOfThree(key: string, a: LogEvent, b: LogEvent, c: LogEvent)
    ensures History([Record(key, a), Record(key, b), Record(key, c)], key) == [a, b, c]
  {
    var ra, rb, rc := Record(key, a), Record(key, b), Record(key, c);
    assert [ra, rb, rc][..2] == [ra, rb] && [ra, rb][..1] == [ra] && [ra][..0] == [];
    assert History([ra], key) == [a] && History([ra, rb], key) == [a, b];
  }
}
