/** What the day aggregator guarantees, proved about the model in Schedule. */
module ScheduleProperties {
  import opened Schedule

  /** The key of every keyed record, in input order. */
  function KeysIn(ks: seq<Keyed>): (keys: seq<string>)
    ensures |keys| == |ks|
  {
    seq(|ks|, j requires 0 <= j < |ks| => ks[j].key)
  }

  /** Reference definition: the records keyed `key`, in input order. */
  function On(ks: seq<Keyed>, key: string): seq<ScheduledEpisode> {
    if ks == [] then []
    else
      var last := ks[|ks| - 1];
      On(ks[..|ks| - 1], key) + (if last.key == key then [last.item] else [])
  }

  /** Every record, in input order. */
  function ItemsIn(ks: seq<Keyed>): (xs: seq<ScheduledEpisode>)
    ensures |xs| == |ks|
  {
    seq(|ks|, j requires 0 <= j < |ks| => ks[j].item)
  }

  /** All bucket contents, bucket after bucket. */
  function AllItems(g: seq<DayBucket>): seq<ScheduledEpisode> {
    if g == [] then [] else g[0].items + AllItems(g[1..])
  }

  /** Position of the first occurrence of `x` in `s`. */
  function FirstIndex(s: seq<string>, x: string): (r: nat)
    requires x in s
    ensures r < |s| && s[r] == x
    ensures forall j :: 0 <= j < r ==> s[j] != x
  {
    if s[0] == x then 0 else 1 + FirstIndex(s[1..], x)
  }

  ghost predicate DistinctKeys(g: seq<DayBucket>) {
    forall i, j :: 0 <= i < j < |g| ==> g[i].key != g[j].key
  }

  /** Keys are exactly the input's keys, in order of first appearance in the input. */
  ghost predicate KeysFirstSeen(g: seq<DayBucket>, ks: seq<Keyed>) {
    && DistinctKeys(g)
    && (forall i :: 0 <= i < |g| ==> g[i].key in KeysIn(ks))
    && (forall j :: 0 <= j < |ks| ==> ks[j].key in Keys(g))
    && (forall i, j :: 0 <= i < j < |g| ==>
          FirstIndex(KeysIn(ks), g[i].key) < FirstIndex(KeysIn(ks), g[j].key))
  }

  /** Each bucket is non-empty and holds exactly its key's records, in input order. */
  ghost predicate BucketsMatch(g: seq<DayBucket>, ks: seq<Keyed>) {
    forall i :: 0 <= i < |g| ==> g[i].items == On(ks, g[i].key) && g[i].items != []
  }

  ghost predicate Partition(g: seq<DayBucket>, ks: seq<Keyed>) {
    multiset(AllItems(g)) == multiset(ItemsIn(ks))
  }

  lemma KeysInSnoc(ks: seq<Keyed>, r: Keyed)
    ensures KeysIn(ks + [r]) == KeysIn(ks) + [r.key]
  {
    assert forall j :: 0 <= j < |ks| ==> (ks + [r])[j] == ks[j];
  }

  lemma ItemsInSnoc(ks: seq<Keyed>, r: Keyed)
    ensures ItemsIn(ks + [r]) == ItemsIn(ks) + [r.item]
  {
    assert forall j :: 0 <= j < |ks| ==> (ks + [r])[j] == ks[j];
  }

  lemma OnSnoc(ks: seq<Keyed>, r: Keyed, key: string)
    ensures On(ks + [r], key) == On(ks, key) + (if r.key == key then [r.item] else [])
  {
    assert (ks + [r])[..|ks|] == ks;
  }

  lemma {:induction false} OnAbsent(ks: seq<Keyed>, key: string)
    requires key !in KeysIn(ks)
    ensures On(ks, key) == []
  {
    if ks != [] {
      var prefix := ks[..|ks| - 1];
      assert ks == prefix + [ks[|ks| - 1]];
      KeysInSnoc(prefix, ks[|ks| - 1]);
      OnAbsent(prefix, key);
    }
  }

  lemma {:induction false} FirstIndexSnoc(s: seq<string>, y: string, x: string)
    requires x in s
    ensures FirstIndex(s + [y], x) == FirstIndex(s, x)
  {
    if s[0] != x {
      assert (s + [y])[1..] == s[1..] + [y];
      FirstIndexSnoc(s[1..], y, x);
    }
  }

  lemma {:induction false} FirstIndexNew(s: seq<string>, x: string)
    requires x !in s
    ensures FirstIndex(s + [x], x) == |s|
  {
    if s != [] {
      assert (s + [x])[1..] == s[1..] + [x];
      FirstIndexNew(s[1..], x);
    }
  }

  lemma {:induction false} AllItemsSnoc(g: seq<DayBucket>, b: DayBucket)
    ensures AllItems(g + [b]) == AllItems(g) + b.items
  {
    if g == [] {
      assert AllItems([b]) == b.items + AllItems([]);
    } else {
      assert (g + [b])[1..] == g[1..] + [b];
      AllItemsSnoc(g[1..], b);
    }
  }

  /** Appending `x` to one bucket adds exactly `x` to the contents. */
  lemma {:induction false} AllItemsGrow(g: seq<DayBucket>, i: int, key: string, x: ScheduledEpisode)
    requires 0 <= i < |g|
    ensures multiset(AllItems(g[i := DayBucket(key, g[i].items + [x])])) == multiset(AllItems(g)) + multiset{x}
  {
    var h := g[i := DayBucket(key, g[i].items + [x])];
    assert AllItems(h) == h[0].items + AllItems(h[1..]);
    assert AllItems(g) == g[0].items + AllItems(g[1..]);
    if i == 0 {
      assert h[1..] == g[1..];
      assert AllItems(h) == g[0].items + [x] + AllItems(g[1..]);
    } else {
      assert h[1..] == g[1..][i - 1 := DayBucket(key, g[1..][i - 1].items + [x])];
      AllItemsGrow(g[1..], i - 1, key, x);
    }
  }

  /** Adding to an existing bucket: that bucket grows at its end, nothing else moves. */
  lemma ExistingBuckets(g: seq<DayBucket>, ks: seq<Keyed>, r: Keyed)
    requires BucketsMatch(g, ks) && DistinctKeys(g) && r.key in Keys(g)
    ensures BucketsMatch(AddToBucket(g, r.key, r.item), ks + [r])
  {
    var h := AddToBucket(g, r.key, r.item);
    var i0 :| 0 <= i0 < |g| && g[i0].key == r.key && h == g[i0 := DayBucket(r.key, g[i0].items + [r.item])];
    forall i | 0 <= i < |h|
      ensures h[i].items == On(ks + [r], h[i].key) && h[i].items != []
    {
      OnSnoc(ks, r, h[i].key);
      if i != i0 {
        assert h[i] == g[i] && g[i].key != r.key;
      }
    }
  }

  lemma ExistingKeys(g: seq<DayBucket>, ks: seq<Keyed>, r: Keyed)
    requires KeysFirstSeen(g, ks) && r.key in Keys(g)
    ensures KeysFirstSeen(AddToBucket(g, r.key, r.item), ks + [r])
  {
    var h := AddToBucket(g, r.key, r.item);
    var i0 :| 0 <= i0 < |g| && g[i0].key == r.key && h == g[i0 := DayBucket(r.key, g[i0].items + [r.item])];
    assert Keys(h) == Keys(g);
    var kk := KeysIn(ks);
    KeysInSnoc(ks, r);
    forall i | 0 <= i < |g|
      ensures FirstIndex(kk + [r.key], g[i].key) == FirstIndex(kk, g[i].key)
    {
      FirstIndexSnoc(kk, r.key, g[i].key);
    }
    forall j | 0 <= j < |ks + [r]|
      ensures (ks + [r])[j].key in Keys(h)
    {
      if j < |ks| {
        assert (ks + [r])[j] == ks[j];
      }
    }
  }

  lemma ExistingPartition(g: seq<DayBucket>, ks: seq<Keyed>, r: Keyed)
    requires Partition(g, ks) && r.key in Keys(g)
    ensures Partition(AddToBucket(g, r.key, r.item), ks + [r])
  {
    var h := AddToBucket(g, r.key, r.item);
    var i0 :| 0 <= i0 < |g| && g[i0].key == r.key && h == g[i0 := DayBucket(r.key, g[i0].items + [r.item])];
    AllItemsGrow(g, i0, r.key, r.item);
    ItemsInSnoc(ks, r);
  }

  /** A key not among the buckets has not been seen in the input. */
  lemma NewKeyUnseen(g: seq<DayBucket>, ks: seq<Keyed>, key: string)
    requires KeysFirstSeen(g, ks) && key !in Keys(g)
    ensures key !in KeysIn(ks)
  {
    forall j | 0 <= j < |ks|
      ensures KeysIn(ks)[j] != key
    {
      assert ks[j].key in Keys(g);
    }
  }

  /** Opening a new bucket: it goes last and holds just this record. */
  lemma NewBuckets(g: seq<DayBucket>, ks: seq<Keyed>, r: Keyed)
    requires BucketsMatch(g, ks) && KeysFirstSeen(g, ks) && r.key !in Keys(g)
    ensures BucketsMatch(AddToBucket(g, r.key, r.item), ks + [r])
  {
    var h := AddToBucket(g, r.key, r.item);
    NewKeyUnseen(g, ks, r.key);
    OnAbsent(ks, r.key);
    forall i | 0 <= i < |h|
      ensures h[i].items == On(ks + [r], h[i].key) && h[i].items != []
    {
      OnSnoc(ks, r, h[i].key);
      if i < |g| {
        assert h[i] == g[i];
        assert Keys(g)[i] == g[i].key;
      }
    }
  }

  lemma NewKeys(g: seq<DayBucket>, ks: seq<Keyed>, r: Keyed)
    requires KeysFirstSeen(g, ks) && r.key !in Keys(g)
    ensures KeysFirstSeen(AddToBucket(g, r.key, r.item), ks + [r])
  {
    NewKeysAppended(g, ks, r);
  }

  lemma NewKeysAppended(g: seq<DayBucket>, ks: seq<Keyed>, r: Keyed)
    requires KeysFirstSeen(g, ks) && r.key !in Keys(g)
    ensures KeysFirstSeen(g + [DayBucket(r.key, [r.item])], ks + [r])
  {
    var h := g + [DayBucket(r.key, [r.item])];
    assert Keys(h) == Keys(g) + [r.key];
    var kk := KeysIn(ks);
    KeysInSnoc(ks, r);
    NewKeyUnseen(g, ks, r.key);
    FirstIndexNew(kk, r.key);
    forall i | 0 <= i < |g|
      ensures FirstIndex(kk + [r.key], g[i].key) == FirstIndex(kk, g[i].key) && g[i].key != r.key
    {
      FirstIndexSnoc(kk, r.key, g[i].key);
      assert Keys(g)[i] == g[i].key;
    }
    forall j | 0 <= j < |ks + [r]|
      ensures (ks + [r])[j].key in Keys(h)
    {
      if j < |ks| {
        assert (ks + [r])[j] == ks[j];
      }
    }
  }

  lemma NewPartition(g: seq<DayBucket>, ks: seq<Keyed>, r: Keyed)
    requires Partition(g, ks) && r.key !in Keys(g)
    ensures Partition(AddToBucket(g, r.key, r.item), ks + [r])
  {
    AllItemsSnoc(g, DayBucket(r.key, [r.item]));
    ItemsInSnoc(ks, r);
  }

  /** After every prefix of the input, the keys are distinct and exactly the keys seen, in first-seen order. */
  lemma {:induction false} GroupKeys(ks: seq<Keyed>)
    ensures KeysFirstSeen(Group(ks), ks)
  {
    if ks != [] {
      var prefix, r := ks[..|ks| - 1], ks[|ks| - 1];
      assert ks == prefix + [r];
      GroupKeys(prefix);
      var g := Group(prefix);
      if r.key in Keys(g) {
        ExistingKeys(g, prefix, r);
      } else {
        NewKeys(g, prefix, r);
      }
    }
  }

  /** After every prefix of the input, each bucket holds exactly the records with its key, in input order. */
  lemma {:induction false} GroupBuckets(ks: seq<Keyed>)
    ensures BucketsMatch(Group(ks), ks)
  {
    if ks != [] {
      var prefix, r := ks[..|ks| - 1], ks[|ks| - 1];
      assert ks == prefix + [r];
      GroupKeys(prefix);
      GroupBuckets(prefix);
      var g := Group(prefix);
      if r.key in Keys(g) {
        ExistingBuckets(g, prefix, r);
      } else {
        NewBuckets(g, prefix, r);
      }
    }
  }

  /** No record is lost or duplicated after any prefix of the input. */
  lemma {:induction false} GroupPartition(ks: seq<Keyed>)
    ensures Partition(Group(ks), ks)
  {
    if ks != [] {
      var prefix, r := ks[..|ks| - 1], ks[|ks| - 1];
      assert ks == prefix + [r];
      GroupPartition(prefix);
      var g := Group(prefix);
      if r.key in Keys(g) {
        ExistingPartition(g, prefix, r);
      } else {
        NewPartition(g, prefix, r);
      }
    }
  }

  /** The date key of every event, in input order. */
  function EventKeys(events: seq<AiringSchedule>): (keys: seq<string>)
    requires AllKeyable(events)
    ensures |keys| == |events|
  {
    seq(|events|, j requires 0 <= j < |events| => KeyOf(events[j]))
  }

  /** Reference definition: the input's events dated `key`, projected, in input order. */
  function EventsOn(events: seq<AiringSchedule>, key: string): seq<ScheduledEpisode>
    requires AllKeyable(events)
  {
    if events == [] then []
    else
      var e := events[|events| - 1];
      EventsOn(events[..|events| - 1], key) + (if KeyOf(e) == key then [Project(e)] else [])
  }

  /** Every event projected, in input order. */
  function Projected(events: seq<AiringSchedule>): (xs: seq<ScheduledEpisode>)
    ensures |xs| == |events|
  {
    seq(|events|, j requires 0 <= j < |events| => Project(events[j]))
  }

  lemma TagKeys(events: seq<AiringSchedule>)
    requires AllKeyable(events)
    ensures KeysIn(Tag(events)) == EventKeys(events)
    ensures ItemsIn(Tag(events)) == Projected(events)
  {
  }

  lemma {:induction false} TagOn(events: seq<AiringSchedule>, key: string)
    requires AllKeyable(events)
    ensures On(Tag(events), key) == EventsOn(events, key)
  {
    if events != [] {
      var prefix := events[..|events| - 1];
      TagPrefix(events);
      TagOn(prefix, key);
    }
  }

  /** Tagging commutes with dropping the last event. */
  lemma TagPrefix(events: seq<AiringSchedule>)
    requires AllKeyable(events) && events != []
    ensures AllKeyable(events[..|events| - 1])
    ensures Tag(events)[..|events| - 1] == Tag(events[..|events| - 1])
  {
    var prefix := events[..|events| - 1];
    forall j | 0 <= j < |prefix|
      ensures Tag(events)[j] == Tag(prefix)[j]
    {
      assert prefix[j] == events[j];
    }
  }

  /** Each day's bucket is non-empty and holds exactly that day's events, projected, in input order. */
  lemma GroupByDayBuckets(events: seq<AiringSchedule>)
    requires AllKeyable(events)
    ensures forall i :: 0 <= i < |GroupByDay(events)| ==>
      GroupByDay(events)[i].items == EventsOn(events, GroupByDay(events)[i].key) &&
      GroupByDay(events)[i].items != []
  {
    var g := GroupByDay(events);
    GroupBuckets(Tag(events));
    forall i | 0 <= i < |g|
      ensures g[i].items == EventsOn(events, g[i].key)
    {
      TagOn(events, g[i].key);
    }
  }

  /**
   * The keys are distinct, each is the date of some event, every event's date is a key, and the
   * keys appear in the order in which their dates first occur in the input.
   */
  lemma GroupByDayKeys(events: seq<AiringSchedule>)
    requires AllKeyable(events)
    ensures forall i, j :: 0 <= i < j < |GroupByDay(events)| ==> GroupByDay(events)[i].key != GroupByDay(events)[j].key
    ensures forall i :: 0 <= i < |GroupByDay(events)| ==> GroupByDay(events)[i].key in EventKeys(events)
    ensures forall j :: 0 <= j < |events| ==> KeyOf(events[j]) in Keys(GroupByDay(events))
    ensures forall i, j :: 0 <= i < j < |GroupByDay(events)| ==>
      FirstIndex(EventKeys(events), GroupByDay(events)[i].key) < FirstIndex(EventKeys(events), GroupByDay(events)[j].key)
  {
    GroupKeys(Tag(events));
    TagKeys(events);
    forall j | 0 <= j < |events|
      ensures KeyOf(events[j]) in Keys(GroupByDay(events))
    {
      assert Tag(events)[j].key == KeyOf(events[j]);
    }
  }

  /** No event is lost or duplicated: the buckets together hold exactly the projected events. */
  lemma GroupByDayPartition(events: seq<AiringSchedule>)
    requires AllKeyable(events)
    ensures multiset(AllItems(GroupByDay(events))) == multiset(Projected(events))
    ensures |AllItems(GroupByDay(events))| == |events|
  {
    GroupPartition(Tag(events));
    TagKeys(events);
    assert |multiset(AllItems(GroupByDay(events)))| == |multiset(Projected(events))|;
  }

  /** Every event lands in the bucket of its own date. */
  lemma GroupByDayPlacesEvent(events: seq<AiringSchedule>, j: int)
    requires AllKeyable(events) && 0 <= j < |events|
    ensures exists i :: (0 <= i < |GroupByDay(events)| &&
                         GroupByDay(events)[i].key == KeyOf(events[j]) &&
                         Project(events[j]) in GroupByDay(events)[i].items)
  {
    var g := GroupByDay(events);
    GroupByDayKeys(events);
    GroupByDayBuckets(events);
    var i :| 0 <= i < |g| && Keys(g)[i] == KeyOf(events[j]);
    EventsOnMember(events, j);
  }

  lemma {:induction false} EventsOnMember(events: seq<AiringSchedule>, j: int)
    requires AllKeyable(events) && 0 <= j < |events|
    ensures Project(events[j]) in EventsOn(events, KeyOf(events[j]))
  {
    var prefix, e := events[..|events| - 1], events[|events| - 1];
    if j < |events| - 1 {
      assert events[j] == prefix[j];
      EventsOnMember(prefix, j);
    }
  }
}
