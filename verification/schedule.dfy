/**
 * The day aggregator of the airing monitor: airing events are grouped under the UTC calendar date
 * of their airing time, keys in first-seen order, each bucket in input order, each event reduced to
 * the five fields the page reads.
 */
module Schedule {
  import opened Wrappers
  import opened Media
  import opened CivilDate

  /** The media summary embedded in an airing event; carried through unchanged. */
  datatype MediaSummary = MediaSummary(
    title: Title,
    coverImage: Option<CoverImage>,
    episodes: Option<int>,
    genres: Option<seq<string>>,
    averageScore: Option<int>
  )

  /** One upstream airing-schedule record. */
  datatype AiringSchedule = AiringSchedule(
    id: int,
    mediaId: int,
    episode: int,
    airingAt: int,
    timeUntilAiring: int,
    media: MediaSummary
  )

  /** A bucket element: the airing record without its `id`. */
  datatype ScheduledEpisode = ScheduledEpisode(
    mediaId: int,
    episode: int,
    airingAt: int,
    timeUntilAiring: int,
    media: MediaSummary
  )

  /** One property of the result object: a date key and the episodes airing that day. */
  datatype DayBucket = DayBucket(key: string, items: seq<ScheduledEpisode>)

  /** Airing times whose ISO date has a four-digit year (1970-01-01 up to 9999-12-31). */
  predicate Keyable(e: AiringSchedule) {
    0 <= e.airingAt < EndOfYear9999
  }

  predicate AllKeyable(events: seq<AiringSchedule>) {
    forall j :: 0 <= j < |events| ==> Keyable(events[j])
  }

  /** The bucket key of an event: ten characters that read back as the UTC date it airs on. */
  function KeyOf(e: AiringSchedule): (k: string)
    requires Keyable(e)
    ensures |k| == 10
    ensures ParseDate(k) == Some(CivilFromDays(e.airingAt / SecondsPerDay))
  {
    DateKeyParses(e.airingAt);
    DateKey(e.airingAt)
  }

  function Project(e: AiringSchedule): (x: ScheduledEpisode)
    ensures x.mediaId == e.mediaId && x.episode == e.episode && x.airingAt == e.airingAt
    ensures x.timeUntilAiring == e.timeUntilAiring && x.media == e.media
  {
    ScheduledEpisode(e.mediaId, e.episode, e.airingAt, e.timeUntilAiring, e.media)
  }

  function Keys(g: seq<DayBucket>): (keys: seq<string>)
    ensures |keys| == |g|
  {
    seq(|g|, i requires 0 <= i < |g| => g[i].key)
  }

  /** `acc[key]` on an object whose properties are `g`, in order. */
  function IndexOfKey(g: seq<DayBucket>, key: string): (r: Option<nat>)
    ensures r.Some? ==> r.value < |g| && g[r.value].key == key
    ensures r.Some? ==> forall j :: 0 <= j < r.value ==> g[j].key != key
    ensures r.None? ==> key !in Keys(g)
  {
    if g == [] then None
    else if g[0].key == key then Some(0)
    else
      match IndexOfKey(g[1..], key)
      case None =>
        assert Keys(g) == [g[0].key] + Keys(g[1..]);
        None
      case Some(i) => Some(i + 1)
  }

  /** One reduce step: push `x` onto the bucket for `key`, creating it at the end on first use. */
  function AddToBucket(g: seq<DayBucket>, key: string, x: ScheduledEpisode): (r: seq<DayBucket>)
    ensures key in Keys(g) ==> |r| == |g|
    ensures key in Keys(g) ==> exists i ::
      && 0 <= i < |g| && g[i].key == key
      && (forall j :: 0 <= j < i ==> g[j].key != key)
      && r == g[i := DayBucket(key, g[i].items + [x])]
    ensures key !in Keys(g) ==> r == g + [DayBucket(key, [x])]
  {
    match IndexOfKey(g, key)
    case Some(i) =>
      assert Keys(g)[i] == key;
      g[i := DayBucket(key, g[i].items + [x])]
    case None => g + [DayBucket(key, [x])]
  }

  /** What the reduce callback derives from one event: its date key and its projected record. */
  datatype Keyed = Keyed(key: string, item: ScheduledEpisode)

  function Tag(events: seq<AiringSchedule>): (ks: seq<Keyed>)
    requires AllKeyable(events)
    ensures |ks| == |events|
  {
    seq(|events|, j requires 0 <= j < |events| => Keyed(KeyOf(events[j]), Project(events[j])))
  }

  /** The reduce over already keyed records, the first record first. */
  function Group(ks: seq<Keyed>): (g: seq<DayBucket>)
    ensures |g| <= |ks|
  {
    if ks == [] then []
    else AddToBucket(Group(ks[..|ks| - 1]), ks[|ks| - 1].key, ks[|ks| - 1].item)
  }

  /** `groupByDay(schedules)`: `schedules.reduce(..., {})`. */
  function GroupByDay(events: seq<AiringSchedule>): (g: seq<DayBucket>)
    requires AllKeyable(events)
    ensures |g| <= |events|
  {
    Group(Tag(events))
  }
}
