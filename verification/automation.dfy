/**
 * The weekly watch-plan builder: rank the seasonal catalog, skip finished titles unless asked not
 * to, place each remaining title first-fit into seven weekday slots that share one episode quota
 * per day, and emit the non-empty days from Monday to Sunday.
 */
module Automation {
  import opened Wrappers
  import opened Media
  import opened Ranking
  import opened Seqs

  const DayOrder: seq<string> := ["Monday", "Tuesday", "Wednesday", "Thursday", "Friday", "Saturday", "Sunday"]

  /** Episode total assumed when neither the episode count nor the next airing episode is known. */
  const DefaultTotalEpisodes: int := 12

  const Seasons: seq<string> := ["WINTER", "SPRING", "SUMMER", "FALL"]

  /** The season of a 1-based UTC month; the clock reading it comes from is a parameter here. */
  function SeasonOfMonth(month: int): (season: string)
    ensures season in Seasons
    ensures 1 <= month <= 12 ==> season == Seasons[(month % 12) / 3]
    ensures !(1 <= month <= 12) ==> season == "WINTER"
  {
    if 3 <= month <= 5 then "SPRING"
    else if 6 <= month <= 8 then "SUMMER"
    else if 9 <= month <= 11 then "FALL"
    else "WINTER"
  }

  datatype PlanOptions = PlanOptions(episodesPerDay: int, focus: string, includeCompleted: bool)

  /** One title placed on one day, with the display fields copied from the catalog item. */
  datatype PlanEntry = PlanEntry(
    title: string,
    mediaId: int,
    episodes: int,
    cover: Option<string>,
    genres: Option<seq<string>>,
    averageScore: Option<int>,
    status: Option<string>
  )

  /** A weekday while the plan is being filled: its label, its entries so far, the quota left. */
  datatype DaySlot = DaySlot(day: string, slots: seq<PlanEntry>, quota: int)

  /** A weekday of the finished plan. */
  datatype DayPlan = DayPlan(day: string, entries: seq<PlanEntry>)

  /** `episodes ?? nextAiringEpisode?.episode ?? 12`: only absent values fall through, 0 does not. */
  function TotalEpisodes(m: MediaItem): (t: int)
    ensures m.episodes.Some? ==> t == m.episodes.value
    ensures m.episodes.None? && m.nextAiringEpisode.Some? && m.nextAiringEpisode.value.episode.Some? ==>
              t == m.nextAiringEpisode.value.episode.value
    ensures m.episodes.None? && (m.nextAiringEpisode.None? || m.nextAiringEpisode.value.episode.None?) ==>
              t == DefaultTotalEpisodes
  {
    match m.episodes
    case Some(e) => e
    case None =>
      match m.nextAiringEpisode
      case Some(NextAiring(_, Some(e))) => e
      case _ => DefaultTotalEpisodes
  }

  /** `Math.ceil(t / 7)` for an integer `t`. */
  function CeilDiv7(t: int): (r: int)
    ensures 7 * (r - 1) < t <= 7 * r
  {
    -((-t) / 7)
  }

  /** `Math.min(quota, Math.ceil(total / 7))`: the weekly share, capped by what the day has left. */
  function FairShare(quota: int, total: int): (n: int)
    ensures n <= quota && n <= CeilDiv7(total)
    ensures n == quota || n == CeilDiv7(total)
  {
    if quota <= CeilDiv7(total) then quota else CeilDiv7(total)
  }

  /** The only exclusion rule: a finished title is skipped unless completed titles are included. */
  predicate Skipped(m: MediaItem, opts: PlanOptions): (skip: bool)
    ensures skip ==> m.status == Some("FINISHED")
    ensures opts.includeCompleted ==> !skip
  {
    !opts.includeCompleted && m.status == Some("FINISHED")
  }

  function CoverOf(m: MediaItem): Option<string> {
    match m.coverImage
    case None => None
    case Some(c) => c.medium
  }

  function ToEntry(m: MediaItem, episodes: int): PlanEntry {
    PlanEntry(PlanTitle(m.title), m.id, episodes, CoverOf(m), m.genres, m.averageScore, m.status)
  }

  /** `e` was made from `m`: every field but the episode count is `m`'s. */
  predicate Describes(e: PlanEntry, m: MediaItem) {
    e == ToEntry(m, e.episodes)
  }

  /** The catalog items that are not skipped, in their order. */
  function Eligible(s: seq<MediaItem>, opts: PlanOptions): (r: seq<MediaItem>)
    ensures |r| <= |s|
  {
    if s == [] then []
    else (if Skipped(s[0], opts) then [] else [s[0]]) + Eligible(s[1..], opts)
  }

  /** The filter keeps exactly the titles that are not skipped. */
  lemma {:induction false} EligibleMembers(s: seq<MediaItem>, opts: PlanOptions, x: MediaItem)
    ensures x in Eligible(s, opts) <==> x in s && !Skipped(x, opts)
  {
    if s != [] {
      EligibleMembers(s[1..], opts, x);
      assert s == [s[0]] + s[1..];
    }
  }

  /** Seven empty days, Monday to Sunday, each with the full quota. */
  function InitialDays(episodesPerDay: int): (days: seq<DaySlot>)
    ensures |days| == |DayOrder|
    ensures forall i :: 0 <= i < |days| ==> days[i] == DaySlot(DayOrder[i], [], episodesPerDay)
  {
    seq(|DayOrder|, i requires 0 <= i < |DayOrder| => DaySlot(DayOrder[i], [], episodesPerDay))
  }

  /** The first day at or after `from` whose quota is still positive. */
  function FirstOpenDay(days: seq<DaySlot>, from: nat): (r: Option<nat>)
    requires from <= |days|
    ensures r.Some? ==> from <= r.value < |days| && days[r.value].quota > 0
    ensures r.Some? ==> forall j :: from <= j < r.value ==> days[j].quota <= 0
    ensures r.None? ==> forall j :: from <= j < |days| ==> days[j].quota <= 0
    decreases |days| - from
  {
    if from == |days| then None
    else if days[from].quota > 0 then Some(from)
    else FirstOpenDay(days, from + 1)
  }

  /**
   * `m` went onto day `d` of `days`, giving `after`: `d` is the first day with quota left, it gained
   * exactly one entry for `m` whose episode count is the fair share, its quota dropped by exactly
   * that count, and no other day changed.
   */
  ghost predicate PlacedOn(days: seq<DaySlot>, after: seq<DaySlot>, m: MediaItem, d: int) {
    && 0 <= d < |days| == |after|
    && days[d].quota > 0
    && (forall j :: 0 <= j < d ==> days[j].quota <= 0)
    && (forall j :: 0 <= j < |days| && j != d ==> after[j] == days[j])
    && var n := FairShare(days[d].quota, TotalEpisodes(m));
       after[d] == DaySlot(days[d].day, days[d].slots + [ToEntry(m, n)], days[d].quota - n)
  }

  /** One iteration of the placement loop. */
  function PlaceItem(days: seq<DaySlot>, m: MediaItem, opts: PlanOptions): (r: seq<DaySlot>)
    ensures |r| == |days|
    ensures r == days <==> Skipped(m, opts) || forall j :: 0 <= j < |days| ==> days[j].quota <= 0
    ensures forall d :: 0 <= d < |days| && r[d] != days[d] ==> !Skipped(m, opts) && PlacedOn(days, r, m, d)
  {
    if Skipped(m, opts) then days
    else
      match FirstOpenDay(days, 0)
      case None => days
      case Some(d) =>
        var n := FairShare(days[d].quota, TotalEpisodes(m));
        var r := days[d := DaySlot(days[d].day, days[d].slots + [ToEntry(m, n)], days[d].quota - n)];
        assert |r[d].slots| != |days[d].slots|;
        r
  }

  /** The placement loop over `items`, first item first. */
  function PlaceAll(init: seq<DaySlot>, items: seq<MediaItem>, opts: PlanOptions): (r: seq<DaySlot>)
    ensures |r| == |init|
    ensures forall i :: 0 <= i < |r| ==> r[i].day == init[i].day && init[i].slots <= r[i].slots
  {
    if items == [] then init
    else PlaceItem(PlaceAll(init, items[..|items| - 1], opts), items[|items| - 1], opts)
  }

  /** `days.forEach(...)`: the days that received an entry, in weekday order, as `{ day, entries }`. */
  function Emit(days: seq<DaySlot>): (plan: seq<DayPlan>)
    ensures |plan| <= |days|
    ensures forall p :: p in plan ==> |p.entries| > 0
  {
    if days == [] then []
    else
      var rest := Emit(days[1..]);
      if |days[0].slots| > 0 then [DayPlan(days[0].day, days[0].slots)] + rest else rest
  }

  /** Every emitted day is one of the slots, with its entries unchanged. */
  lemma {:induction false} EmitFromSlots(days: seq<DaySlot>)
    ensures forall p :: p in Emit(days) ==> exists i :: 0 <= i < |days| && days[i].day == p.day && days[i].slots == p.entries
  {
    if days != [] {
      EmitFromSlots(days[1..]);
      forall p | p in Emit(days)
        ensures exists i :: 0 <= i < |days| && days[i].day == p.day && days[i].slots == p.entries
      {
        if p in Emit(days[1..]) {
          var i :| 0 <= i < |days[1..]| && days[1..][i].day == p.day && days[1..][i].slots == p.entries;
          assert days[i + 1] == days[1..][i];
        } else {
          assert p == DayPlan(days[0].day, days[0].slots);
        }
      }
    }
  }

  /** Every slot that received an entry is emitted. */
  lemma {:induction false} EmitComplete(days: seq<DaySlot>)
    ensures forall i :: 0 <= i < |days| && |days[i].slots| > 0 ==> DayPlan(days[i].day, days[i].slots) in Emit(days)
  {
    if days != [] {
      EmitComplete(days[1..]);
      forall i | 0 <= i < |days| && |days[i].slots| > 0
        ensures DayPlan(days[i].day, days[i].slots) in Emit(days)
      {
        if i > 0 {
          assert days[1..][i - 1] == days[i];
        }
      }
    }
  }

  /** The emitted days keep the slots' order. */
  lemma {:induction false} EmitOrder(days: seq<DaySlot>)
    ensures Subseq(PlanDays(Emit(days)), SlotDays(days))
  {
    if days != [] {
      var rest := Emit(days[1..]);
      EmitOrder(days[1..]);
      assert SlotDays(days)[1..] == SlotDays(days[1..]);
      if |days[0].slots| > 0 {
        var plan := [DayPlan(days[0].day, days[0].slots)] + rest;
        assert PlanDays(plan)[1..] == PlanDays(rest);
      }
    }
  }

  /** No entry is lost or added when the days are emitted. */
  lemma {:induction false} EmitCount(days: seq<DaySlot>)
    ensures PlanEntryCount(Emit(days)) == EntryCount(days)
  {
    if days != [] {
      var rest := Emit(days[1..]);
      EmitCount(days[1..]);
      if |days[0].slots| > 0 {
        assert ([DayPlan(days[0].day, days[0].slots)] + rest)[1..] == rest;
      }
    }
  }

  /**
   * The weekday labels of the working days and of the emitted plan. The two record types differ
   * (only the working days carry a quota), so each has its own projection.
   */
  function SlotDays(days: seq<DaySlot>): (labels: seq<string>)
    ensures |labels| == |days|
  {
    seq(|days|, i requires 0 <= i < |days| => days[i].day)
  }

  function PlanDays(plan: seq<DayPlan>): (labels: seq<string>)
    ensures |labels| == |plan|
  {
    seq(|plan|, i requires 0 <= i < |plan| => plan[i].day)
  }

  function EntryCount(days: seq<DaySlot>): nat {
    if days == [] then 0 else |days[0].slots| + EntryCount(days[1..])
  }

  function PlanEntryCount(plan: seq<DayPlan>): nat {
    if plan == [] then 0 else |plan[0].entries| + PlanEntryCount(plan[1..])
  }

  function SumEpisodes(es: seq<PlanEntry>): int {
    if es == [] then 0 else SumEpisodes(es[..|es| - 1]) + es[|es| - 1].episodes
  }

  /** `buildAutomationPlan(mediaList, options)`. */
  function BuildAutomationPlan(catalog: seq<MediaItem>, opts: PlanOptions): (plan: seq<DayPlan>)
    ensures |plan| <= |DayOrder|
    ensures forall p :: p in plan ==> |p.entries| > 0
  {
    Emit(PlaceAll(InitialDays(opts.episodesPerDay), Rank(catalog, FocusOf(opts.focus)), opts))
  }
}
