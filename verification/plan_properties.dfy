/** What the weekly watch-plan builder guarantees, proved about the model in Automation. */
module PlanProperties {
  import opened Wrappers
  import opened Media
  import opened Ranking
  import opened Seqs
  import opened Automation

  /** The entries `es` are, entry by entry and in order, made from a subsequence of `ms`. */
  predicate EmbedsIn(es: seq<PlanEntry>, ms: seq<MediaItem>)
    decreases |ms|
  {
    es == [] ||
    (ms != [] &&
     ((Describes(es[|es| - 1], ms[|ms| - 1]) && EmbedsIn(es[..|es| - 1], ms[..|ms| - 1]))
      || EmbedsIn(es, ms[..|ms| - 1])))
  }

  predicate EntryAllowed(e: PlanEntry, opts: PlanOptions) {
    opts.includeCompleted || e.status != Some("FINISHED")
  }

  /** The seven days keep their weekday labels in Monday-to-Sunday order. */
  ghost predicate Labelled(days: seq<DaySlot>) {
    && |days| == |DayOrder|
    && forall i :: 0 <= i < |days| ==> days[i].day == DayOrder[i]
  }

  /** Each day's entries and remaining quota add up to the quota it started with. */
  ghost predicate Accounted(days: seq<DaySlot>, perDay: int) {
    && (forall i :: 0 <= i < |days| ==> SumEpisodes(days[i].slots) + days[i].quota == perDay)
    && (forall i :: 0 <= i < |days| ==> days[i].slots != [] ==> days[i].quota >= 0)
    && (perDay <= 0 ==> forall i :: 0 <= i < |days| ==> days[i].slots == [])
  }

  ghost predicate FromItems(days: seq<DaySlot>, ms: seq<MediaItem>) {
    forall i :: 0 <= i < |days| ==> EmbedsIn(days[i].slots, ms)
  }

  ghost predicate AllAllowed(days: seq<DaySlot>, opts: PlanOptions) {
    forall i, k :: 0 <= i < |days| && 0 <= k < |days[i].slots| ==> EntryAllowed(days[i].slots[k], opts)
  }

  /** What holds of the seven days after the items `processed` have gone through the loop. */
  ghost predicate Consistent(days: seq<DaySlot>, processed: seq<MediaItem>, opts: PlanOptions) {
    && Labelled(days)
    && Accounted(days, opts.episodesPerDay)
    && FromItems(days, Eligible(processed, opts))
    && AllAllowed(days, opts)
    && EntryCount(days) <= |Eligible(processed, opts)|
  }

  lemma EmbedsSkip(es: seq<PlanEntry>, ms: seq<MediaItem>, x: MediaItem)
    requires EmbedsIn(es, ms)
    ensures EmbedsIn(es, ms + [x])
  {
    assert (ms + [x])[..|ms|] == ms;
  }

  lemma EmbedsTake(es: seq<PlanEntry>, ms: seq<MediaItem>, e: PlanEntry, m: MediaItem)
    requires EmbedsIn(es, ms) && Describes(e, m)
    ensures EmbedsIn(es + [e], ms + [m])
  {
    assert (ms + [m])[..|ms|] == ms;
    assert (es + [e])[..|es|] == es;
  }

  lemma SumEpisodesAppend(es: seq<PlanEntry>, e: PlanEntry)
    ensures SumEpisodes(es + [e]) == SumEpisodes(es) + e.episodes
  {
    assert (es + [e])[..|es|] == es;
  }

  lemma {:induction false} EntryCountUpdate(days: seq<DaySlot>, d: int, x: DaySlot)
    requires 0 <= d < |days|
    ensures EntryCount(days[d := x]) == EntryCount(days) - |days[d].slots| + |x.slots|
  {
    if d > 0 {
      EntryCountUpdate(days[1..], d - 1, x);
      assert days[d := x][1..] == days[1..][d - 1 := x];
    }
  }

  lemma {:induction false} EntryCountEmpty(days: seq<DaySlot>)
    requires forall i :: 0 <= i < |days| ==> days[i].slots == []
    ensures EntryCount(days) == 0
  {
    if days != [] {
      EntryCountEmpty(days[1..]);
    }
  }

  lemma {:induction false} EligibleAppend(a: seq<MediaItem>, b: seq<MediaItem>, opts: PlanOptions)
    ensures Eligible(a + b, opts) == Eligible(a, opts) + Eligible(b, opts)
  {
    if a == [] {
      assert a + b == b;
    } else {
      var h := if Skipped(a[0], opts) then [] else [a[0]];
      assert (a + b)[0] == a[0];
      assert (a + b)[1..] == a[1..] + b;
      assert Eligible(a + b, opts) == h + Eligible(a[1..] + b, opts);
      EligibleAppend(a[1..], b, opts);
      assert Eligible(a, opts) == h + Eligible(a[1..], opts);
    }
  }

  lemma EligibleSnoc(a: seq<MediaItem>, m: MediaItem, opts: PlanOptions)
    ensures Eligible(a + [m], opts) == Eligible(a, opts) + (if Skipped(m, opts) then [] else [m])
  {
    EligibleAppend(a, [m], opts);
    assert Eligible([m], opts) == (if Skipped(m, opts) then [] else [m]) + Eligible([], opts);
  }

  lemma InitialConsistent(opts: PlanOptions)
    ensures Consistent(InitialDays(opts.episodesPerDay), [], opts)
  {
    EntryCountEmpty(InitialDays(opts.episodesPerDay));
  }

  /** A changed day list means the item was eligible and went onto the first open day. */
  lemma Placed(days: seq<DaySlot>, m: MediaItem, opts: PlanOptions)
    requires PlaceItem(days, m, opts) != days
    ensures !Skipped(m, opts) && FirstOpenDay(days, 0).Some?
    ensures PlacedOn(days, PlaceItem(days, m, opts), m, FirstOpenDay(days, 0).value)
  {
    var r := PlaceItem(days, m, opts);
    var d := FirstOpenDay(days, 0).value;
    assert r[d] != days[d];
  }

  lemma PlaceKeepsLabels(days: seq<DaySlot>, m: MediaItem, opts: PlanOptions)
    requires Labelled(days)
    ensures Labelled(PlaceItem(days, m, opts))
  {
    if PlaceItem(days, m, opts) != days {
      Placed(days, m, opts);
    }
  }

  lemma PlaceKeepsAccounting(days: seq<DaySlot>, m: MediaItem, opts: PlanOptions)
    requires Accounted(days, opts.episodesPerDay)
    ensures Accounted(PlaceItem(days, m, opts), opts.episodesPerDay)
  {
    if opts.episodesPerDay <= 0 {
      assert forall j :: 0 <= j < |days| ==> days[j].slots == [] && days[j].quota <= 0;
    }
    var r := PlaceItem(days, m, opts);
    if r != days {
      Placed(days, m, opts);
      var d := FirstOpenDay(days, 0).value;
      SumEpisodesAppend(days[d].slots, ToEntry(m, FairShare(days[d].quota, TotalEpisodes(m))));
    }
  }

  lemma PlaceKeepsProvenance(days: seq<DaySlot>, el: seq<MediaItem>, m: MediaItem, opts: PlanOptions)
    requires FromItems(days, el)
    ensures FromItems(PlaceItem(days, m, opts), el + (if Skipped(m, opts) then [] else [m]))
  {
    var r := PlaceItem(days, m, opts);
    if Skipped(m, opts) {
      assert el + [] == el;
    } else if r == days {
      forall i | 0 <= i < |days|
        ensures EmbedsIn(days[i].slots, el + [m])
      {
        EmbedsSkip(days[i].slots, el, m);
      }
    } else {
      Placed(days, m, opts);
      var d := FirstOpenDay(days, 0).value;
      forall i | 0 <= i < |r|
        ensures EmbedsIn(r[i].slots, el + [m])
      {
        if i == d {
          EmbedsTake(days[d].slots, el, ToEntry(m, FairShare(days[d].quota, TotalEpisodes(m))), m);
        } else {
          EmbedsSkip(days[i].slots, el, m);
        }
      }
    }
  }

  lemma PlaceKeepsAllowed(days: seq<DaySlot>, m: MediaItem, opts: PlanOptions)
    requires AllAllowed(days, opts)
    ensures AllAllowed(PlaceItem(days, m, opts), opts)
  {
    var r := PlaceItem(days, m, opts);
    if r != days {
      Placed(days, m, opts);
      var d := FirstOpenDay(days, 0).value;
      forall i, k | 0 <= i < |r| && 0 <= k < |r[i].slots|
        ensures EntryAllowed(r[i].slots[k], opts)
      {
        if i == d && k < |days[d].slots| {
          assert r[i].slots[k] == days[d].slots[k];
        }
      }
    }
  }

  lemma PlaceCount(days: seq<DaySlot>, m: MediaItem, opts: PlanOptions)
    ensures EntryCount(PlaceItem(days, m, opts)) == EntryCount(days) + (if PlaceItem(days, m, opts) == days then 0 else 1)
    ensures Skipped(m, opts) ==> PlaceItem(days, m, opts) == days
  {
    var r := PlaceItem(days, m, opts);
    if r != days {
      Placed(days, m, opts);
      var d := FirstOpenDay(days, 0).value;
      EntryCountUpdate(days, d, r[d]);
    }
  }

  /** One loop iteration keeps every fact of Consistent. */
  lemma PlaceItemConsistent(days: seq<DaySlot>, processed: seq<MediaItem>, m: MediaItem, opts: PlanOptions)
    requires Consistent(days, processed, opts)
    ensures Consistent(PlaceItem(days, m, opts), processed + [m], opts)
  {
    EligibleSnoc(processed, m, opts);
    PlaceKeepsLabels(days, m, opts);
    PlaceKeepsAccounting(days, m, opts);
    PlaceKeepsProvenance(days, Eligible(processed, opts), m, opts);
    PlaceKeepsAllowed(days, m, opts);
    PlaceCount(days, m, opts);
  }

  /** The whole loop keeps Consistent, starting from seven empty days. */
  lemma {:induction false} PlaceAllConsistent(items: seq<MediaItem>, opts: PlanOptions)
    ensures Consistent(PlaceAll(InitialDays(opts.episodesPerDay), items, opts), items, opts)
  {
    if items == [] {
      InitialConsistent(opts);
    } else {
      var prefix := items[..|items| - 1];
      PlaceAllConsistent(prefix, opts);
      PlaceItemConsistent(PlaceAll(InitialDays(opts.episodesPerDay), prefix, opts), prefix, items[|items| - 1], opts);
      assert prefix + [items[|items| - 1]] == items;
    }
  }

  lemma {:induction false} EligibleMembers(s: seq<MediaItem>, opts: PlanOptions, x: MediaItem)
    requires x in Eligible(s, opts)
    ensures x in s && !Skipped(x, opts)
  {
    if s[0] != x || Skipped(s[0], opts) {
      EligibleMembers(s[1..], opts, x);
    }
  }

  /** Dropping skipped items from a ranked sequence leaves it ranked. */
  lemma {:induction false} EligibleRanked(s: seq<MediaItem>, focus: Focus, opts: PlanOptions)
    requires Ranked(s, focus)
    ensures Ranked(Eligible(s, opts), focus)
  {
    if s != [] {
      RankedTail(s, focus);
      EligibleRanked(s[1..], focus, opts);
      if !Skipped(s[0], opts) {
        forall y | y in Eligible(s[1..], opts)
          ensures RankKey(s[0], focus) >= RankKey(y, focus)
        {
          EligibleMembers(s[1..], opts, y);
          HeadKeyIsMaximal(s, focus, y);
        }
        RankedCons(s[0], Eligible(s[1..], opts), focus);
      } else {
        assert Eligible(s, opts) == Eligible(s[1..], opts);
      }
    }
  }

  /** Selecting one key's items and dropping skipped items commute. */
  lemma {:induction false} EligibleWithKey(s: seq<MediaItem>, focus: Focus, k: int, opts: PlanOptions)
    ensures WithKey(Eligible(s, opts), focus, k) == Eligible(WithKey(s, focus, k), opts)
  {
    if s != [] {
      var h := if Skipped(s[0], opts) then [] else [s[0]];
      var hk := if RankKey(s[0], focus) == k then [s[0]] else [];
      EligibleWithKey(s[1..], focus, k, opts);
      WithKeyAppend(h, Eligible(s[1..], opts), focus, k);
      EligibleAppend(hk, WithKey(s[1..], focus, k), opts);
      assert WithKey(h, focus, k) == Eligible(hk, opts) by {
        if h != [] {
          assert WithKey(h, focus, k) == hk + WithKey([], focus, k);
        }
        if hk != [] {
          assert Eligible(hk, opts) == h + Eligible([], opts);
        }
      }
    }
  }

  /** Filtering after the stable sort gives what sorting the filtered catalog gives. */
  lemma RankEligibleCommute(catalog: seq<MediaItem>, opts: PlanOptions)
    ensures Eligible(Rank(catalog, FocusOf(opts.focus)), opts) == Rank(Eligible(catalog, opts), FocusOf(opts.focus))
  {
    var focus := FocusOf(opts.focus);
    var a := Eligible(Rank(catalog, focus), opts);
    var b := Rank(Eligible(catalog, opts), focus);
    EligibleRanked(Rank(catalog, focus), focus, opts);
    forall k
      ensures WithKey(a, focus, k) == WithKey(b, focus, k)
    {
      EligibleWithKey(Rank(catalog, focus), focus, k, opts);
      RankStable(catalog, focus, k);
      EligibleWithKey(catalog, focus, k, opts);
      RankStable(Eligible(catalog, opts), focus, k);
    }
    RankedUnique(a, b, focus);
  }

  /** Skipping inside the loop places exactly what filtering the items beforehand places. */
  lemma {:induction false} PlaceAllEligible(init: seq<DaySlot>, items: seq<MediaItem>, opts: PlanOptions)
    ensures PlaceAll(init, items, opts) == PlaceAll(init, Eligible(items, opts), opts)
  {
    if items != [] {
      var prefix, m := items[..|items| - 1], items[|items| - 1];
      assert items == prefix + [m];
      PlaceAllEligible(init, prefix, opts);
      EligibleSnoc(prefix, m, opts);
      var el := Eligible(prefix, opts);
      if Skipped(m, opts) {
        PlaceCount(PlaceAll(init, prefix, opts), m, opts);
        assert el + [] == el;
      } else {
        assert (el + [m])[..|el|] == el;
      }
    }
  }

  /** The day list the plan is emitted from, for the catalog and options given. */
  function FinalDays(catalog: seq<MediaItem>, opts: PlanOptions): seq<DaySlot> {
    PlaceAll(InitialDays(opts.episodesPerDay), Rank(catalog, FocusOf(opts.focus)), opts)
  }

  lemma FinalDaysConsistent(catalog: seq<MediaItem>, opts: PlanOptions)
    ensures Consistent(FinalDays(catalog, opts), Rank(catalog, FocusOf(opts.focus)), opts)
    ensures BuildAutomationPlan(catalog, opts) == Emit(FinalDays(catalog, opts))
  {
    PlaceAllConsistent(Rank(catalog, FocusOf(opts.focus)), opts);
  }

  /** Quota: on every emitted day the episodes assigned add up to at most `episodesPerDay`. */
  lemma PlanWithinQuota(catalog: seq<MediaItem>, opts: PlanOptions)
    ensures forall p :: p in BuildAutomationPlan(catalog, opts) ==> SumEpisodes(p.entries) <= opts.episodesPerDay
  {
    FinalDaysConsistent(catalog, opts);
    var days := FinalDays(catalog, opts);
    EmitFromSlots(days);
    forall p | p in Emit(days)
      ensures SumEpisodes(p.entries) <= opts.episodesPerDay
    {
      var i :| 0 <= i < |days| && days[i].day == p.day && days[i].slots == p.entries;
    }
  }

  /** Day order: the emitted labels are a subsequence of Monday..Sunday and no emitted day is empty. */
  lemma PlanDayOrder(catalog: seq<MediaItem>, opts: PlanOptions)
    ensures Subseq(PlanDays(BuildAutomationPlan(catalog, opts)), DayOrder)
    ensures forall p :: p in BuildAutomationPlan(catalog, opts) ==> |p.entries| > 0
  {
    FinalDaysConsistent(catalog, opts);
    EmitOrder(FinalDays(catalog, opts));
    assert SlotDays(FinalDays(catalog, opts)) == DayOrder;
  }

  /** A quota of zero or less yields an empty plan. */
  lemma PlanEmptyWithoutQuota(catalog: seq<MediaItem>, opts: PlanOptions)
    requires opts.episodesPerDay <= 0
    ensures BuildAutomationPlan(catalog, opts) == []
  {
    FinalDaysConsistent(catalog, opts);
    EntryCountEmpty(FinalDays(catalog, opts));
    EmitCount(FinalDays(catalog, opts));
    PlanHasEntries(Emit(FinalDays(catalog, opts)));
  }

  lemma PlanHasEntries(plan: seq<DayPlan>)
    requires forall p :: p in plan ==> |p.entries| > 0
    ensures plan != [] ==> PlanEntryCount(plan) > 0
  {
    if plan != [] {
      assert plan[0] in plan;
    }
  }

  /** Filter: unless completed titles are included, no entry is a finished title. */
  lemma PlanSkipsFinished(catalog: seq<MediaItem>, opts: PlanOptions)
    requires !opts.includeCompleted
    ensures forall p, k :: p in BuildAutomationPlan(catalog, opts) && 0 <= k < |p.entries| ==>
              p.entries[k].status != Some("FINISHED")
  {
    FinalDaysConsistent(catalog, opts);
    var days := FinalDays(catalog, opts);
    EmitFromSlots(days);
    forall p, k | p in Emit(days) && 0 <= k < |p.entries|
      ensures p.entries[k].status != Some("FINISHED")
    {
      var i :| 0 <= i < |days| && days[i].day == p.day && days[i].slots == p.entries;
      assert EntryAllowed(days[i].slots[k], opts);
    }
  }

  /** Single placement: the plan holds at most one entry per eligible catalog item. */
  lemma PlanEntryBound(catalog: seq<MediaItem>, opts: PlanOptions)
    ensures PlanEntryCount(BuildAutomationPlan(catalog, opts)) <= |Eligible(catalog, opts)| <= |catalog|
  {
    FinalDaysConsistent(catalog, opts);
    EmitCount(FinalDays(catalog, opts));
    RankEligibleCommute(catalog, opts);
    assert |Rank(Eligible(catalog, opts), FocusOf(opts.focus))| == |Eligible(catalog, opts)| by {
      var e := Eligible(catalog, opts);
      assert |multiset(Rank(e, FocusOf(opts.focus)))| == |multiset(e)|;
    }
  }

  /**
   * Order within a day: each day's entries come from the eligible items in ranked order, that is in
   * the stable descending order of the focus key.
   */
  lemma PlanRankedOrder(catalog: seq<MediaItem>, opts: PlanOptions)
    ensures forall p :: p in BuildAutomationPlan(catalog, opts) ==>
              EmbedsIn(p.entries, Rank(Eligible(catalog, opts), FocusOf(opts.focus)))
  {
    FinalDaysConsistent(catalog, opts);
    RankEligibleCommute(catalog, opts);
    var days := FinalDays(catalog, opts);
    EmitFromSlots(days);
    forall p | p in Emit(days)
      ensures EmbedsIn(p.entries, Rank(Eligible(catalog, opts), FocusOf(opts.focus)))
    {
      var i :| 0 <= i < |days| && days[i].day == p.day && days[i].slots == p.entries;
    }
  }

  /** Skipping finished titles inside the loop, after sorting, is the same as filtering them first. */
  lemma PlanFiltersFirst(catalog: seq<MediaItem>, opts: PlanOptions)
    ensures BuildAutomationPlan(catalog, opts)
         == Emit(PlaceAll(InitialDays(opts.episodesPerDay), Rank(Eligible(catalog, opts), FocusOf(opts.focus)), opts))
  {
    PlaceAllEligible(InitialDays(opts.episodesPerDay), Rank(catalog, FocusOf(opts.focus)), opts);
    RankEligibleCommute(catalog, opts);
  }

  /** With completed titles included nothing is skipped: finished titles compete like any other. */
  lemma {:induction false} EligibleAll(s: seq<MediaItem>, opts: PlanOptions)
    requires opts.includeCompleted
    ensures Eligible(s, opts) == s
  {
    if s != [] {
      EligibleAll(s[1..], opts);
      assert s == [s[0]] + s[1..];
    }
  }

  /**
   * An eligible title whose episode total is 0 still gets an entry, with 0 episodes, on the first
   * open day, and that day's quota is left as it was; no other day changes.
   */
  lemma PlaceZeroTotal(days: seq<DaySlot>, m: MediaItem, opts: PlanOptions, d: nat)
    requires !Skipped(m, opts) && TotalEpisodes(m) == 0
    requires FirstOpenDay(days, 0) == Some(d)
    ensures PlaceItem(days, m, opts) == days[d := DaySlot(days[d].day, days[d].slots + [ToEntry(m, 0)], days[d].quota)]
  {
    var n := FairShare(days[d].quota, TotalEpisodes(m));
    assert CeilDiv7(0) == 0;
    assert n == 0;
    assert PlaceItem(days, m, opts) == days[d := DaySlot(days[d].day, days[d].slots + [ToEntry(m, n)], days[d].quota - n)];
  }
}
