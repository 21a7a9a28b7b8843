/**
 * Which titles the weekly plan holds: every entry stands for a distinct eligible catalog item, so
 * a title is never placed on two days, and the top-ranked eligible title opens Monday.
 */
module PlanPlacement {
  import opened Wrappers
  import opened Media
  import opened Ranking
  import opened Seqs
  import opened Automation
  import opened PlanProperties

  /** The ids of catalog items, in order. */
  function Ids(ms: seq<MediaItem>): (ids: seq<int>)
    ensures |ids| == |ms|
  {
    seq(|ms|, i requires 0 <= i < |ms| => ms[i].id)
  }

  /** The `mediaId`s of plan entries, in order. */
  function EntryIds(es: seq<PlanEntry>): (ids: seq<int>)
    ensures |ids| == |es|
  {
    seq(|es|, i requires 0 <= i < |es| => es[i].mediaId)
  }

  /** The `mediaId`s of all entries on the working days, with repetitions. */
  function DayIds(days: seq<DaySlot>): multiset<int> {
    if days == [] then multiset{} else multiset(EntryIds(days[0].slots)) + DayIds(days[1..])
  }

  /** The `mediaId`s of all entries of a plan, with repetitions. */
  function PlanIds(plan: seq<DayPlan>): multiset<int> {
    if plan == [] then multiset{} else multiset(EntryIds(plan[0].entries)) + PlanIds(plan[1..])
  }

  lemma IdsAppend(a: seq<MediaItem>, b: seq<MediaItem>)
    ensures Ids(a + b) == Ids(a) + Ids(b)
  {
  }

  lemma EntryIdsSnoc(es: seq<PlanEntry>, e: PlanEntry)
    ensures EntryIds(es + [e]) == EntryIds(es) + [e.mediaId]
  {
  }

  /** Items that are a permutation of each other have the same ids, with the same repetitions. */
  lemma {:induction false} IdsPermutation(a: seq<MediaItem>, b: seq<MediaItem>)
    requires multiset(a) == multiset(b)
    ensures multiset(Ids(a)) == multiset(Ids(b))
    decreases |a|
  {
    if a != [] {
      var x := a[0];
      assert x in multiset(b);
      var k :| 0 <= k < |b| && b[k] == x;
      var rest := b[..k] + b[k + 1..];
      assert b == b[..k] + [x] + b[k + 1..];
      assert a == [x] + a[1..];
      assert multiset(b) == multiset(b[..k]) + multiset{x} + multiset(b[k + 1..]);
      assert multiset(rest) == multiset(b[..k]) + multiset(b[k + 1..]);
      assert multiset(a) == multiset{x} + multiset(a[1..]);
      assert multiset(a[1..]) + multiset{x} == multiset(a);
      assert multiset(rest) + multiset{x} == multiset(b);
      MultisetCancel(multiset(a[1..]), multiset(rest), multiset{x});
      IdsPermutation(a[1..], rest);
      IdsAppend([x], a[1..]);
      IdsAppend(b[..k], b[k + 1..]);
      IdsAppend(b[..k] + [x], b[k + 1..]);
      IdsAppend(b[..k], [x]);
    }
  }

  lemma {:induction false} IdsEligibleSnoc(a: seq<MediaItem>, m: MediaItem, opts: PlanOptions)
    ensures multiset(Ids(Eligible(a + [m], opts)))
         == multiset(Ids(Eligible(a, opts))) + (if Skipped(m, opts) then multiset{} else multiset{m.id})
  {
    EligibleSnoc(a, m, opts);
    IdsAppend(Eligible(a, opts), if Skipped(m, opts) then [] else [m]);
  }

  /** Replacing one day changes the id multiset by that day's entries only. */
  lemma {:induction false} DayIdsUpdate(days: seq<DaySlot>, d: int, x: DaySlot)
    requires 0 <= d < |days|
    ensures DayIds(days[d := x]) + multiset(EntryIds(days[d].slots)) == DayIds(days) + multiset(EntryIds(x.slots))
  {
    var u := days[d := x];
    if d == 0 {
      assert u[1..] == days[1..];
    } else {
      var head := multiset(EntryIds(days[0].slots));
      assert u[0] == days[0] && u[1..] == days[1..][d - 1 := x];
      assert days[1..][d - 1] == days[d];
      calc {
        DayIds(u) + multiset(EntryIds(days[d].slots));
        head + DayIds(u[1..]) + multiset(EntryIds(days[d].slots));
        head + (DayIds(days[1..][d - 1 := x]) + multiset(EntryIds(days[1..][d - 1].slots)));
        { DayIdsUpdate(days[1..], d - 1, x); }
        head + (DayIds(days[1..]) + multiset(EntryIds(x.slots)));
        DayIds(days) + multiset(EntryIds(x.slots));
      }
    }
  }

  lemma {:induction false} DayIdsEmpty(days: seq<DaySlot>)
    requires forall i :: 0 <= i < |days| ==> days[i].slots == []
    ensures DayIds(days) == multiset{}
  {
    if days != [] {
      DayIdsEmpty(days[1..]);
    }
  }

  /** One loop iteration adds the placed title's id, or nothing. */
  lemma PlaceIds(days: seq<DaySlot>, m: MediaItem, opts: PlanOptions)
    ensures DayIds(PlaceItem(days, m, opts)) == DayIds(days) + (if PlaceItem(days, m, opts) == days then multiset{} else multiset{m.id})
    ensures Skipped(m, opts) ==> PlaceItem(days, m, opts) == days
  {
    var r := PlaceItem(days, m, opts);
    if r != days {
      Placed(days, m, opts);
      var d := FirstOpenDay(days, 0).value;
      var es := days[d].slots;
      DayIdsUpdate(days, d, r[d]);
      EntryIdsSnoc(es, ToEntry(m, FairShare(days[d].quota, TotalEpisodes(m))));
      assert multiset(EntryIds(r[d].slots)) == multiset(EntryIds(es)) + multiset{m.id};
      MultisetCancel(DayIds(r), DayIds(days) + multiset{m.id}, multiset(EntryIds(es)));
    }
  }

  /** After the loop, every id on the days belongs to an eligible item, no more often than the items carry it. */
  lemma {:induction false} PlaceAllIds(items: seq<MediaItem>, opts: PlanOptions)
    ensures DayIds(PlaceAll(InitialDays(opts.episodesPerDay), items, opts)) <= multiset(Ids(Eligible(items, opts)))
  {
    var init := InitialDays(opts.episodesPerDay);
    if items == [] {
      DayIdsEmpty(init);
    } else {
      var prefix, m := items[..|items| - 1], items[|items| - 1];
      assert prefix + [m] == items;
      PlaceAllIds(prefix, opts);
      PlaceIds(PlaceAll(init, prefix, opts), m, opts);
      IdsEligibleSnoc(prefix, m, opts);
    }
  }

  lemma {:induction false} EmitIds(days: seq<DaySlot>)
    ensures PlanIds(Emit(days)) == DayIds(days)
  {
    if days != [] {
      var rest := Emit(days[1..]);
      EmitIds(days[1..]);
      if |days[0].slots| > 0 {
        assert ([DayPlan(days[0].day, days[0].slots)] + rest)[1..] == rest;
      } else {
        assert EntryIds(days[0].slots) == [];
      }
    }
  }

  /**
   * Single placement: the loop places each title at most once (the `break` after the first open
   * day), so the plan's entry ids are a sub-multiset of the eligible catalog ids, and so of the
   * catalog's.
   */
  lemma PlanSinglePlacement(catalog: seq<MediaItem>, opts: PlanOptions)
    ensures PlanIds(BuildAutomationPlan(catalog, opts)) <= multiset(Ids(Eligible(catalog, opts)))
    ensures PlanIds(BuildAutomationPlan(catalog, opts)) <= multiset(Ids(catalog))
  {
    var focus := FocusOf(opts.focus);
    var ranked := Rank(catalog, focus);
    PlaceAllIds(ranked, opts);
    EmitIds(PlaceAll(InitialDays(opts.episodesPerDay), ranked, opts));
    RankEligibleCommute(catalog, opts);
    IdsPermutation(Rank(Eligible(catalog, opts), focus), Eligible(catalog, opts));
    EligibleSubmultiset(catalog, opts);
  }

  lemma {:induction false} EligibleSubmultiset(s: seq<MediaItem>, opts: PlanOptions)
    ensures multiset(Ids(Eligible(s, opts))) <= multiset(Ids(s))
  {
    if s != [] {
      EligibleSubmultiset(s[1..], opts);
      var h := if Skipped(s[0], opts) then [] else [s[0]];
      IdsAppend(h, Eligible(s[1..], opts));
      IdsAppend([s[0]], s[1..]);
      assert s == [s[0]] + s[1..];
    }
  }

  /** With distinct catalog ids, no title appears twice anywhere in the plan, on one day or on two. */
  lemma PlanIdsOnce(catalog: seq<MediaItem>, opts: PlanOptions, id: int)
    requires Distinct(Ids(catalog))
    ensures PlanIds(BuildAutomationPlan(catalog, opts))[id] <= 1
  {
    PlanSinglePlacement(catalog, opts);
    DistinctOnce(Ids(catalog), id);
  }

  /** A loop iteration only appends: every day's entries so far stay a prefix. */
  lemma PlaceItemGrows(days: seq<DaySlot>, m: MediaItem, opts: PlanOptions, i: int)
    requires 0 <= i < |days|
    ensures days[i].slots <= PlaceItem(days, m, opts)[i].slots
    ensures days[i].day == PlaceItem(days, m, opts)[i].day
  {
    var r := PlaceItem(days, m, opts);
    if r[i] != days[i] {
      assert PlacedOn(days, r, m, i);
    }
  }

  lemma {:induction false} PlaceAllGrows(init: seq<DaySlot>, items: seq<MediaItem>, opts: PlanOptions, n: nat, i: int)
    requires n <= |items| && 0 <= i < |init|
    ensures PlaceAll(init, items[..n], opts)[i].slots <= PlaceAll(init, items, opts)[i].slots
    decreases |items|
  {
    if n < |items| {
      var prefix := items[..|items| - 1];
      assert prefix[..n] == items[..n];
      PlaceAllGrows(init, prefix, opts, n, i);
      PlaceItemGrows(PlaceAll(init, prefix, opts), items[|items| - 1], opts, i);
    } else {
      assert items[..n] == items;
    }
  }

  /** The first emitted day is the first day that received an entry. */
  lemma EmitHead(days: seq<DaySlot>)
    requires days != [] && days[0].slots != []
    ensures Emit(days) != [] && Emit(days)[0] == DayPlan(days[0].day, days[0].slots)
  {
  }

  /**
   * With a positive daily quota, the top-ranked title, when it is not skipped, is the first entry of
   * Monday, with its weekly share of episodes.
   */
  lemma PlanStartsWithTop(catalog: seq<MediaItem>, opts: PlanOptions)
    requires opts.episodesPerDay > 0 && catalog != []
    requires !Skipped(Rank(catalog, FocusOf(opts.focus))[0], opts)
    ensures var plan, top := BuildAutomationPlan(catalog, opts), Rank(catalog, FocusOf(opts.focus))[0];
      && plan != [] && plan[0].day == "Monday" && plan[0].entries != []
      && plan[0].entries[0] == ToEntry(top, FairShare(opts.episodesPerDay, TotalEpisodes(top)))
  {
    var ranked := Rank(catalog, FocusOf(opts.focus));
    assert |multiset(ranked)| == |multiset(catalog)|;
    var top := ranked[0];
    var init := InitialDays(opts.episodesPerDay);
    var first := PlaceItem(init, top, opts);
    assert FirstOpenDay(init, 0) == Some(0);
    var e := ToEntry(top, FairShare(opts.episodesPerDay, TotalEpisodes(top)));
    assert first[0].slots == [e];
    assert ranked[..1][..0] == [];
    assert PlaceAll(init, ranked[..1], opts) == first;
    PlaceAllGrows(init, ranked, opts, 1, 0);
    var days := PlaceAll(init, ranked, opts);
    PlaceAllConsistent(ranked, opts);
    assert days[0].slots[0] == e;
    EmitHead(days);
  }

  /**
   * With completed titles included nothing is filtered out: finished titles are ranked and placed
   * like any other, every entry comes from the ranked catalog, and the top-ranked title opens
   * Monday whatever its status.
   */
  lemma PlanIncludesFinished(catalog: seq<MediaItem>, opts: PlanOptions)
    requires opts.includeCompleted
    ensures Eligible(catalog, opts) == catalog
    ensures forall p :: p in BuildAutomationPlan(catalog, opts) ==>
              EmbedsIn(p.entries, Rank(catalog, FocusOf(opts.focus)))
    ensures catalog != [] && opts.episodesPerDay > 0 ==>
              var plan, top := BuildAutomationPlan(catalog, opts), Rank(catalog, FocusOf(opts.focus))[0];
              && plan != [] && plan[0].day == "Monday" && plan[0].entries != []
              && plan[0].entries[0] == ToEntry(top, FairShare(opts.episodesPerDay, TotalEpisodes(top)))
  {
    EligibleAll(catalog, opts);
    PlanRankedOrder(catalog, opts);
    if catalog != [] && opts.episodesPerDay > 0 {
      PlanStartsWithTop(catalog, opts);
    }
  }
}
