/**
 * The dashboard page's pure helpers: the countdown label, the weekly chart, the genre filter
 * toggle and the synopsis shown on a trending card.
 */
module Display {
  import opened Wrappers
  import opened Decimal
  import opened Seqs
  import opened Media
  import opened Automation
  import opened PlanProperties

  const SecondsPerHour: int := 3600
  const HoursPerDay: int := 24

  /** Whole hours of a non-negative duration, then whole days of those hours, are its whole days. */
  lemma HoursToDays(seconds: int)
    requires seconds >= 0
    ensures (seconds / SecondsPerHour) / HoursPerDay == seconds / 86400
    ensures seconds / SecondsPerHour < HoursPerDay <==> seconds < 86400
  {
    var h, a := seconds / 3600, seconds % 3600;
    var d, b := h / 24, h % 24;
    assert seconds == 86400 * d + (3600 * b + a);
    assert 0 <= 3600 * b + a < 86400;
  }

  /**
   * `formatTimeUntil(seconds)`: "Now" for a past airing, whole hours below one day, else whole days;
   * the number is written in decimal with no leading zero.
   */
  function FormatTimeUntil(seconds: int): (r: string)
    ensures r == "Now" <==> seconds < 0
    ensures seconds >= 0 ==> |r| >= 2 && AllDigits(r[..|r| - 1])
    ensures seconds >= 0 && |r| > 2 ==> r[0] != '0'
    ensures seconds >= 0 ==> (r[|r| - 1] == 'h' <==> seconds < 86400)
    ensures 0 <= seconds < 86400 ==> ParseDigits(r[..|r| - 1]) == seconds / 3600 < 24
    ensures seconds >= 86400 ==> r[|r| - 1] == 'd' && 1 <= ParseDigits(r[..|r| - 1]) == seconds / 86400
  {
    if seconds < 0 then
      "Now"
    else
      HoursToDays(seconds);
      var hours := seconds / SecondsPerHour;
      var digits := if hours < HoursPerDay then NatToString(hours) else NatToString(hours / HoursPerDay);
      var r := digits + (if hours < HoursPerDay then "h" else "d");
      assert r[..|r| - 1] == digits;
      r
  }

  /** The chart's axis labels for the seven days of the plan, in plan order. */
  const WeekdayLabels: seq<string> := ["Mon", "Tue", "Wed", "Thu", "Fri", "Sat", "Sun"]

  /** The bar chart of a plan: one label and one total per planned day. */
  datatype ChartData = ChartData(labels: seq<string>, data: seq<int>)

  /** `day.slice(0, 3)`. */
  function Abbrev(day: string): (r: string)
    ensures |r| == if |day| < 3 then |day| else 3
    ensures r == day[..|r|]
  {
    if |day| < 3 then day else day[..3]
  }

  function Abbrevs(days: seq<string>): (r: seq<string>)
    ensures |r| == |days|
  {
    seq(|days|, i requires 0 <= i < |days| => Abbrev(days[i]))
  }

  /** `entry.episodes || 1`: a count of zero is drawn as one. */
  function Weight(e: PlanEntry): (w: int)
    ensures w != 0
    ensures e.episodes != 0 ==> w == e.episodes
  {
    if e.episodes == 0 then 1 else e.episodes
  }

  /** `entries.reduce((sum, entry) => sum + (entry.episodes || 1), 0)`. */
  function DayTotal(es: seq<PlanEntry>): int {
    if es == [] then 0 else DayTotal(es[..|es| - 1]) + Weight(es[|es| - 1])
  }

  /** The entries that carry zero episodes. */
  function ZeroEntries(es: seq<PlanEntry>): (n: nat)
    ensures n <= |es|
  {
    if es == [] then 0 else ZeroEntries(es[1..]) + (if es[0].episodes == 0 then 1 else 0)
  }

  /** `buildChartData(plan)`: the labels and the per-day totals. */
  function BuildChartData(plan: seq<DayPlan>): (c: ChartData)
    ensures |c.labels| == |plan| && |c.data| == |plan|
    ensures forall i :: 0 <= i < |plan| ==>
              |c.labels[i]| == (if |plan[i].day| < 3 then |plan[i].day| else 3) &&
              c.labels[i] == plan[i].day[..|c.labels[i]|]
    ensures forall i :: 0 <= i < |plan| ==> c.data[i] == SumEpisodes(plan[i].entries) + ZeroEntries(plan[i].entries)
  {
    DayTotalsCount(plan);
    ChartData(Abbrevs(PlanDays(plan)), seq(|plan|, i requires 0 <= i < |plan| => DayTotal(plan[i].entries)))
  }

  lemma DayTotalsCount(plan: seq<DayPlan>)
    ensures forall i :: 0 <= i < |plan| ==> DayTotal(plan[i].entries) == SumEpisodes(plan[i].entries) + ZeroEntries(plan[i].entries)
  {
    forall i | 0 <= i < |plan| {
      DayTotalCounts(plan[i].entries);
    }
  }

  lemma {:induction false} ZeroEntriesSnoc(es: seq<PlanEntry>, e: PlanEntry)
    ensures ZeroEntries(es + [e]) == ZeroEntries(es) + (if e.episodes == 0 then 1 else 0)
  {
    if es != [] {
      assert (es + [e])[1..] == es[1..] + [e];
      ZeroEntriesSnoc(es[1..], e);
    }
  }

  /** A day's bar is its scheduled episode count plus one for every entry with zero episodes. */
  lemma {:induction false} DayTotalCounts(es: seq<PlanEntry>)
    ensures DayTotal(es) == SumEpisodes(es) + ZeroEntries(es)
  {
    if es != [] {
      var prefix, e := es[..|es| - 1], es[|es| - 1];
      assert es == prefix + [e];
      ZeroEntriesSnoc(prefix, e);
      DayTotalCounts(prefix);
    }
  }

  /** With no negative counts, a day's bar is at least its number of entries. */
  lemma {:induction false} DayTotalAtLeastEntries(es: seq<PlanEntry>)
    requires forall k :: 0 <= k < |es| ==> es[k].episodes >= 0
    ensures DayTotal(es) >= |es|
  {
    if es != [] {
      DayTotalAtLeastEntries(es[..|es| - 1]);
    }
  }

  lemma {:induction false} SubseqAbbrevs(a: seq<string>, b: seq<string>)
    requires Subseq(a, b)
    ensures Subseq(Abbrevs(a), Abbrevs(b))
    decreases |b|
  {
    if a != [] {
      assert Abbrevs(b)[1..] == Abbrevs(b[1..]);
      if a[0] == b[0] && Subseq(a[1..], b[1..]) {
        assert Abbrevs(a)[1..] == Abbrevs(a[1..]);
        SubseqAbbrevs(a[1..], b[1..]);
      } else {
        SubseqAbbrevs(a, b[1..]);
      }
    }
  }

  /** Labels of a plan whose days keep week order are weekday abbreviations in week order. */
  lemma ChartLabels(plan: seq<DayPlan>)
    requires Subseq(PlanDays(plan), DayOrder)
    ensures Subseq(BuildChartData(plan).labels, WeekdayLabels)
  {
    SubseqAbbrevs(PlanDays(plan), DayOrder);
    assert Abbrev("Monday") == "Mon" && Abbrev("Tuesday") == "Tue" && Abbrev("Wednesday") == "Wed";
    assert Abbrev("Thursday") == "Thu" && Abbrev("Friday") == "Fri";
    assert Abbrev("Saturday") == "Sat" && Abbrev("Sunday") == "Sun";
    assert Abbrevs(DayOrder) == WeekdayLabels;
  }

  /** Within a daily budget, a bar exceeds it by at most the day's zero-episode entries. */
  lemma ChartBars(plan: seq<DayPlan>, budget: int)
    requires forall p :: p in plan ==> SumEpisodes(p.entries) <= budget
    ensures forall i :: 0 <= i < |plan| ==> BuildChartData(plan).data[i] <= budget + ZeroEntries(plan[i].entries)
  {
    forall i | 0 <= i < |plan|
      ensures BuildChartData(plan).data[i] <= budget + ZeroEntries(plan[i].entries)
    {
      assert plan[i] in plan;
      DayTotalCounts(plan[i].entries);
    }
  }

  /**
   * The chart of an automation plan: its labels are weekday abbreviations in week order, and no
   * bar exceeds the daily budget by more than the number of zero-episode entries that day.
   */
  lemma ChartOfPlan(catalog: seq<MediaItem>, opts: PlanOptions)
    ensures Subseq(BuildChartData(BuildAutomationPlan(catalog, opts)).labels, WeekdayLabels)
    ensures forall i :: 0 <= i < |BuildAutomationPlan(catalog, opts)| ==>
      BuildChartData(BuildAutomationPlan(catalog, opts)).data[i]
        <= opts.episodesPerDay + ZeroEntries(BuildAutomationPlan(catalog, opts)[i].entries)
  {
    var plan := BuildAutomationPlan(catalog, opts);
    PlanDayOrder(catalog, opts);
    PlanWithinQuota(catalog, opts);
    ChartLabels(plan);
    ChartBars(plan, opts.episodesPerDay);
  }

  /** `prev.filter((item) => item !== genre)`. */
  function RemoveAll(s: seq<string>, x: string): (r: seq<string>)
    ensures x !in r
    ensures multiset(r) == multiset(s)[x := 0]
    ensures Subseq(r, s)
  {
    if s == [] then []
    else
      var rest := RemoveAll(s[1..], x);
      assert s == [s[0]] + s[1..];
      if s[0] == x then
        rest
      else
        assert ([s[0]] + rest)[1..] == rest;
        [s[0]] + rest
  }

  /** The genre button's update: a selected genre is removed everywhere, any other is appended. */
  function ToggleGenre(prev: seq<string>, genre: string): (r: seq<string>)
    ensures genre in r <==> genre !in prev
    ensures forall y :: y != genre ==> multiset(r)[y] == multiset(prev)[y]
    ensures genre in prev ==> Subseq(r, prev)
    ensures genre !in prev ==> r == prev + [genre]
  {
    if genre in prev then RemoveAll(prev, genre) else prev + [genre]
  }

  lemma {:induction false} RemoveAbsent(s: seq<string>, x: string)
    requires x !in s
    ensures RemoveAll(s, x) == s
  {
    if s != [] {
      RemoveAbsent(s[1..], x);
    }
  }

  lemma {:induction false} RemoveAppended(s: seq<string>, x: string)
    ensures RemoveAll(s + [x], x) == RemoveAll(s, x)
  {
    if s == [] {
      assert RemoveAll([x], x) == RemoveAll([], x);
    } else {
      assert (s + [x])[1..] == s[1..] + [x];
      RemoveAppended(s[1..], x);
    }
  }

  /** Clicking an unselected genre twice restores the selection exactly. */
  lemma ToggleTwiceAbsent(prev: seq<string>, genre: string)
    requires genre !in prev
    ensures ToggleGenre(ToggleGenre(prev, genre), genre) == prev
  {
    RemoveAppended(prev, genre);
    RemoveAbsent(prev, genre);
  }

  /** Clicking a selected genre twice moves it to the end, dropping any duplicates of it. */
  lemma ToggleTwicePresent(prev: seq<string>, genre: string)
    requires genre in prev
    ensures ToggleGenre(ToggleGenre(prev, genre), genre) == RemoveAll(prev, genre) + [genre]
  {
  }

  /** A selection without repeats keeps none after a toggle. */
  lemma ToggleKeepsDistinct(prev: seq<string>, genre: string)
    requires Distinct(prev)
    ensures Distinct(ToggleGenre(prev, genre))
  {
    var r := ToggleGenre(prev, genre);
    forall y
      ensures multiset(r)[y] <= 1
    {
      DistinctOnce(prev, y);
      if genre !in prev {
        assert multiset(r) == multiset(prev) + multiset{genre};
      }
    }
    OnceDistinct(r);
  }

  /** The synopsis is cut to this many characters. */
  const SynopsisLength: int := 180
  const Ellipsis: string := "\U{2026}"
  const NoSynopsis: string := "No synopsis available."

  /** A `<br>` starts at position `k` of `s`. */
  predicate BreakAt(s: string, k: int) {
    0 <= k && k + 4 <= |s| && s[k] == '<' && s[k + 1] == 'b' && s[k + 2] == 'r' && s[k + 3] == '>'
  }

  /** An `<i>` starts at position `k` of `s`. */
  predicate OpenItalicAt(s: string, k: int) {
    0 <= k && k + 3 <= |s| && s[k] == '<' && s[k + 1] == 'i' && s[k + 2] == '>'
  }

  /** An `</i>` starts at position `k` of `s`. */
  predicate CloseItalicAt(s: string, k: int) {
    0 <= k && k + 4 <= |s| && s[k] == '<' && s[k + 1] == '/' && s[k + 2] == 'i' && s[k + 3] == '>'
  }

  /** `replace(/<br>/g, " ")`: each `<br>`, matched left to right without overlap, becomes a space. */
  function ReplaceBreaks(s: string): (r: string)
    ensures |r| <= |s|
    ensures '<' !in s ==> r == s
    decreases |s|
  {
    if BreakAt(s, 0) then
      " " + ReplaceBreaks(s[4..])
    else if s == [] then
      []
    else
      [s[0]] + ReplaceBreaks(s[1..])
  }

  /** No `<br>` of `s` starts before position `n`. */
  predicate NoBreakBefore(s: string, n: int) {
    forall k :: 0 <= k < n ==> !BreakAt(s, k)
  }

  /**
   * Text in which no `<br>` starts passes through unchanged, whatever follows it: other markup,
   * such as `<b>` or `<a href="...">`, is copied as it is.
   */
  lemma {:induction false} ReplaceBreaksPlain(x: string, y: string)
    requires NoBreakBefore(x + y, |x|)
    ensures ReplaceBreaks(x + y) == x + ReplaceBreaks(y)
  {
    if x == [] {
      assert x + y == y;
    } else {
      ConsAppend(x, y);
      ConsAppend(x, ReplaceBreaks(y));
      assert !BreakAt(x + y, 0);
      forall k | 0 <= k < |x[1..]| ensures !BreakAt(x[1..] + y, k) {
        assert !BreakAt(x + y, k + 1);
      }
      calc {
        ReplaceBreaks(x + y);
        [x[0]] + ReplaceBreaks(x[1..] + y);
        { ReplaceBreaksPlain(x[1..], y); }
        [x[0]] + (x[1..] + ReplaceBreaks(y));
      }
    }
  }

  /** The first `<br>` after text holding none becomes a space, and the rest is replaced in turn. */
  lemma ReplaceBreaksSplit(x: string, y: string)
    requires NoBreakBefore(x + "<br>" + y, |x|)
    ensures ReplaceBreaks(x + "<br>" + y) == x + " " + ReplaceBreaks(y)
  {
    var b := "<br>" + y;
    calc {
      ReplaceBreaks(x + "<br>" + y);
      { assert x + "<br>" + y == x + b; }
      ReplaceBreaks(x + b);
      { ReplaceBreaksPlain(x, b); }
      x + ReplaceBreaks(b);
      { assert BreakAt(b, 0) && b[4..] == y; }
      x + (" " + ReplaceBreaks(y));
    }
  }

  /** A result that does not begin with the space of a replaced `<br>` begins with the input's first character. */
  lemma ReplaceBreaksHead(s: string)
    requires ReplaceBreaks(s) != [] && ReplaceBreaks(s)[0] != ' '
    ensures s != [] && !BreakAt(s, 0)
    ensures ReplaceBreaks(s) == [s[0]] + ReplaceBreaks(s[1..])
  {
  }

  /** No `<br>` is left after the replacement: the space that replaces one cannot start or end another. */
  lemma {:induction false} NoBreakLeft(s: string)
    ensures forall k :: !BreakAt(ReplaceBreaks(s), k)
    decreases |s|
  {
    var r := ReplaceBreaks(s);
    if BreakAt(s, 0) {
      var t := ReplaceBreaks(s[4..]);
      NoBreakLeft(s[4..]);
      assert r == " " + t;
      forall k ensures !BreakAt(r, k) {
        if 1 <= k <= |r| - 4 {
          assert r[k..k + 4] == t[k - 1..k + 3];
          assert !BreakAt(t, k - 1);
        }
      }
    } else if s != [] {
      var t := ReplaceBreaks(s[1..]);
      NoBreakLeft(s[1..]);
      assert r == [s[0]] + t;
      forall k ensures !BreakAt(r, k) {
        if 1 <= k <= |r| - 4 {
          assert r[k..k + 4] == t[k - 1..k + 3];
          assert !BreakAt(t, k - 1);
        } else if k == 0 && |t| >= 3 && s[0] == '<' && t[0] == 'b' && t[1] == 'r' {
          ReplaceBreaksHead(s[1..]);
          assert s[1..][1..] == s[2..];
          ReplaceBreaksHead(s[2..]);
          if t[2] != ' ' {
            assert s[2..][1..] == s[3..];
            ReplaceBreaksHead(s[3..]);
          }
        }
      }
    }
  }

  /** `replace(/<\/?i>/g, "")`: each `<i>` and `</i>`, matched left to right, is deleted. */
  function StripItalics(s: string): (r: string)
    ensures |r| <= |s|
    ensures '<' !in s ==> r == s
    decreases |s|
  {
    if OpenItalicAt(s, 0) then
      StripItalics(s[3..])
    else if CloseItalicAt(s, 0) then
      StripItalics(s[4..])
    else if s == [] then
      []
    else
      [s[0]] + StripItalics(s[1..])
  }

  /** No `<i>` or `</i>` of `s` starts before position `n`. */
  predicate NoItalicBefore(s: string, n: int) {
    forall k :: 0 <= k < n ==> !OpenItalicAt(s, k) && !CloseItalicAt(s, k)
  }

  /**
   * Text in which no `<i>` or `</i>` starts passes through unchanged, whatever follows it: other
   * markup, such as `<b>`, `<p>` or `<br>`, is kept.
   */
  lemma {:induction false} StripItalicsPlain(x: string, y: string)
    requires NoItalicBefore(x + y, |x|)
    ensures StripItalics(x + y) == x + StripItalics(y)
  {
    if x == [] {
      assert x + y == y;
    } else {
      ConsAppend(x, y);
      ConsAppend(x, StripItalics(y));
      assert !OpenItalicAt(x + y, 0) && !CloseItalicAt(x + y, 0);
      forall k | 0 <= k < |x[1..]| ensures !OpenItalicAt(x[1..] + y, k) && !CloseItalicAt(x[1..] + y, k) {
        assert !OpenItalicAt(x + y, k + 1) && !CloseItalicAt(x + y, k + 1);
      }
      calc {
        StripItalics(x + y);
        [x[0]] + StripItalics(x[1..] + y);
        { StripItalicsPlain(x[1..], y); }
        [x[0]] + (x[1..] + StripItalics(y));
      }
    }
  }

  /** The first `<i>` or `</i>` after text holding neither is deleted, and the rest is stripped in turn. */
  lemma StripItalicsSplit(x: string, tag: string, y: string)
    requires tag == "<i>" || tag == "</i>"
    requires NoItalicBefore(x + tag + y, |x|)
    ensures StripItalics(x + tag + y) == x + StripItalics(y)
  {
    var t := tag + y;
    assert x + tag + y == x + t;
    calc {
      StripItalics(x + tag + y);
      StripItalics(x + t);
      { StripItalicsPlain(x, t); }
      x + StripItalics(t);
      { if tag == "<i>" {
          assert OpenItalicAt(t, 0) && t[3..] == y;
        } else {
          assert !OpenItalicAt(t, 0) && CloseItalicAt(t, 0) && t[4..] == y;
        }
      }
      x + StripItalics(y);
    }
  }

  /** A single pass: deleting the inner `<i>` of `<<i>i>` leaves a new `<i>`, which stays. */
  lemma StripItalicsSinglePass()
    ensures StripItalics("<<i>i>") == "<i>"
  {
    assert "<<i>i>"[1..] == "<i>i>";
    assert "<i>i>"[3..] == "i>";
    assert StripItalics("i>") == "i>";
  }

  /** Markup other than the two patterns survives both replacements. */
  lemma OtherMarkupKept()
    ensures ReplaceBreaks("<b>x</b>") == "<b>x</b>"
    ensures StripItalics("<b>x</b>") == "<b>x</b>"
    ensures StripItalics("<br>") == "<br>"
  {
    var s: string := "<b>x</b>";
    ReplaceBreaksPlain(s, []);
    StripItalicsPlain(s, []);
    StripItalicsPlain("<br>", []);
    assert s + [] == s && "<br>" + [] == "<br>";
  }

  /** The description with its markup cleaned, before it is cut. */
  function Clean(s: string): (r: string)
    ensures |r| <= |s|
    ensures '<' !in s ==> r == s
  {
    StripItalics(ReplaceBreaks(s))
  }

  /** `slice(0, n)`. */
  function Take(s: string, n: nat): (r: string)
    ensures |r| == if |s| <= n then |s| else n
    ensures r == s[..|r|]
  {
    if |s| <= n then s else s[..n]
  }

  /**
   * The card text as the page writes it: the cleaned description cut to 180 characters, followed
   * by an ellipsis whenever the RAW description is longer than 180 characters.
   */
  function SynopsisAsWritten(description: Option<string>): (r: string)
    ensures description.None? ==> r == NoSynopsis
    ensures description.Some? && |description.value| <= SynopsisLength ==> r == Clean(description.value)
    ensures description.Some? && |Clean(description.value)| <= SynopsisLength < |description.value| ==>
      r == Clean(description.value) + Ellipsis
    ensures description.Some? && |Clean(description.value)| > SynopsisLength ==>
      |r| == SynopsisLength + 1 && r[..SynopsisLength] == Clean(description.value)[..SynopsisLength]
      && r[SynopsisLength..] == Ellipsis
  {
    match description
    case None => NoSynopsis
    case Some(d) => Take(Clean(d), SynopsisLength) + (if |d| > SynopsisLength then Ellipsis else "")
  }

  /**
   * The card text with the ellipsis marking an actual cut: the whole cleaned description when it
   * fits, else its first 180 characters and an ellipsis.
   */
  function Synopsis(description: Option<string>): (r: string)
    ensures description.None? ==> r == NoSynopsis
    ensures description.Some? && |Clean(description.value)| <= SynopsisLength ==> r == Clean(description.value)
    ensures description.Some? && |Clean(description.value)| > SynopsisLength ==>
      |r| == SynopsisLength + 1 && r[..SynopsisLength] == Clean(description.value)[..SynopsisLength]
      && r[SynopsisLength..] == Ellipsis
  {
    match description
    case None => NoSynopsis
    case Some(d) =>
      var text := Clean(d);
      Take(text, SynopsisLength) + (if |text| > SynopsisLength then Ellipsis else "")
  }

  /** On descriptions without markup the two readings agree. */
  lemma SynopsisPlainText(d: string)
    requires '<' !in d
    ensures SynopsisAsWritten(Some(d)) == Synopsis(Some(d))
  {
  }

  /** Whenever text is really cut, the page does show the ellipsis. */
  lemma EllipsisWhenCut(d: string)
    requires |Clean(d)| > SynopsisLength
    ensures SynopsisAsWritten(Some(d)) == Synopsis(Some(d))
  {
  }

  /**
   * A description of 181 characters whose markup brings it down to 178: the page shows all of the
   * text and still appends an ellipsis.
   */
  lemma EllipsisWithoutCut()
    ensures var d := "<i>" + seq(178, _ => 'a');
      && |d| == 181 && |Clean(d)| == 178
      && SynopsisAsWritten(Some(d)) == Clean(d) + Ellipsis
      && Synopsis(Some(d)) == Clean(d)
  {
    var a := seq(178, _ => 'a');
    var d := "<i>" + a;
    assert '<' !in a;
    assert d[1..] == "i>" + a && d[1..][1..] == ">" + a && d[1..][1..][1..] == a;
    assert ReplaceBreaks(">" + a) == ">" + a;
    assert ReplaceBreaks("i>" + a) == "i>" + a;
    assert ReplaceBreaks(d) == d;
    assert d[..3] == "<i>" && d[3..] == a;
    assert Clean(d) == a;
  }
}
