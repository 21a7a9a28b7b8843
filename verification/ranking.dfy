/**
 * The planner's ranking: a stable sort of the catalog, descending by the focus key (popularity when
 * the focus is "popularity", average score otherwise; a missing value counts as 0).
 */
module Ranking {
  import opened Wrappers
  import opened Media

  /** Which comparator the sort uses. */
  datatype Focus = ByPopularity | ByScore

  /** `focus === "popularity"` selects popularity; every other value, the score. */
  function FocusOf(focus: string): (f: Focus)
    ensures f == ByPopularity <==> focus == "popularity"
  {
    if focus == "popularity" then ByPopularity else ByScore
  }

  /** The comparator's key: `b.popularity - a.popularity` or `b.score - a.score` after `?? 0`. */
  function RankKey(m: MediaItem, focus: Focus): (k: int)
    ensures focus == ByPopularity ==> k == (if m.popularity.Some? then m.popularity.value else 0)
    ensures focus == ByScore ==> k == (if m.averageScore.Some? then m.averageScore.value else 0)
  {
    match focus
    case ByPopularity => m.popularity.GetOr(0)
    case ByScore => m.averageScore.GetOr(0)
  }

  /** Non-increasing in the focus key. */
  ghost predicate Ranked(s: seq<MediaItem>, focus: Focus) {
    forall i, j :: 0 <= i < j < |s| ==> RankKey(s[i], focus) >= RankKey(s[j], focus)
  }

  /** The items whose focus key is `k`, in their order in `s`. */
  function WithKey(s: seq<MediaItem>, focus: Focus, k: int): (r: seq<MediaItem>)
    ensures |r| <= |s|
  {
    if s == [] then []
    else (if RankKey(s[0], focus) == k then [s[0]] else []) + WithKey(s[1..], focus, k)
  }

  /** Only items of `s` with key `k` are kept. */
  lemma {:induction false} WithKeyMembers(s: seq<MediaItem>, focus: Focus, k: int, x: MediaItem)
    requires x in WithKey(s, focus, k)
    ensures x in s && RankKey(x, focus) == k
  {
    if !(RankKey(s[0], focus) == k && x == s[0]) {
      WithKeyMembers(s[1..], focus, k, x);
    }
  }

  /** Puts `x` before the first element whose key is not greater than its own. */
  function Insert(x: MediaItem, s: seq<MediaItem>, focus: Focus): (r: seq<MediaItem>)
    ensures multiset(r) == multiset(s) + multiset{x}
  {
    if s == [] || RankKey(s[0], focus) <= RankKey(x, focus) then
      [x] + s
    else
      assert s == [s[0]] + s[1..];
      [s[0]] + Insert(x, s[1..], focus)
  }

  /** What is inserted into the tail of a ranked sequence stays below its head, when `x` does. */
  lemma InsertedBelowHead(x: MediaItem, s: seq<MediaItem>, focus: Focus, y: MediaItem)
    requires Ranked(s, focus) && s != [] && RankKey(s[0], focus) > RankKey(x, focus)
    requires y in Insert(x, s[1..], focus)
    ensures RankKey(s[0], focus) >= RankKey(y, focus)
  {
    assert y in multiset(Insert(x, s[1..], focus));
    if y != x {
      assert y in multiset(s[1..]);
      var k :| 0 <= k < |s[1..]| && s[1..][k] == y;
      assert s[1..][k] == s[k + 1];
    }
  }

  lemma {:induction false} InsertRanked(x: MediaItem, s: seq<MediaItem>, focus: Focus)
    requires Ranked(s, focus)
    ensures Ranked(Insert(x, s, focus), focus)
  {
    if s == [] || RankKey(s[0], focus) <= RankKey(x, focus) {
      var r := [x] + s;
      forall i, j | 0 <= i < j < |r|
        ensures RankKey(r[i], focus) >= RankKey(r[j], focus)
      {
        if i > 0 {
          assert r[i] == s[i - 1] && r[j] == s[j - 1];
        } else if j > 1 {
          assert r[j] == s[j - 1];
          assert RankKey(s[0], focus) >= RankKey(s[j - 1], focus);
        }
      }
    } else {
      var rest := Insert(x, s[1..], focus);
      InsertRanked(x, s[1..], focus);
      var r := [s[0]] + rest;
      assert r == Insert(x, s, focus);
      forall j | 0 < j < |r|
        ensures RankKey(s[0], focus) >= RankKey(r[j], focus)
      {
        InsertedBelowHead(x, s, focus, rest[j - 1]);
      }
      forall i, j | 0 <= i < j < |r|
        ensures RankKey(r[i], focus) >= RankKey(r[j], focus)
      {
        if i > 0 {
          assert r[i] == rest[i - 1] && r[j] == rest[j - 1];
        }
      }
    }
  }

  /** `Array.prototype.sort` with the focus comparator, which is stable (ECMA-262 2019 and later). */
  function Rank(s: seq<MediaItem>, focus: Focus): (r: seq<MediaItem>)
    ensures multiset(r) == multiset(s)
    ensures Ranked(r, focus)
  {
    if s == [] then []
    else
      assert s == [s[0]] + s[1..];
      InsertRanked(s[0], Rank(s[1..], focus), focus);
      Insert(s[0], Rank(s[1..], focus), focus)
  }

  /** Inserting `x` only adds `x` to its own key's run, in front. */
  lemma {:induction false} InsertWithKey(x: MediaItem, s: seq<MediaItem>, focus: Focus, k: int)
    ensures WithKey(Insert(x, s, focus), focus, k)
         == (if RankKey(x, focus) == k then [x] else []) + WithKey(s, focus, k)
  {
    if s == [] || RankKey(s[0], focus) <= RankKey(x, focus) {
      assert Insert(x, s, focus) == [x] + s;
      WithKeyCons(x, s, focus, k);
    } else {
      InsertWithKey(x, s[1..], focus, k);
      InsertPastHead(x, s, focus, k);
    }
  }

  /** The inductive step of InsertWithKey, where `x` goes past the head of `s`. */
  lemma InsertPastHead(x: MediaItem, s: seq<MediaItem>, focus: Focus, k: int)
    requires s != [] && RankKey(s[0], focus) > RankKey(x, focus)
    requires WithKey(Insert(x, s[1..], focus), focus, k)
          == (if RankKey(x, focus) == k then [x] else []) + WithKey(s[1..], focus, k)
    ensures WithKey(Insert(x, s, focus), focus, k)
         == (if RankKey(x, focus) == k then [x] else []) + WithKey(s, focus, k)
  {
    var rest := Insert(x, s[1..], focus);
    var h := if RankKey(s[0], focus) == k then [s[0]] else [];
    var xs := if RankKey(x, focus) == k then [x] else [];
    calc {
      WithKey(Insert(x, s, focus), focus, k);
      { assert Insert(x, s, focus) == [s[0]] + rest; }
      WithKey([s[0]] + rest, focus, k);
      { WithKeyCons(s[0], rest, focus, k); }
      h + WithKey(rest, focus, k);
      h + (xs + WithKey(s[1..], focus, k));
      { SwapEmpty(h, xs, WithKey(s[1..], focus, k)); }
      xs + (h + WithKey(s[1..], focus, k));
      { assert WithKey(s, focus, k) == h + WithKey(s[1..], focus, k); }
      xs + WithKey(s, focus, k);
    }
  }

  /** Two prefixes commute when one of them is empty. */
  lemma SwapEmpty<T>(h: seq<T>, xs: seq<T>, w: seq<T>)
    requires h == [] || xs == []
    ensures h + (xs + w) == xs + (h + w)
  {
    if h == [] {
      assert h + (xs + w) == xs + w == xs + (h + w);
    } else {
      assert h + (xs + w) == h + w == xs + (h + w);
    }
  }

  lemma WithKeyCons(x: MediaItem, s: seq<MediaItem>, focus: Focus, k: int)
    ensures WithKey([x] + s, focus, k) == (if RankKey(x, focus) == k then [x] else []) + WithKey(s, focus, k)
  {
    assert ([x] + s)[0] == x && ([x] + s)[1..] == s;
  }

  /** Stability: for every key, the items with that key keep their input order. */
  lemma {:induction false} RankStable(s: seq<MediaItem>, focus: Focus, k: int)
    ensures WithKey(Rank(s, focus), focus, k) == WithKey(s, focus, k)
  {
    if s != [] {
      RankStable(s[1..], focus, k);
      InsertWithKey(s[0], Rank(s[1..], focus), focus, k);
    }
  }

  lemma WithKeyHead(s: seq<MediaItem>, focus: Focus)
    requires s != []
    ensures WithKey(s, focus, RankKey(s[0], focus)) == [s[0]] + WithKey(s[1..], focus, RankKey(s[0], focus))
  {
  }

  lemma WithKeyOther(s: seq<MediaItem>, focus: Focus, k: int)
    requires s != [] && RankKey(s[0], focus) != k
    ensures WithKey(s, focus, k) == WithKey(s[1..], focus, k)
  {
  }

  lemma HeadKeyIsMaximal(s: seq<MediaItem>, focus: Focus, x: MediaItem)
    requires Ranked(s, focus) && x in s
    ensures RankKey(s[0], focus) >= RankKey(x, focus)
  {
    var i :| 0 <= i < |s| && s[i] == x;
    if i > 0 {
      assert RankKey(s[0], focus) >= RankKey(s[i], focus);
    }
  }

  /** If `b` holds every item of `a`'s leading key, `b` cannot lead with a smaller key. */
  lemma HeadKeyBound(a: seq<MediaItem>, b: seq<MediaItem>, focus: Focus)
    requires a != [] && Ranked(b, focus)
    requires WithKey(a, focus, RankKey(a[0], focus)) == WithKey(b, focus, RankKey(a[0], focus))
    ensures b != [] && RankKey(b[0], focus) >= RankKey(a[0], focus)
  {
    WithKeyHead(a, focus);
    assert a[0] in WithKey(b, focus, RankKey(a[0], focus));
    WithKeyMembers(b, focus, RankKey(a[0], focus), a[0]);
    HeadKeyIsMaximal(b, focus, a[0]);
  }

  /**
   * Uniqueness: a ranked sequence is determined by its per-key runs, so Rank's result is the only
   * ranked arrangement that keeps every key's items in input order.
   */
  lemma {:induction false} RankedUnique(a: seq<MediaItem>, b: seq<MediaItem>, focus: Focus)
    requires Ranked(a, focus) && Ranked(b, focus)
    requires forall k :: WithKey(a, focus, k) == WithKey(b, focus, k)
    ensures a == b
    decreases |a|
  {
    if a == [] && b == [] {
    } else if a == [] {
      HeadKeyBound(b, a, focus);
    } else if b == [] {
      HeadKeyBound(a, b, focus);
    } else {
      UniqueHead(a, b, focus);
      RankedTail(a, focus);
      RankedTail(b, focus);
      RankedUnique(a[1..], b[1..], focus);
      assert a == [a[0]] + a[1..] && b == [b[0]] + b[1..];
    }
  }

  /** One step of the uniqueness argument: equal heads, and the tails again agree on every key. */
  lemma UniqueHead(a: seq<MediaItem>, b: seq<MediaItem>, focus: Focus)
    requires a != [] && b != []
    requires Ranked(a, focus) && Ranked(b, focus)
    requires forall k :: WithKey(a, focus, k) == WithKey(b, focus, k)
    ensures a[0] == b[0]
    ensures forall k :: WithKey(a[1..], focus, k) == WithKey(b[1..], focus, k)
  {
    var ka := RankKey(a[0], focus);
    HeadKeyBound(a, b, focus);
    HeadKeyBound(b, a, focus);
    WithKeyHead(a, focus);
    WithKeyHead(b, focus);
    var wa, wb := WithKey(a[1..], focus, ka), WithKey(b[1..], focus, ka);
    assert [a[0]] + wa == [b[0]] + wb;
    assert ([a[0]] + wa)[1..] == wa && ([b[0]] + wb)[1..] == wb;
    forall k
      ensures WithKey(a[1..], focus, k) == WithKey(b[1..], focus, k)
    {
      if k != ka {
        WithKeyOther(a, focus, k);
        WithKeyOther(b, focus, k);
      }
    }
  }

  lemma RankedTail(s: seq<MediaItem>, focus: Focus)
    requires s != [] && Ranked(s, focus)
    ensures Ranked(s[1..], focus)
  {
    forall i, j | 0 <= i < j < |s| - 1
      ensures RankKey(s[1..][i], focus) >= RankKey(s[1..][j], focus)
    {
      assert s[1..][i] == s[i + 1] && s[1..][j] == s[j + 1];
    }
  }

  lemma {:induction false} WithKeyAppend(a: seq<MediaItem>, b: seq<MediaItem>, focus: Focus, k: int)
    ensures WithKey(a + b, focus, k) == WithKey(a, focus, k) + WithKey(b, focus, k)
  {
    if a == [] {
      assert a + b == b;
    } else {
      var h := if RankKey(a[0], focus) == k then [a[0]] else [];
      calc {
        WithKey(a + b, focus, k);
        { WithKeyCons(a[0], a[1..] + b, focus, k); assert [a[0]] + (a[1..] + b) == a + b; }
        h + WithKey(a[1..] + b, focus, k);
        { WithKeyAppend(a[1..], b, focus, k); }
        h + (WithKey(a[1..], focus, k) + WithKey(b, focus, k));
        (h + WithKey(a[1..], focus, k)) + WithKey(b, focus, k);
        { WithKeyCons(a[0], a[1..], focus, k); assert [a[0]] + a[1..] == a; }
        WithKey(a, focus, k) + WithKey(b, focus, k);
      }
    }
  }

  lemma RankedCons(x: MediaItem, s: seq<MediaItem>, focus: Focus)
    requires Ranked(s, focus)
    requires forall y :: y in s ==> RankKey(x, focus) >= RankKey(y, focus)
    ensures Ranked([x] + s, focus)
  {
    var r := [x] + s;
    forall i, j | 0 <= i < j < |r|
      ensures RankKey(r[i], focus) >= RankKey(r[j], focus)
    {
      assert r[j] == s[j - 1];
      if i > 0 {
        assert r[i] == s[i - 1];
      }
    }
  }
}
