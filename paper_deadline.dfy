/**
 * The paper-deadline widget: which conference deadlines are listed (filters,
 * soonest first, at most a configured number), the live countdown and its
 * urgency colour, the one-hour conference cache, the CCF rank labels and the
 * update-interval setting.
 */
module Papers {
  import opened Base
  import opened Text

  /** One entry of a conference year's `timeline`. `parsed` is the deadline as seconds since the epoch (UTC), `None` when its text does not parse as a date. */
  datatype TimelineItem = TimelineItem(deadline: Option<string>, parsed: Option<int>, comment: Option<string>)

  /** One year of a conference (an entry of its `confs`). */
  datatype ConfYear = ConfYear(
    year: Option<int>,
    timezone: Option<string>,
    place: Option<string>,
    link: Option<string>,
    timeline: seq<TimelineItem>)

  /** A conference of the downloaded list. `rank` is its `rank.ccf` entry. */
  datatype Conference = Conference(title: Option<string>, rank: Option<string>, sub: Option<string>, confs: seq<ConfYear>)

  /** A listed deadline. */
  datatype DeadlineInfo = DeadlineInfo(
    title: string,
    year: int,
    deadline: int,
    daysUntil: int,
    timezone: string,
    place: string,
    link: string,
    rank: string,
    sub: string,
    comment: string)

  /** The selection settings: how many to list, whether past deadlines count, and the rank and category filters (empty accepts all). */
  datatype Selection = Selection(maxDeadlines: int, showPast: bool, rankFilter: seq<string>, subFilter: seq<string>)

  /** What happens to one timeline item: skipped, listed, or a missing key that aborts the whole selection. */
  datatype Outcome = Skip | Include(info: DeadlineInfo) | Fail(msg: string)

  const SecondsPerDay := 86400

  /** Whole days from `now` to `deadline`, rounded down. */
  function DaysUntil(deadline: int, now: int): (d: int)
    ensures d >= 0 <==> deadline >= now
    ensures d * SecondsPerDay <= deadline - now < (d + 1) * SecondsPerDay
  {
    (deadline - now) / SecondsPerDay
  }

  /** An empty filter accepts everything; otherwise the value must be listed. */
  predicate Passes(filter: seq<string>, value: string)
  {
    filter == [] || value in filter
  }

  /** The deadline text names a date to parse: present, non-empty and not `TBD`. */
  predicate HasDeadline(item: TimelineItem)
  {
    item.deadline.Some? && item.deadline.value != "" && item.deadline.value != "TBD"
  }

  /** The treatment of one timeline item of one year of one conference. */
  function ItemOutcome(conf: Conference, cy: ConfYear, item: TimelineItem, now: int, sel: Selection): Outcome
  {
    if !HasDeadline(item) || item.parsed.None? then Skip
    else
      var d := item.parsed.value;
      var days := DaysUntil(d, now);
      var rank := conf.rank.GetOr("N");
      var sub := conf.sub.GetOr("");
      if !(days >= 0 || sel.showPast) then Skip
      else if !Passes(sel.rankFilter, rank) then Skip
      else if !Passes(sel.subFilter, sub) then Skip
      else if conf.title.None? then Fail("'title'")
      else if cy.year.None? then Fail("'year'")
      else
        Include(DeadlineInfo(conf.title.value, cy.year.value, d, days, cy.timezone.GetOr("UTC"),
                             cy.place.GetOr(""), cy.link.GetOr(""), rank, sub, item.comment.GetOr("")))
  }

  /** An item is listed exactly when it has a parseable deadline that is not past (or past ones are shown), passes both filters, and its conference has a title and its year a year. */
  lemma ItemIncluded(conf: Conference, cy: ConfYear, item: TimelineItem, now: int, sel: Selection)
    ensures ItemOutcome(conf, cy, item, now, sel).Include? <==>
      && HasDeadline(item) && item.parsed.Some?
      && (item.parsed.value >= now || sel.showPast)
      && Passes(sel.rankFilter, conf.rank.GetOr("N"))
      && Passes(sel.subFilter, conf.sub.GetOr(""))
      && conf.title.Some? && cy.year.Some?
    ensures ItemOutcome(conf, cy, item, now, sel).Include? ==>
      var info := ItemOutcome(conf, cy, item, now, sel).info;
      info.deadline == item.parsed.value && info.rank == conf.rank.GetOr("N") && info.title == conf.title.value
    ensures ItemOutcome(conf, cy, item, now, sel).Fail? ==> conf.title.None? || cy.year.None?
  {
  }

  /** The outcomes of a year's items, in order. */
  function ItemOutcomes(conf: Conference, cy: ConfYear, items: seq<TimelineItem>, now: int, sel: Selection): seq<Outcome>
  {
    if items == [] then []
    else
      var n := |items| - 1;
      ItemOutcomes(conf, cy, items[..n], now, sel) + [ItemOutcome(conf, cy, items[n], now, sel)]
  }

  /** The outcomes of a conference's years, in order. */
  function YearOutcomes(conf: Conference, years: seq<ConfYear>, now: int, sel: Selection): seq<Outcome>
  {
    if years == [] then []
    else
      var n := |years| - 1;
      YearOutcomes(conf, years[..n], now, sel) + ItemOutcomes(conf, years[n], years[n].timeline, now, sel)
  }

  /** The outcomes of all conferences, in the order the selection visits them. */
  function ConfOutcomes(confs: seq<Conference>, now: int, sel: Selection): seq<Outcome>
  {
    if confs == [] then []
    else
      var n := |confs| - 1;
      ConfOutcomes(confs[..n], now, sel) + YearOutcomes(confs[n], confs[n].confs, now, sel)
  }

  /** The listed deadlines among some outcomes, in order. */
  function Includes(outs: seq<Outcome>): (r: seq<DeadlineInfo>)
    ensures |r| <= |outs|
  {
    if outs == [] then []
    else
      var n := |outs| - 1;
      Includes(outs[..n]) + (if outs[n].Include? then [outs[n].info] else [])
  }

  predicate HasFail(outs: seq<Outcome>)
  {
    exists k :: 0 <= k < |outs| && outs[k].Fail?
  }

  /** The listed deadlines are exactly the included outcomes. */
  lemma {:induction false} IncludesMembers(outs: seq<Outcome>)
    ensures forall x :: x in Includes(outs) <==> Include(x) in outs
  {
    if outs != [] {
      var n := |outs| - 1;
      IncludesMembers(outs[..n]);
      assert outs == outs[..n] + [outs[n]];
    }
  }

  /** Python's `s[:n]`: the first `n` elements, or all but the last `-n` when `n` is negative. */
  function Take<T>(s: seq<T>, n: int): (r: seq<T>)
    ensures |r| <= |s| && r == s[..|r|]
    ensures n >= 0 ==> |r| == Min(n, |s|)
    ensures n < 0 ==> |r| == Max(0, |s| + n)
  {
    if n >= 0 then (if n <= |s| then s[..n] else s)
    else if |s| + n > 0 then s[..|s| + n]
    else []
  }

  /** Deadlines in ascending order. */
  predicate SortedByDeadline(s: seq<DeadlineInfo>)
  {
    forall i, j :: 0 <= i < j < |s| ==> s[i].deadline <= s[j].deadline
  }

  /** Inserts `x` into a sorted list after every element with a deadline not later than its own. */
  function Insert(x: DeadlineInfo, s: seq<DeadlineInfo>): seq<DeadlineInfo>
  {
    if s == [] then [x]
    else if x.deadline < s[0].deadline then [x] + s
    else [s[0]] + Insert(x, s[1..])
  }

  /** `list.sort(key=deadline)`: a stable sort by deadline. */
  function SortByDeadline(s: seq<DeadlineInfo>): seq<DeadlineInfo>
  {
    if s == [] then []
    else Insert(s[|s| - 1], SortByDeadline(s[..|s| - 1]))
  }

  /** Insertion adds exactly one element. */
  lemma {:induction false} InsertPerm(x: DeadlineInfo, s: seq<DeadlineInfo>)
    ensures multiset(Insert(x, s)) == multiset(s) + multiset{x}
    ensures |Insert(x, s)| == |s| + 1
  {
    if s != [] && x.deadline >= s[0].deadline {
      InsertPerm(x, s[1..]);
      assert s == [s[0]] + s[1..];
    }
  }

  /** A lower bound of the element and of the list bounds the list after insertion. */
  lemma {:induction false} InsertBound(x: DeadlineInfo, s: seq<DeadlineInfo>, lo: int)
    requires lo <= x.deadline && forall k :: 0 <= k < |s| ==> lo <= s[k].deadline
    ensures forall k :: 0 <= k < |Insert(x, s)| ==> lo <= Insert(x, s)[k].deadline
  {
    if s != [] && x.deadline >= s[0].deadline {
      InsertBound(x, s[1..], lo);
    }
  }

  lemma {:induction false} InsertSorted(x: DeadlineInfo, s: seq<DeadlineInfo>)
    requires SortedByDeadline(s)
    ensures SortedByDeadline(Insert(x, s))
  {
    if s != [] && x.deadline >= s[0].deadline {
      InsertSorted(x, s[1..]);
      InsertBound(x, s[1..], s[0].deadline);
    }
  }

  lemma InsertFacts(x: DeadlineInfo, s: seq<DeadlineInfo>)
    requires SortedByDeadline(s)
    ensures SortedByDeadline(Insert(x, s))
    ensures multiset(Insert(x, s)) == multiset(s) + multiset{x}
    ensures |Insert(x, s)| == |s| + 1
  {
    InsertPerm(x, s);
    InsertSorted(x, s);
  }

  lemma MultisetSnoc(s: seq<DeadlineInfo>)
    requires s != []
    ensures multiset(s) == multiset(s[..|s| - 1]) + multiset{s[|s| - 1]}
  {
    assert s == s[..|s| - 1] + [s[|s| - 1]];
  }

  /** The sort orders by deadline and only rearranges its input. */
  lemma {:induction false} SortFacts(s: seq<DeadlineInfo>)
    ensures SortedByDeadline(SortByDeadline(s))
    ensures multiset(SortByDeadline(s)) == multiset(s)
    ensures |SortByDeadline(s)| == |s|
  {
    if s != [] {
      var n := |s| - 1;
      SortFacts(s[..n]);
      InsertFacts(s[n], SortByDeadline(s[..n]));
      MultisetSnoc(s);
    }
  }

  /** The elements of `s` with deadline `d`, in order. */
  function WithDeadline(s: seq<DeadlineInfo>, d: int): seq<DeadlineInfo>
  {
    if s == [] then []
    else
      var n := |s| - 1;
      WithDeadline(s[..n], d) + (if s[n].deadline == d then [s[n]] else [])
  }

  lemma {:induction false} WithDeadlineCons(x: DeadlineInfo, s: seq<DeadlineInfo>, d: int)
    ensures WithDeadline([x] + s, d) == (if x.deadline == d then [x] else []) + WithDeadline(s, d)
  {
    if s != [] {
      var n := |s| - 1;
      assert ([x] + s)[..n + 1] == [x] + s[..n];
      WithDeadlineCons(x, s[..n], d);
    } else {
      assert [x] + s == [x];
      assert [x][..0] == [];
    }
  }

  lemma {:induction false} WithDeadlineNone(s: seq<DeadlineInfo>, d: int)
    requires forall k :: 0 <= k < |s| ==> s[k].deadline != d
    ensures WithDeadline(s, d) == []
  {
    if s != [] {
      WithDeadlineNone(s[..|s| - 1], d);
    }
  }

  lemma SortedTail(s: seq<DeadlineInfo>)
    requires SortedByDeadline(s) && s != []
    ensures SortedByDeadline(s[1..])
  {
  }

  /** Nothing in a sorted list that starts after `d` has deadline `d`. */
  lemma SortedAfter(s: seq<DeadlineInfo>, d: int)
    requires SortedByDeadline(s) && s != [] && d < s[0].deadline
    ensures WithDeadline(s, d) == []
  {
    forall k | 0 <= k < |s|
      ensures s[k].deadline != d
    {
      if k > 0 {
        assert s[0].deadline <= s[k].deadline;
      }
    }
    WithDeadlineNone(s, d);
  }

  /** Inserting into a sorted list puts the new element after the ones with the same deadline. */
  lemma {:induction false} InsertStable(x: DeadlineInfo, s: seq<DeadlineInfo>, d: int)
    requires SortedByDeadline(s)
    ensures WithDeadline(Insert(x, s), d) == WithDeadline(s, d) + (if x.deadline == d then [x] else [])
  {
    if s == [] {
      assert WithDeadline([x], d) == WithDeadline([x][..0], d) + (if x.deadline == d then [x] else []);
      assert [x][..0] == [];
    } else if x.deadline < s[0].deadline {
      InsertStableFront(x, s, d);
    } else {
      SortedTail(s);
      InsertStable(x, s[1..], d);
      InsertStableBehind(x, s, d);
    }
  }

  /** An element that goes in front of a sorted list comes after its (absent) equal deadlines. */
  lemma InsertStableFront(x: DeadlineInfo, s: seq<DeadlineInfo>, d: int)
    requires SortedByDeadline(s) && s != [] && x.deadline < s[0].deadline
    ensures WithDeadline(Insert(x, s), d) == WithDeadline(s, d) + (if x.deadline == d then [x] else [])
  {
    assert Insert(x, s) == [x] + s;
    WithDeadlineCons(x, s, d);
    if x.deadline == d {
      SortedAfter(s, d);
    }
  }

  /** Stability of inserting behind the head follows from stability of inserting into the tail. */
  lemma InsertStableBehind(x: DeadlineInfo, s: seq<DeadlineInfo>, d: int)
    requires s != [] && !(x.deadline < s[0].deadline)
    requires WithDeadline(Insert(x, s[1..]), d) == WithDeadline(s[1..], d) + (if x.deadline == d then [x] else [])
    ensures WithDeadline(Insert(x, s), d) == WithDeadline(s, d) + (if x.deadline == d then [x] else [])
  {
    var t := s[1..];
    assert Insert(x, s) == [s[0]] + Insert(x, t);
    ConsKeepsTail(s[0], Insert(x, t), t, d, if x.deadline == d then [x] else []);
    assert [s[0]] + t == s;
  }

  lemma SeqAssoc(a: seq<DeadlineInfo>, b: seq<DeadlineInfo>, c: seq<DeadlineInfo>)
    ensures a + (b + c) == (a + b) + c
  {
  }

  /** Putting the same element in front of two lists keeps the relation between their `d`-deadline elements. */
  lemma ConsKeepsTail(y: DeadlineInfo, u: seq<DeadlineInfo>, v: seq<DeadlineInfo>, d: int, tail: seq<DeadlineInfo>)
    requires WithDeadline(u, d) == WithDeadline(v, d) + tail
    ensures WithDeadline([y] + u, d) == WithDeadline([y] + v, d) + tail
  {
    var head := if y.deadline == d then [y] else [];
    var wv := WithDeadline(v, d);
    WithDeadlineCons(y, u, d);
    WithDeadlineCons(y, v, d);
    calc {
      WithDeadline([y] + u, d);
      head + (wv + tail);
      { SeqAssoc(head, wv, tail); }
      (head + wv) + tail;
      WithDeadline([y] + v, d) + tail;
    }
  }

  /** Stability: the deadlines sharing one date keep their original order. */
  lemma {:induction false} SortStable(s: seq<DeadlineInfo>, d: int)
    ensures WithDeadline(SortByDeadline(s), d) == WithDeadline(s, d)
  {
    if s != [] {
      var n := |s| - 1;
      SortStable(s[..n], d);
      SortFacts(s[..n]);
      InsertStable(s[n], SortByDeadline(s[..n]), d);
    }
  }

  /** The selection: nothing when a listed item lacks its title or year, otherwise the listed deadlines soonest first, cut to the configured number. */
  function PaperDeadlines(confs: seq<Conference>, now: int, sel: Selection): seq<DeadlineInfo>
  {
    var outs := ConfOutcomes(confs, now, sel);
    if HasFail(outs) then [] else Take(SortByDeadline(Includes(outs)), sel.maxDeadlines)
  }

  /** The list shown is sorted by deadline, no longer than the configured number, and a prefix of all qualifying deadlines in that order. */
  lemma PaperDeadlinesShape(confs: seq<Conference>, now: int, sel: Selection)
    ensures var r := PaperDeadlines(confs, now, sel);
      && SortedByDeadline(r)
      && (sel.maxDeadlines >= 0 ==> |r| <= sel.maxDeadlines)
      && (!HasFail(ConfOutcomes(confs, now, sel)) ==>
            r == SortByDeadline(Includes(ConfOutcomes(confs, now, sel)))[..|r|])
      && (forall x :: x in r ==> Include(x) in ConfOutcomes(confs, now, sel))
      && (HasFail(ConfOutcomes(confs, now, sel)) ==> r == [])
      && (!HasFail(ConfOutcomes(confs, now, sel)) && sel.maxDeadlines >= 0 ==>
            |r| == Min(sel.maxDeadlines, |Includes(ConfOutcomes(confs, now, sel))|))
      && (!HasFail(ConfOutcomes(confs, now, sel)) && sel.maxDeadlines < 0 ==>
            |r| == Max(0, |Includes(ConfOutcomes(confs, now, sel))| + sel.maxDeadlines))
  {
    var outs := ConfOutcomes(confs, now, sel);
    var all := Includes(outs);
    SortFacts(all);
    IncludesMembers(outs);
    if !HasFail(outs) {
      var r := PaperDeadlines(confs, now, sel);
      var sorted := SortByDeadline(all);
      forall x | x in r ensures Include(x) in outs {
        assert x in sorted;
        assert x in multiset(sorted);
      }
    }
  }

  lemma IncludesSnoc(outs: seq<Outcome>, o: Outcome)
    ensures Includes(outs + [o]) == Includes(outs) + (if o.Include? then [o.info] else [])
    ensures HasFail(outs + [o]) <==> HasFail(outs) || o.Fail?
  {
    assert (outs + [o])[..|outs|] == outs;
    if HasFail(outs) {
      var k :| 0 <= k < |outs| && outs[k].Fail?;
      assert (outs + [o])[k] == outs[k];
    }
    if o.Fail? {
      assert (outs + [o])[|outs|] == o;
    }
  }

  predicate IsPrefix(a: seq<Outcome>, b: seq<Outcome>)
  {
    |a| <= |b| && b[..|a|] == a
  }

  lemma PrefixExtend(a: seq<Outcome>, p: seq<Outcome>, q: seq<Outcome>)
    requires IsPrefix(p, q)
    ensures IsPrefix(a + p, a + q)
  {
    assert (a + q)[..|a + p|] == a + q[..|p|];
  }

  lemma {:induction false} ItemsPrefix(conf: Conference, cy: ConfYear, items: seq<TimelineItem>, k: int, now: int, sel: Selection)
    requires 0 <= k <= |items|
    ensures IsPrefix(ItemOutcomes(conf, cy, items[..k], now, sel), ItemOutcomes(conf, cy, items, now, sel))
  {
    if k < |items| {
      var n := |items| - 1;
      ItemsPrefix(conf, cy, items[..n], k, now, sel);
      assert items[..n][..k] == items[..k];
    } else {
      assert items[..k] == items;
    }
  }

  lemma {:induction false} YearsPrefix(conf: Conference, years: seq<ConfYear>, j: int, now: int, sel: Selection)
    requires 0 <= j <= |years|
    ensures IsPrefix(YearOutcomes(conf, years[..j], now, sel), YearOutcomes(conf, years, now, sel))
  {
    if j < |years| {
      var n := |years| - 1;
      YearsPrefix(conf, years[..n], j, now, sel);
      assert years[..n][..j] == years[..j];
    } else {
      assert years[..j] == years;
    }
  }

  lemma {:induction false} ConfsPrefix(confs: seq<Conference>, i: int, now: int, sel: Selection)
    requires 0 <= i <= |confs|
    ensures IsPrefix(ConfOutcomes(confs[..i], now, sel), ConfOutcomes(confs, now, sel))
  {
    if i < |confs| {
      var n := |confs| - 1;
      ConfsPrefix(confs[..n], i, now, sel);
      assert confs[..n][..i] == confs[..i];
    } else {
      assert confs[..i] == confs;
    }
  }

  lemma PrefixTrans(a: seq<Outcome>, b: seq<Outcome>, c: seq<Outcome>)
    requires IsPrefix(a, b) && IsPrefix(b, c)
    ensures IsPrefix(a, c)
  {
    assert c[..|b|][..|a|] == c[..|a|];
  }

  /** The outcomes up to item `k` of year `j` come first among the outcomes of the conference. */
  lemma YearSoFar(conf: Conference, j: int, k: int, now: int, sel: Selection)
    requires 0 <= j < |conf.confs| && 0 <= k <= |conf.confs[j].timeline|
    ensures IsPrefix(
      YearOutcomes(conf, conf.confs[..j], now, sel) + ItemOutcomes(conf, conf.confs[j], conf.confs[j].timeline[..k], now, sel),
      YearOutcomes(conf, conf.confs, now, sel))
  {
    var cy := conf.confs[j];
    var py := YearOutcomes(conf, conf.confs[..j], now, sel);
    var pi := ItemOutcomes(conf, cy, cy.timeline[..k], now, sel);
    var whole := ItemOutcomes(conf, cy, cy.timeline, now, sel);
    ItemsPrefix(conf, cy, cy.timeline, k, now, sel);
    PrefixExtend(py, pi, whole);
    assert conf.confs[..j + 1][..j] == conf.confs[..j];
    assert YearOutcomes(conf, conf.confs[..j + 1], now, sel) == py + whole;
    YearsPrefix(conf, conf.confs, j + 1, now, sel);
    PrefixTrans(py + pi, py + whole, YearOutcomes(conf, conf.confs, now, sel));
  }

  /** The outcomes up to item `k` of year `j` of conference `i` come first among all outcomes. */
  lemma OutcomesSoFar(confs: seq<Conference>, i: int, j: int, k: int, now: int, sel: Selection)
    requires 0 <= i < |confs| && 0 <= j < |confs[i].confs| && 0 <= k <= |confs[i].confs[j].timeline|
    ensures IsPrefix(
      ConfOutcomes(confs[..i], now, sel) + YearOutcomes(confs[i], confs[i].confs[..j], now, sel)
        + ItemOutcomes(confs[i], confs[i].confs[j], confs[i].confs[j].timeline[..k], now, sel),
      ConfOutcomes(confs, now, sel))
  {
    var conf := confs[i];
    var pc := ConfOutcomes(confs[..i], now, sel);
    var py := YearOutcomes(conf, conf.confs[..j], now, sel);
    var pi := ItemOutcomes(conf, conf.confs[j], conf.confs[j].timeline[..k], now, sel);
    var years := YearOutcomes(conf, conf.confs, now, sel);
    YearSoFar(conf, j, k, now, sel);
    PrefixExtend(pc, py + pi, years);
    assert confs[..i + 1][..i] == confs[..i];
    assert ConfOutcomes(confs[..i + 1], now, sel) == pc + years;
    ConfsPrefix(confs, i + 1, now, sel);
    PrefixTrans(pc + (py + pi), pc + years, ConfOutcomes(confs, now, sel));
    assert pc + py + pi == pc + (py + pi);
  }

  /** A failing outcome among the first ones is a failing outcome of the whole selection. */
  lemma PrefixFails(a: seq<Outcome>, b: seq<Outcome>)
    requires IsPrefix(a, b) && HasFail(a)
    ensures HasFail(b)
  {
    var k :| 0 <= k < |a| && a[k].Fail?;
    assert b[k] == a[k];
  }

  /** One more timeline item adds its own outcome at the end. */
  lemma ItemStep(conf: Conference, cy: ConfYear, items: seq<TimelineItem>, k: int, now: int, sel: Selection, before: seq<Outcome>)
    requires 0 <= k < |items|
    ensures before + ItemOutcomes(conf, cy, items[..k + 1], now, sel)
         == before + ItemOutcomes(conf, cy, items[..k], now, sel) + [ItemOutcome(conf, cy, items[k], now, sel)]
  {
    assert items[..k + 1][..k] == items[..k];
  }

  /** One more conference year adds the outcomes of its whole timeline. */
  lemma YearStep(conf: Conference, years: seq<ConfYear>, j: int, now: int, sel: Selection, before: seq<Outcome>)
    requires 0 <= j < |years|
    ensures before + YearOutcomes(conf, years[..j + 1], now, sel)
         == before + YearOutcomes(conf, years[..j], now, sel) + ItemOutcomes(conf, years[j], years[j].timeline[..|years[j].timeline|], now, sel)
  {
    assert years[..j + 1][..j] == years[..j];
    assert years[j].timeline[..|years[j].timeline|] == years[j].timeline;
  }

  /** One more conference adds the outcomes of all its years. */
  lemma ConfStep(confs: seq<Conference>, i: int, now: int, sel: Selection)
    requires 0 <= i < |confs|
    ensures ConfOutcomes(confs[..i + 1], now, sel)
         == ConfOutcomes(confs[..i], now, sel) + YearOutcomes(confs[i], confs[i].confs[..|confs[i].confs|], now, sel)
  {
    assert confs[..i + 1][..i] == confs[..i];
    assert confs[i].confs[..|confs[i].confs|] == confs[i].confs;
  }

  /** `get_paper_deadlines` on the downloaded conferences: the three nested loops, then the sort and the cut. */
  method GetPaperDeadlines(confs: seq<Conference>, now: int, sel: Selection) returns (r: seq<DeadlineInfo>)
    ensures r == PaperDeadlines(confs, now, sel)
  {
    if confs == [] {
      return [];
    }
    var upcoming: seq<DeadlineInfo> := [];
    ghost var seen: seq<Outcome> := [];
    var i := 0;
    while i < |confs|
      invariant 0 <= i <= |confs|
      invariant seen == ConfOutcomes(confs[..i], now, sel)
      invariant upcoming == Includes(seen) && !HasFail(seen)
    {
      var conf := confs[i];
      ghost var before := seen;
      var j := 0;
      while j < |conf.confs|
        invariant 0 <= j <= |conf.confs|
        invariant seen == before + YearOutcomes(conf, conf.confs[..j], now, sel)
        invariant upcoming == Includes(seen) && !HasFail(seen)
      {
        var cy := conf.confs[j];
        ghost var beforeYear := seen;
        var k := 0;
        while k < |cy.timeline|
          invariant 0 <= k <= |cy.timeline|
          invariant seen == beforeYear + ItemOutcomes(conf, cy, cy.timeline[..k], now, sel)
          invariant upcoming == Includes(seen) && !HasFail(seen)
        {
          var o := ItemOutcome(conf, cy, cy.timeline[k], now, sel);
          IncludesSnoc(seen, o);
          ItemStep(conf, cy, cy.timeline, k, now, sel, beforeYear);
          if o.Fail? {
            OutcomesSoFar(confs, i, j, k + 1, now, sel);
            PrefixFails(seen + [o], ConfOutcomes(confs, now, sel));
            return [];
          }
          if o.Include? {
            upcoming := upcoming + [o.info];
          }
          seen := seen + [o];
          k := k + 1;
        }
        YearStep(conf, conf.confs, j, now, sel, before);
        j := j + 1;
      }
      ConfStep(confs, i, now, sel);
      i := i + 1;
    }
    assert confs[..i] == confs;
    upcoming := SortByDeadline(upcoming);
    r := Take(upcoming, sel.maxDeadlines);
  }

  /** The display label of a CCF rank; a rank without a label is shown as it is. */
  function FormatCcfRank(rank: string): (r: string)
    ensures rank == "A" ==> r == "CCF-A"
    ensures rank == "B" ==> r == "CCF-B"
    ensures rank == "C" ==> r == "CCF-C"
    ensures rank == "N" ==> r == "Non CCF"
    ensures r == rank <==> rank !in ["A", "B", "C", "N"]
  {
    if rank == "A" then "CCF-A"
    else if rank == "B" then "CCF-B"
    else if rank == "C" then "CCF-C"
    else if rank == "N" then "Non CCF"
    else rank
  }

  /** Urgency colours of the countdown. */
  datatype Colour = Red | Orange | Yellow | White

  /** The countdown shown for a deadline: whole days, hours, minutes and seconds left, its colour and its text. */
  datatype Countdown = Countdown(days: int, hours: int, minutes: int, seconds: int, colour: Colour, text: string)

  /** A number below 100 written with at least two digits. */
  function Pad2(n: nat): (r: string)
    requires n < 100
    ensures |r| == 2 && AllDigits(r) && DigitsValue(r) == n
  {
    DigitsRoundTrip(n);
    if n < 10 then
      assert DigitsValue("0" + NatToString(n)) == DigitsValue(NatToString(n)) by {
        assert ("0" + NatToString(n))[..1] == "0";
      }
      "0" + NatToString(n)
    else
      assert NatToString(n) == NatToString(n / 10) + [DigitChar(n % 10)];
      NatToString(n)
  }

  /** The countdown for `total` whole seconds left (the remaining time truncated to seconds). */
  function CountdownOf(total: int): Countdown
  {
    if total <= 0 then Countdown(0, 0, 0, 0, Red, "Expired")
    else
      var days := total / SecondsPerDay;
      var remaining := total % SecondsPerDay;
      var hours := remaining / 3600;
      var minutes := remaining % 3600 / 60;
      var seconds := remaining % 3600 % 60;
      var colour := if days == 0 then Red else if days <= 3 then Orange else if days <= 7 then Yellow else White;
      Countdown(days, hours, minutes, seconds, colour,
                NatToString(days) + ("d " + Pad2(hours) + "h " + Pad2(minutes) + "m " + Pad2(seconds) + "s"))
  }

  /** A deadline that has passed shows zeros, `Expired` and red. */
  lemma CountdownExpired(total: int)
    requires total <= 0
    ensures CountdownOf(total) == Countdown(0, 0, 0, 0, Red, "Expired")
  {
  }

  /** For time still left, the parts add back up to the total and each is within its unit. */
  lemma CountdownParts(total: int)
    requires total > 0
    ensures var c := CountdownOf(total);
      && c.days * 86400 + c.hours * 3600 + c.minutes * 60 + c.seconds == total
      && c.days >= 0 && 0 <= c.hours < 24 && 0 <= c.minutes < 60 && 0 <= c.seconds < 60
  {
    var c := CountdownOf(total);
    var remaining := total % SecondsPerDay;
    assert total == c.days * 86400 + remaining;
    assert remaining == c.hours * 3600 + remaining % 3600;
    assert remaining % 3600 == c.minutes * 60 + c.seconds;
  }

  /** The split into days, hours, minutes and seconds is the only one with each part within its unit. */
  lemma CountdownUnique(total: int, d: int, h: int, m: int, sec: int)
    requires total > 0
    requires d >= 0 && 0 <= h < 24 && 0 <= m < 60 && 0 <= sec < 60
    requires d * 86400 + h * 3600 + m * 60 + sec == total
    ensures var c := CountdownOf(total); c.days == d && c.hours == h && c.minutes == m && c.seconds == sec
  {
    CountdownParts(total);
    var c := CountdownOf(total);
    var r1, r2 := h * 3600 + m * 60 + sec, c.hours * 3600 + c.minutes * 60 + c.seconds;
    assert 0 <= r1 < 86400 && 0 <= r2 < 86400;
    assert d * 86400 + r1 == c.days * 86400 + r2;
    DivModUnique(total, 86400, d, r1, c.days, r2);
    DivModUnique(r1, 3600, h, m * 60 + sec, c.hours, c.minutes * 60 + c.seconds);
    DivModUnique(m * 60 + sec, 60, m, sec, c.minutes, c.seconds);
  }

  /** Quotient and remainder by a positive divisor are unique. */
  lemma DivModUnique(n: int, b: int, q1: int, r1: int, q2: int, r2: int)
    requires b > 0 && 0 <= r1 < b && 0 <= r2 < b
    requires n == q1 * b + r1 && n == q2 * b + r2
    ensures q1 == q2 && r1 == r2
  {
    var d := q2 - q1;
    assert d * b == r1 - r2;
    MultipleBound(d, b);
  }

  /** A non-zero multiple of `b` is at least `b` away from zero. */
  lemma MultipleBound(d: int, b: int)
    requires b > 0
    ensures d >= 1 ==> d * b >= b
    ensures d <= -1 ==> d * b <= -b
  {
    if d >= 1 {
      assert d * b == b + (d - 1) * b;
    } else if d <= -1 {
      assert d * b == -b + (d + 1) * b;
    }
  }

  /** The colour by the time left: red under a day, orange up to four days, yellow up to eight days, white beyond. */
  lemma CountdownColour(total: int)
    requires total > 0
    ensures CountdownOf(total).colour == Red <==> total < 86400
    ensures CountdownOf(total).colour == Orange <==> 86400 <= total < 4 * 86400
    ensures CountdownOf(total).colour == Yellow <==> 4 * 86400 <= total < 8 * 86400
    ensures CountdownOf(total).colour == White <==> total >= 8 * 86400
  {
    var days := total / SecondsPerDay;
    assert days * 86400 <= total < (days + 1) * 86400;
  }

  /** The countdown text: the day count, then hours, minutes and seconds with two digits each. */
  lemma CountdownText(total: int)
    requires total > 0
    ensures var c := CountdownOf(total); var ds := NatToString(c.days);
      && |c.text| == |ds| + 13
      && c.text[..|ds|] == ds && DigitsValue(ds) == c.days
      && c.text[|ds|..] == "d " + Pad2(c.hours) + "h " + Pad2(c.minutes) + "m " + Pad2(c.seconds) + "s"
  {
    var c := CountdownOf(total);
    DigitsRoundTrip(c.days);
    var ds := NatToString(c.days);
    var tail := "d " + Pad2(c.hours) + "h " + Pad2(c.minutes) + "m " + Pad2(c.seconds) + "s";
    AppendParts(ds, tail);
  }

  /** The cache's longest life in seconds. */
  const CacheSeconds := 3600

  /** The conference cache: the last downloaded list, if any, and when it was downloaded. */
  datatype CacheState = CacheState(conferences: Option<seq<Conference>>, timestamp: int)

  /** A lookup at `now` downloads again when nothing is cached or the cached list is more than an hour old. */
  predicate NeedsFetch(s: CacheState, now: int)
  {
    s.conferences.None? || now - s.timestamp > CacheSeconds
  }

  /** One lookup at `now`, where `fetched` is what a download at that moment would give: the new state and the list handed out. */
  function Lookup(s: CacheState, now: int, fetched: Result<seq<Conference>>): (CacheState, seq<Conference>)
  {
    if !NeedsFetch(s, now) then (s, s.conferences.value)
    else match fetched
      case Ok(confs) => (CacheState(Some(confs), now), confs)
      case Err(_) => (s, s.conferences.GetOr([]))
  }

  /** Whether or not it downloads, a lookup hands out what is cached afterwards, or nothing when the cache is still empty. */
  lemma LookupReturnsCache(s: CacheState, now: int, fetched: Result<seq<Conference>>)
    ensures Lookup(s, now, fetched).1 == Lookup(s, now, fetched).0.conferences.GetOr([])
    ensures !NeedsFetch(s, now) ==> Lookup(s, now, fetched).0 == s
    ensures NeedsFetch(s, now) && fetched.Ok? ==> Lookup(s, now, fetched).0 == CacheState(Some(fetched.value), now)
    ensures fetched.Err? ==> Lookup(s, now, fetched).0 == s
  {
  }

  /** After a successful download, any lookup within the next hour hands out that same list without downloading, whatever a download would give. */
  lemma FreshWithinHour(s: CacheState, t: int, confs: seq<Conference>, later: int, fetched: Result<seq<Conference>>)
    requires NeedsFetch(s, t)
    requires t <= later <= t + CacheSeconds
    ensures var s1 := Lookup(s, t, Ok(confs)).0;
      !NeedsFetch(s1, later) && Lookup(s1, later, fetched) == (s1, confs)
  {
  }

  /** A failed download never loses a cached list: the old list is handed out, however stale. */
  lemma StaleOnFailure(s: CacheState, now: int, msg: string)
    requires s.conferences.Some?
    ensures Lookup(s, now, Err(msg)) == (s, s.conferences.value)
  {
  }

  /** The shared conference cache of the paper-deadline widgets. */
  class ConferenceCache {
    var conferences: Option<seq<Conference>>
    var timestamp: int

    /** The state as a value. */
    function State(): CacheState
      reads this
    {
      CacheState(conferences, timestamp)
    }

    /** Nothing cached yet. */
    constructor()
      ensures conferences.None? && timestamp == 0
    {
      conferences := None;
      timestamp := 0;
    }

    /** `_get_cached_conferences` at time `now`; `fetched` is what the download gives if one is made. */
    method Get(now: int, fetched: Result<seq<Conference>>) returns (r: seq<Conference>)
      modifies this
      ensures (State(), r) == Lookup(old(State()), now, fetched)
      ensures !NeedsFetch(old(State()), now) ==> unchanged(this)
    {
      if conferences.None? || now - timestamp > CacheSeconds {
        match fetched {
          case Ok(confs) =>
            conferences := Some(confs);
            timestamp := now;
            return confs;
          case Err(_) =>
            if conferences.Some? {
              return conferences.value;
            }
            return [];
        }
      }
      return conferences.value;
    }
  }

  /** The update-interval choices of the settings dialog. */
  const IntervalChoices: seq<string> := ["15 minutes", "30 minutes", "1 hour", "2 hours", "6 hours"]

  /** The choice shown for a stored interval in seconds; an interval without a choice shows as `1 hour`. */
  function IntervalText(seconds: int): string
  {
    if seconds == 900 then "15 minutes"
    else if seconds == 1800 then "30 minutes"
    else if seconds == 3600 then "1 hour"
    else if seconds == 7200 then "2 hours"
    else if seconds == 21600 then "6 hours"
    else "1 hour"
  }

  /** The seconds saved for a choice; an unknown text saves 3600. */
  function IntervalSeconds(text: string): int
  {
    if text == "15 minutes" then 900
    else if text == "30 minutes" then 1800
    else if text == "1 hour" then 3600
    else if text == "2 hours" then 7200
    else if text == "6 hours" then 21600
    else 3600
  }

  /** A stored interval with a choice survives showing and saving; any other becomes one hour. */
  lemma IntervalRoundTrip(seconds: int)
    ensures IntervalSeconds(IntervalText(seconds)) == (if seconds in {900, 1800, 3600, 7200, 21600} then seconds else 3600)
    ensures IntervalText(seconds) in IntervalChoices
  {
  }

  /** Every choice survives saving and showing again. */
  lemma IntervalChoiceRoundTrip(text: string)
    requires text in IntervalChoices
    ensures IntervalText(IntervalSeconds(text)) == text
  {
  }
}
