/** `deriveSectionSummaries`: grouping the feedback entries of a session into
    one summary per section title, optionally guided by a map of page ranges,
    dropping the sections nobody commented on and ordering the rest by their
    first page and then by their latest entry. */
module FeedbackSections {
  import opened Wrappers
  import opened FeedbackStore

  /** One element of the optional sections map: a titled range of pages. */
  datatype SectionRange = SectionRange(title: string, startPage: int, endPage: int)

  datatype SectionSummary = SectionSummary(
    sectionTitle: string,
    pages: seq<int>,
    entries: seq<FeedbackEntry>,
    latestAt: int)

  predicate StrictlyIncreasing(s: seq<int>) {
    forall i, j :: 0 <= i < j < |s| ==> s[i] < s[j]
  }

  /** `Array.from({ length: hi - lo + 1 }, (_, i) => lo + i)`: the pages from
      `lo` to `hi`, none when `hi < lo`. */
  function PageRange(lo: int, hi: int): (r: seq<int>)
    ensures |r| == if hi < lo then 0 else hi - lo + 1
    ensures forall i :: 0 <= i < |r| ==> r[i] == lo + i
    ensures StrictlyIncreasing(r)
    ensures forall p :: p in r <==> lo <= p <= hi
    decreases hi - lo
  {
    if hi < lo then [] else PageRange(lo, hi - 1) + [hi]
  }

  predicate InRange(s: SectionRange, page: int) {
    s.startPage <= page <= s.endPage
  }

  /** `sectionsMap.find(s => page >= s.startPage && page <= s.endPage)`, as a position. */
  function Covering(sections: seq<SectionRange>, page: int): (r: Option<nat>)
    ensures r.Some? ==> r.value < |sections| && InRange(sections[r.value], page)
    ensures r.Some? ==> forall j :: 0 <= j < r.value ==> !InRange(sections[j], page)
    ensures r.None? <==> forall j :: 0 <= j < |sections| ==> !InRange(sections[j], page)
  {
    if sections == [] then None
    else if InRange(sections[0], page) then Some(0)
    else
      var rest := sections[1..];
      assert forall j :: 0 <= j < |rest| ==> rest[j] == sections[j + 1];
      match Covering(rest, page)
      case None => None
      case Some(i) => Some(i + 1)
  }

  /** The title an entry is filed under: that of the first section whose page
      range holds the entry's page, and the entry's own title when there is no
      sections map or no range holds the page. */
  function TitleFor(sectionsMap: Option<seq<SectionRange>>, e: FeedbackEntry): (t: string)
    ensures (sectionsMap.None? || forall j :: 0 <= j < |sectionsMap.value| ==> !InRange(sectionsMap.value[j], e.pageNumber))
      ==> t == e.sectionTitle
    ensures sectionsMap.Some? ==>
      forall i :: 0 <= i < |sectionsMap.value| && InRange(sectionsMap.value[i], e.pageNumber)
        && (forall j :: 0 <= j < i ==> !InRange(sectionsMap.value[j], e.pageNumber))
        ==> t == sectionsMap.value[i].title
  {
    if sectionsMap.None? then e.sectionTitle
    else
      match Covering(sectionsMap.value, e.pageNumber)
      case None => e.sectionTitle
      case Some(i) => sectionsMap.value[i].title
  }

  /** The entries filed under title `t`, in session order. */
  function WithTitle(sectionsMap: Option<seq<SectionRange>>, entries: seq<FeedbackEntry>, t: string): (w: seq<FeedbackEntry>)
    ensures |w| <= |entries|
    ensures forall e :: e in w <==> e in entries && TitleFor(sectionsMap, e) == t
    ensures forall e :: e in w ==> TitleFor(sectionsMap, e) == t
  {
    if entries == [] then []
    else
      var init := entries[..|entries| - 1];
      var last := entries[|entries| - 1];
      assert entries == init + [last];
      var w := WithTitle(sectionsMap, init, t);
      if TitleFor(sectionsMap, last) == t then w + [last] else w
  }

  /** Filing one more entry adds it to its own title's list and to no other. */
  lemma WithTitleStep(sectionsMap: Option<seq<SectionRange>>, entries: seq<FeedbackEntry>, k: nat, t: string)
    requires k < |entries|
    ensures WithTitle(sectionsMap, entries[..k + 1], t) ==
      if TitleFor(sectionsMap, entries[k]) == t then WithTitle(sectionsMap, entries[..k], t) + [entries[k]]
      else WithTitle(sectionsMap, entries[..k], t)
  {
    assert entries[..k + 1][..k] == entries[..k];
  }

  /** Every entry of the session lies under exactly one title: its own title's
      list holds it as often as the session does, every other list never. */
  lemma {:induction false} EachEntryUnderOneTitle(sectionsMap: Option<seq<SectionRange>>, entries: seq<FeedbackEntry>, e: FeedbackEntry, t: string)
    ensures multiset(WithTitle(sectionsMap, entries, t))[e] ==
      if TitleFor(sectionsMap, e) == t then multiset(entries)[e] else 0
  {
    if entries != [] {
      var init := entries[..|entries| - 1];
      assert entries == init + [entries[|entries| - 1]];
      EachEntryUnderOneTitle(sectionsMap, init, e, t);
    }
  }

  /** `map.set(t, …)` seen through the map's key order: a new key goes last, an
      existing key keeps its place. */
  function AddTitle(order: seq<string>, t: string): (r: seq<string>)
    ensures forall u :: u in r <==> u in order || u == t
    ensures order <= r
  {
    if t in order then order else order + [t]
  }

  predicate Distinct(order: seq<string>) {
    forall i, j :: 0 <= i < j < |order| ==> order[i] != order[j]
  }

  lemma AddTitleDistinct(order: seq<string>, t: string)
    requires Distinct(order)
    ensures Distinct(AddTitle(order, t))
  {
  }

  /** Some section of the list has title `t`. */
  predicate HasTitle(sections: seq<SectionRange>, t: string) {
    exists i :: 0 <= i < |sections| && sections[i].title == t
  }

  /** The key order after pre-filling the map from the sections. */
  function SectionOrder(sections: seq<SectionRange>): (r: seq<string>)
    ensures Distinct(r)
    ensures forall t :: t in r <==> HasTitle(sections, t)
  {
    if sections == [] then []
    else
      var init := sections[..|sections| - 1];
      assert forall i :: 0 <= i < |init| ==> init[i] == sections[i];
      AddTitleDistinct(SectionOrder(init), sections[|sections| - 1].title);
      AddTitle(SectionOrder(init), sections[|sections| - 1].title)
  }

  /** The key order after filing `entries`, starting from `order`. */
  function EntryOrder(sectionsMap: Option<seq<SectionRange>>, order: seq<string>, entries: seq<FeedbackEntry>): (r: seq<string>)
    requires Distinct(order)
    ensures Distinct(r)
    ensures forall t :: t in r <==> t in order || WithTitle(sectionsMap, entries, t) != []
  {
    if entries == [] then order
    else
      var init := entries[..|entries| - 1];
      var last := entries[|entries| - 1];
      assert entries == init + [last];
      var o := EntryOrder(sectionsMap, order, init);
      AddTitleDistinct(o, TitleFor(sectionsMap, last));
      assert forall t :: WithTitle(sectionsMap, entries, t) != [] <==>
        WithTitle(sectionsMap, init, t) != [] || TitleFor(sectionsMap, last) == t;
      AddTitle(o, TitleFor(sectionsMap, last))
  }

  /** The order in which `Array.from(map.values())` lists the summaries. */
  function InsertionOrder(sectionsMap: Option<seq<SectionRange>>, entries: seq<FeedbackEntry>): (r: seq<string>)
    ensures Distinct(r)
    ensures forall t :: t in r <==>
      HasTitle(sectionsMap.GetOr([]), t) || WithTitle(sectionsMap, entries, t) != []
  {
    EntryOrder(sectionsMap, SectionOrder(sectionsMap.GetOr([])), entries)
  }

  /** The section whose pre-filled summary survives under title `t`: the last
      with that title, since a later `map.set` overwrites an earlier one. */
  function LastWithTitle(sections: seq<SectionRange>, t: string): (r: Option<SectionRange>)
    ensures r.None? <==> !HasTitle(sections, t)
    ensures r.Some? ==> r.value.title == t
  {
    if sections == [] then None
    else
      var last := sections[|sections| - 1];
      var init := sections[..|sections| - 1];
      assert forall i :: 0 <= i < |init| ==> init[i] == sections[i];
      if last.title == t then Some(last) else LastWithTitle(init, t)
  }

  /** The position of `t` in `order`, or `|order|` when it is not there. */
  function Rank(order: seq<string>, t: string): (k: nat)
    ensures k <= |order|
    ensures k < |order| <==> t in order
    ensures k < |order| ==> order[k] == t && t !in order[..k]
  {
    if order == [] then 0
    else if order[0] == t then 0
    else
      var k := Rank(order[1..], t) + 1;
      assert k < |order| ==> order[..k] == [order[0]] + order[1..][..k - 1];
      k
  }

  lemma RankOfDistinct(order: seq<string>, j: nat)
    requires Distinct(order) && j < |order|
    ensures Rank(order, order[j]) == j
  {
  }

  /** What a summary must hold for title `t`, given the section that pre-filled
      it (if any) and the entries filed under `t`: those entries in order, the
      pages of the range and of the entries, sorted and without repeats, and the
      latest creation time (starting from 0 for a pre-filled summary). */
  ghost predicate Summarizes(g: SectionSummary, t: string, prefill: Option<SectionRange>, filed: seq<FeedbackEntry>) {
    && g.sectionTitle == t
    && g.entries == filed
    && StrictlyIncreasing(g.pages)
    && (forall p :: p in g.pages <==> (prefill.Some? && InRange(prefill.value, p)) || p in PageSet(filed))
    && g.latestAt == SummaryLatest(prefill, filed)
    && (prefill.None? ==> filed != [])
  }

  /** The `latestAt` a summary ends with: `Math.max` over the creation times,
      starting from 0 when the summary was pre-filled and from the first entry
      otherwise. */
  function SummaryLatest(prefill: Option<SectionRange>, filed: seq<FeedbackEntry>): (m: int)
    ensures prefill.None? && filed != [] ==> exists e :: e in filed && e.createdAt == m
    ensures prefill.Some? ==> m == 0 || exists e :: e in filed && e.createdAt == m
    ensures forall e :: e in filed ==> e.createdAt <= m
    ensures prefill.Some? ==> m >= 0
  {
    if prefill.Some? || filed == [] then MaxCreatedAt(0, filed)
    else MaxCreatedAt(filed[0].createdAt, filed)
  }

  /** `existing.pages.push(p); existing.pages.sort((a, b) => a - b)` on a sorted
      list of pages: `p` goes before the first larger page. */
  function InsertPage(pages: seq<int>, p: int): seq<int> {
    if pages == [] || p < pages[0] then [p] + pages else [pages[0]] + InsertPage(pages[1..], p)
  }

  /** Adding a page to a list of pages adds exactly that page. */
  lemma {:induction false} InsertPageMembers(pages: seq<int>, p: int)
    ensures multiset(InsertPage(pages, p)) == multiset(pages + [p])
    ensures forall q :: q in InsertPage(pages, p) <==> q in pages || q == p
  {
    if pages == [] || p < pages[0] {
    } else {
      assert pages == [pages[0]] + pages[1..];
      InsertPageMembers(pages[1..], p);
    }
  }

  /** Adding a page not yet listed to a sorted list of pages keeps it sorted
      and without repeats. */
  lemma {:induction false} InsertPageSorted(pages: seq<int>, p: int)
    requires StrictlyIncreasing(pages) && p !in pages
    ensures StrictlyIncreasing(InsertPage(pages, p))
  {
    if pages == [] || p < pages[0] {
      forall q | q in pages ensures p < q {
        var i :| 0 <= i < |pages| && pages[i] == q;
        assert i == 0 || pages[0] < pages[i];
      }
      SortedCons(p, pages);
    } else {
      var head := pages[0];
      var tail := pages[1..];
      assert pages == [head] + tail;
      forall i, j | 0 <= i < j < |tail| ensures tail[i] < tail[j] {
        assert tail[i] == pages[i + 1] && tail[j] == pages[j + 1];
      }
      InsertPageSorted(tail, p);
      InsertPageMembers(tail, p);
      var rest := InsertPage(tail, p);
      forall q | q in rest ensures head < q {
        if q != p {
          var i :| 0 <= i < |tail| && tail[i] == q;
          assert tail[i] == pages[i + 1];
        }
      }
      SortedCons(head, rest);
    }
  }

  lemma SortedCons(head: int, rest: seq<int>)
    requires StrictlyIncreasing(rest) && forall q :: q in rest ==> head < q
    ensures StrictlyIncreasing([head] + rest)
  {
    var r := [head] + rest;
    forall i, j | 0 <= i < j < |r| ensures r[i] < r[j] {
      assert r[j] == rest[j - 1] && rest[j - 1] in rest;
      if i > 0 { assert r[i] == rest[i - 1]; }
    }
  }

  /** `Math.min(...pages)`, `None` standing for the `Infinity` of an empty list. */
  function MinPage(pages: seq<int>): (m: Option<int>)
    ensures m.None? <==> pages == []
    ensures m.Some? ==> m.value in pages && forall q :: q in pages ==> m.value <= q
  {
    if pages == [] then None
    else
      match MinPage(pages[1..])
      case None => Some(pages[0])
      case Some(m) =>
        assert forall q :: q in pages ==> q == pages[0] || q in pages[1..];
        Some(if pages[0] <= m then pages[0] else m)
  }

  /** `a - b < 0` for two first pages, `Infinity` being larger than any page. */
  predicate PageLess(a: Option<int>, b: Option<int>) {
    a.Some? && (b.None? || a.value < b.value)
  }

  /** The comparator of the final `sort` puts `a` strictly before `b`. */
  predicate Before(a: SectionSummary, b: SectionSummary) {
    if MinPage(a.pages) != MinPage(b.pages) then PageLess(MinPage(a.pages), MinPage(b.pages))
    else a.latestAt < b.latestAt
  }

  /** The comparator returns zero: same first page and same `latestAt`. */
  predicate SameKey(a: SectionSummary, b: SectionSummary) {
    MinPage(a.pages) == MinPage(b.pages) && a.latestAt == b.latestAt
  }

  lemma BeforeOrder(a: SectionSummary, b: SectionSummary, c: SectionSummary)
    ensures !Before(a, a)
    ensures Before(a, b) ==> !Before(b, a)
    ensures !Before(a, b) && !Before(b, a) <==> SameKey(a, b)
    ensures Before(a, b) && !Before(c, b) ==> Before(a, c)
  {
  }

  predicate SortedSummaries(s: seq<SectionSummary>) {
    forall i, j :: 0 <= i < j < |s| ==> !Before(s[j], s[i])
  }

  /** Summaries whose comparator ties keep the map's key order. */
  predicate StableIn(s: seq<SectionSummary>, order: seq<string>) {
    forall i, j :: 0 <= i < j < |s| && SameKey(s[i], s[j]) ==>
      Rank(order, s[i].sectionTitle) < Rank(order, s[j].sectionTitle)
  }

  predicate RankIncreasing(s: seq<SectionSummary>, order: seq<string>) {
    forall i, j :: 0 <= i < j < |s| ==> Rank(order, s[i].sectionTitle) < Rank(order, s[j].sectionTitle)
  }

  /** One step of a stable insertion sort: `x` goes before the first summary
      the comparator puts after it. */
  function InsertSummary(s: seq<SectionSummary>, x: SectionSummary): seq<SectionSummary> {
    if s == [] || Before(x, s[0]) then [x] + s else [s[0]] + InsertSummary(s[1..], x)
  }

  /** A stable sort under the comparator, which is what the engine's
      `Array.prototype.sort` is. */
  function SortSummaries(s: seq<SectionSummary>): seq<SectionSummary> {
    if s == [] then [] else InsertSummary(SortSummaries(s[..|s| - 1]), s[|s| - 1])
  }

  /** Where `InsertSummary` puts `x`: after every summary not after it, before
      the rest. */
  lemma {:induction false} InsertSummarySplit(s: seq<SectionSummary>, x: SectionSummary) returns (k: nat)
    ensures k <= |s| && InsertSummary(s, x) == s[..k] + [x] + s[k..]
    ensures forall i :: 0 <= i < k ==> !Before(x, s[i])
    ensures k < |s| ==> Before(x, s[k])
  {
    if s == [] || Before(x, s[0]) {
      k := 0;
    } else {
      var k' := InsertSummarySplit(s[1..], x);
      k := k' + 1;
      assert s[..k] == [s[0]] + s[1..][..k'];
      assert s[k..] == s[1..][k'..];
      forall i | 0 <= i < k ensures !Before(x, s[i]) {
        if i > 0 { assert s[i] == s[1..][i - 1]; }
      }
    }
  }

  /** Past the insertion point of `x` every summary of a sorted list comes after `x`. */
  lemma InsertAfterTail(s: seq<SectionSummary>, x: SectionSummary, k: nat)
    requires SortedSummaries(s) && k <= |s|
    requires k < |s| ==> Before(x, s[k])
    ensures forall j :: k <= j < |s| ==> Before(x, s[j])
  {
    forall j | k < j < |s| ensures Before(x, s[j]) {
      BeforeOrder(x, s[k], s[j]);
    }
  }

  /** Inserting into a sorted list keeps it sorted. */
  lemma InsertSummarySorted(s: seq<SectionSummary>, x: SectionSummary)
    requires SortedSummaries(s)
    ensures SortedSummaries(InsertSummary(s, x))
  {
    var k := InsertSummarySplit(s, x);
    InsertAfterTail(s, x, k);
    var r := InsertSummary(s, x);
    forall i, j | 0 <= i < j < |r| ensures !Before(r[j], r[i]) {
      if j < k {
        assert r[i] == s[i] && r[j] == s[j];
      } else if j == k {
        assert r[i] == s[i] && r[j] == x;
      } else if i < k {
        assert r[i] == s[i] && r[j] == s[j - 1];
      } else if i == k {
        assert r[i] == x && r[j] == s[j - 1];
        BeforeOrder(x, s[j - 1], x);
      } else {
        assert r[i] == s[i - 1] && r[j] == s[j - 1];
      }
    }
  }

  /** Inserting a summary ranked after all others keeps ties in rank order. */
  lemma InsertSummaryStable(s: seq<SectionSummary>, x: SectionSummary, order: seq<string>)
    requires SortedSummaries(s) && StableIn(s, order)
    requires forall i :: 0 <= i < |s| ==> Rank(order, s[i].sectionTitle) < Rank(order, x.sectionTitle)
    ensures StableIn(InsertSummary(s, x), order)
  {
    var k := InsertSummarySplit(s, x);
    InsertAfterTail(s, x, k);
    var r := InsertSummary(s, x);
    forall i, j | 0 <= i < j < |r| && SameKey(r[i], r[j])
      ensures Rank(order, r[i].sectionTitle) < Rank(order, r[j].sectionTitle)
    {
      InsertStableAt(s, x, order, k, i, j);
    }
  }

  lemma InsertStableAt(s: seq<SectionSummary>, x: SectionSummary, order: seq<string>, k: nat, i: nat, j: nat)
    requires StableIn(s, order)
    requires forall i :: 0 <= i < |s| ==> Rank(order, s[i].sectionTitle) < Rank(order, x.sectionTitle)
    requires k <= |s| && forall j :: k <= j < |s| ==> Before(x, s[j])
    requires i < j < |s| + 1
    requires var r := s[..k] + [x] + s[k..]; SameKey(r[i], r[j])
    ensures var r := s[..k] + [x] + s[k..];
      Rank(order, r[i].sectionTitle) < Rank(order, r[j].sectionTitle)
  {
    var r := s[..k] + [x] + s[k..];
    if i != k {
      var a := if i < k then i else i - 1;
      assert r[i] == s[a];
    }
    if j != k {
      var b := if j < k then j else j - 1;
      assert r[j] == s[b];
    }
  }

  lemma {:induction false} InsertSummaryMultiset(s: seq<SectionSummary>, x: SectionSummary)
    ensures |InsertSummary(s, x)| == |s| + 1
    ensures multiset(InsertSummary(s, x)) == multiset(s) + multiset{x}
  {
    if s != [] && !Before(x, s[0]) {
      InsertSummaryMultiset(s[1..], x);
      assert s == [s[0]] + s[1..];
    }
  }

  /** A rearrangement of summaries ranked below `x` is still ranked below `x`. */
  lemma RankedBelow(s: seq<SectionSummary>, t: seq<SectionSummary>, x: SectionSummary, order: seq<string>)
    requires multiset(t) == multiset(s)
    requires forall a :: 0 <= a < |s| ==> Rank(order, s[a].sectionTitle) < Rank(order, x.sectionTitle)
    ensures forall i :: 0 <= i < |t| ==> Rank(order, t[i].sectionTitle) < Rank(order, x.sectionTitle)
  {
    forall i | 0 <= i < |t| ensures Rank(order, t[i].sectionTitle) < Rank(order, x.sectionTitle) {
      assert t[i] in multiset(t);
      var a :| 0 <= a < |s| && s[a] == t[i];
    }
  }

  /** The sort keeps the summaries, orders them by the comparator and keeps
      ties in their original order. */
  lemma {:induction false} SortSummariesCorrect(s: seq<SectionSummary>, order: seq<string>)
    requires RankIncreasing(s, order)
    ensures var r := SortSummaries(s);
      && |r| == |s| && multiset(r) == multiset(s)
      && SortedSummaries(r) && StableIn(r, order)
  {
    if s != [] {
      var init := s[..|s| - 1];
      var x := s[|s| - 1];
      assert s == init + [x];
      var sorted := SortSummaries(init);
      assert RankIncreasing(init, order) by {
        assert forall i :: 0 <= i < |init| ==> init[i] == s[i];
      }
      SortSummariesCorrect(init, order);
      forall a | 0 <= a < |init| ensures Rank(order, init[a].sectionTitle) < Rank(order, x.sectionTitle) {
        assert init[a] == s[a];
      }
      RankedBelow(init, sorted, x, order);
      InsertSummarySorted(sorted, x);
      InsertSummaryStable(sorted, x, order);
      InsertSummaryMultiset(sorted, x);
    }
  }

  function Titles(s: seq<SectionSummary>): (r: seq<string>)
    ensures |r| == |s| && forall i :: 0 <= i < |s| ==> r[i] == s[i].sectionTitle
  {
    seq(|s|, i requires 0 <= i < |s| => s[i].sectionTitle)
  }

  /** What the map holds for title `t` once the entries `filed` have been
      filed: the key is there exactly when it is in the key order, which holds
      exactly the titles of the sections and those of the filed entries, and
      the value summarizes the title. */
  ghost predicate TitleOk(groups: map<string, SectionSummary>, order: seq<string>,
                          sectionsMap: Option<seq<SectionRange>>, filed: seq<FeedbackEntry>, t: string)
  {
    && (t in groups <==> t in order)
    && (t in order <==> LastWithTitle(sectionsMap.GetOr([]), t).Some? || WithTitle(sectionsMap, filed, t) != [])
    && (t in groups ==>
          Summarizes(groups[t], t, LastWithTitle(sectionsMap.GetOr([]), t), WithTitle(sectionsMap, filed, t)))
  }

  /** The map and its key order after the entries `filed` have been filed. */
  ghost predicate GroupsFor(groups: map<string, SectionSummary>, order: seq<string>,
                            sectionsMap: Option<seq<SectionRange>>, filed: seq<FeedbackEntry>)
  {
    Distinct(order) && forall t :: TitleOk(groups, order, sectionsMap, filed, t)
  }

  lemma PageSetSnoc(w: seq<FeedbackEntry>, e: FeedbackEntry)
    ensures PageSet(w + [e]) == PageSet(w) + {e.pageNumber}
  {
    assert (w + [e])[..|w|] == w;
  }

  lemma MaxCreatedAtSnoc(init: int, w: seq<FeedbackEntry>, e: FeedbackEntry)
    ensures MaxCreatedAt(init, w + [e]) ==
      if e.createdAt > MaxCreatedAt(init, w) then e.createdAt else MaxCreatedAt(init, w)
  {
    assert (w + [e])[..|w|] == w;
  }

  /** The summary a new title starts with. */
  lemma NewSummary(e: FeedbackEntry, t: string)
    ensures Summarizes(SectionSummary(t, [e.pageNumber], [e], e.createdAt), t, None, [e])
  {
    PageSetSnoc([], e);
    MaxCreatedAtSnoc(e.createdAt, [], e);
    assert [] + [e] == [e];
  }

  /** Filing one more entry into a summary keeps it a summary of its title. */
  lemma ExtendedSummary(g: SectionSummary, t: string, prefill: Option<SectionRange>, filed: seq<FeedbackEntry>,
                        e: FeedbackEntry, pages: seq<int>, latest: int)
    requires Summarizes(g, t, prefill, filed)
    requires pages == if e.pageNumber in g.pages then g.pages else InsertPage(g.pages, e.pageNumber)
    requires latest == if e.createdAt > g.latestAt then e.createdAt else g.latestAt
    ensures Summarizes(SectionSummary(t, pages, g.entries + [e], latest), t, prefill, filed + [e])
  {
    assert StrictlyIncreasing(pages) by {
      if e.pageNumber !in g.pages {
        InsertPageSorted(g.pages, e.pageNumber);
      }
    }
    assert forall q :: q in pages <==> (prefill.Some? && InRange(prefill.value, q)) || q in PageSet(filed + [e]) by {
      if e.pageNumber !in g.pages {
        InsertPageMembers(g.pages, e.pageNumber);
      }
      PageSetSnoc(filed, e);
    }
    assert latest == SummaryLatest(prefill, filed + [e]) by {
      var init := if prefill.Some? || filed == [] then 0 else filed[0].createdAt;
      MaxCreatedAtSnoc(init, filed, e);
      if prefill.None? {
        assert (filed + [e])[0] == filed[0];
      }
    }
  }

  /** Filing an entry under a title not yet in the map starts a new summary. */
  lemma FileNew(groups: map<string, SectionSummary>, order: seq<string>,
                sectionsMap: Option<seq<SectionRange>>, entries: seq<FeedbackEntry>, k: nat)
    requires k < |entries| && GroupsFor(groups, order, sectionsMap, entries[..k])
    requires TitleFor(sectionsMap, entries[k]) !in groups
    ensures var e := entries[k];
      var t := TitleFor(sectionsMap, e);
      GroupsFor(groups[t := SectionSummary(t, [e.pageNumber], [e], e.createdAt)], AddTitle(order, t),
                sectionsMap, entries[..k + 1])
  {
    var e := entries[k];
    var t := TitleFor(sectionsMap, e);
    var ranges := sectionsMap.GetOr([]);
    AddTitleDistinct(order, t);
    var groups' := groups[t := SectionSummary(t, [e.pageNumber], [e], e.createdAt)];
    var order' := AddTitle(order, t);
    var filed := entries[..k + 1];
    forall u ensures TitleOk(groups', order', sectionsMap, filed, u) {
      FileNewAt(groups, order, sectionsMap, entries, k, u);
    }
  }

  lemma FileNewAt(groups: map<string, SectionSummary>, order: seq<string>,
                  sectionsMap: Option<seq<SectionRange>>, entries: seq<FeedbackEntry>, k: nat, u: string)
    requires k < |entries| && GroupsFor(groups, order, sectionsMap, entries[..k])
    requires TitleFor(sectionsMap, entries[k]) !in groups
    ensures var e := entries[k];
      var t := TitleFor(sectionsMap, e);
      TitleOk(groups[t := SectionSummary(t, [e.pageNumber], [e], e.createdAt)], AddTitle(order, t),
              sectionsMap, entries[..k + 1], u)
  {
    var e := entries[k];
    var t := TitleFor(sectionsMap, e);
    var groups' := groups[t := SectionSummary(t, [e.pageNumber], [e], e.createdAt)];
    var order' := AddTitle(order, t);
    assert TitleOk(groups, order, sectionsMap, entries[..k], u);
    WithTitleStep(sectionsMap, entries, k, u);
    if u == t {
      assert TitleOk(groups, order, sectionsMap, entries[..k], t);
      assert WithTitle(sectionsMap, entries[..k], t) == [];
      assert WithTitle(sectionsMap, entries[..k + 1], t) == [e];
      NewSummary(e, t);
      assert groups'[t] == SectionSummary(t, [e.pageNumber], [e], e.createdAt);
      assert LastWithTitle(sectionsMap.GetOr([]), t).None?;
    } else {
      assert WithTitle(sectionsMap, entries[..k + 1], u) == WithTitle(sectionsMap, entries[..k], u);
      assert (u in groups' <==> u in groups) && (u in order' <==> u in order);
      assert u in groups ==> groups'[u] == groups[u];
    }
  }

  /** Filing an entry under a title already in the map extends that summary. */
  lemma FileExisting(groups: map<string, SectionSummary>, order: seq<string>,
                     sectionsMap: Option<seq<SectionRange>>, entries: seq<FeedbackEntry>, k: nat,
                     pages: seq<int>, latest: int)
    requires k < |entries| && GroupsFor(groups, order, sectionsMap, entries[..k])
    requires TitleFor(sectionsMap, entries[k]) in groups
    requires var g := groups[TitleFor(sectionsMap, entries[k])];
      && pages == (if entries[k].pageNumber in g.pages then g.pages else InsertPage(g.pages, entries[k].pageNumber))
      && latest == (if entries[k].createdAt > g.latestAt then entries[k].createdAt else g.latestAt)
    ensures var e := entries[k];
      var t := TitleFor(sectionsMap, e);
      var g := groups[t];
      GroupsFor(groups[t := SectionSummary(t, pages, g.entries + [e], latest)], AddTitle(order, t),
                sectionsMap, entries[..k + 1])
  {
    var e := entries[k];
    var t := TitleFor(sectionsMap, e);
    var g := groups[t];
    var ranges := sectionsMap.GetOr([]);
    var groups' := groups[t := SectionSummary(t, pages, g.entries + [e], latest)];
    var order' := AddTitle(order, t);
    var filed := entries[..k + 1];
    forall u ensures TitleOk(groups', order', sectionsMap, filed, u) {
      FileExistingAt(groups, order, sectionsMap, entries, k, pages, latest, u);
    }
  }

  lemma FileExistingAt(groups: map<string, SectionSummary>, order: seq<string>,
                       sectionsMap: Option<seq<SectionRange>>, entries: seq<FeedbackEntry>, k: nat,
                       pages: seq<int>, latest: int, u: string)
    requires k < |entries| && GroupsFor(groups, order, sectionsMap, entries[..k])
    requires TitleFor(sectionsMap, entries[k]) in groups
    requires var g := groups[TitleFor(sectionsMap, entries[k])];
      && pages == (if entries[k].pageNumber in g.pages then g.pages else InsertPage(g.pages, entries[k].pageNumber))
      && latest == (if entries[k].createdAt > g.latestAt then entries[k].createdAt else g.latestAt)
    ensures var e := entries[k];
      var t := TitleFor(sectionsMap, e);
      var g := groups[t];
      TitleOk(groups[t := SectionSummary(t, pages, g.entries + [e], latest)], AddTitle(order, t),
              sectionsMap, entries[..k + 1], u)
  {
    var e := entries[k];
    var t := TitleFor(sectionsMap, e);
    var g := groups[t];
    var groups' := groups[t := SectionSummary(t, pages, g.entries + [e], latest)];
    var order' := AddTitle(order, t);
    assert TitleOk(groups, order, sectionsMap, entries[..k], u);
    WithTitleStep(sectionsMap, entries, k, u);
    if u == t {
      assert TitleOk(groups, order, sectionsMap, entries[..k], t);
      var w := WithTitle(sectionsMap, entries[..k], t);
      assert WithTitle(sectionsMap, entries[..k + 1], t) == w + [e];
      ExtendedSummary(g, t, LastWithTitle(sectionsMap.GetOr([]), t), w, e, pages, latest);
      assert groups'[t] == SectionSummary(t, pages, g.entries + [e], latest);
      assert t in order';
    } else {
      assert WithTitle(sectionsMap, entries[..k + 1], u) == WithTitle(sectionsMap, entries[..k], u);
      assert (u in groups' <==> u in groups) && (u in order' <==> u in order);
      assert u in groups ==> groups'[u] == groups[u];
    }
  }

  /** The key order after one more entry is filed. */
  lemma EntryOrderStep(sectionsMap: Option<seq<SectionRange>>, order0: seq<string>, entries: seq<FeedbackEntry>, k: nat)
    requires Distinct(order0) && k < |entries|
    ensures EntryOrder(sectionsMap, order0, entries[..k + 1])
      == AddTitle(EntryOrder(sectionsMap, order0, entries[..k]), TitleFor(sectionsMap, entries[k]))
  {
    assert entries[..k + 1][..k] == entries[..k];
  }

  /** The map right after the first pass, one pre-filled summary per title. */
  ghost predicate Prefilled(groups: map<string, SectionSummary>, order: seq<string>, ranges: seq<SectionRange>) {
    && (forall t :: t in groups <==> t in order)
    && forall t :: t in groups ==>
      && LastWithTitle(ranges, t).Some?
      && groups[t].sectionTitle == t && groups[t].entries == [] && groups[t].latestAt == 0
      && groups[t].pages == PageRange(LastWithTitle(ranges, t).value.startPage, LastWithTitle(ranges, t).value.endPage)
  }

  /** The first pass: one empty summary per section of the map, keyed by its
      title; a repeated title overwrites the earlier summary but keeps its place. */
  method PrefillSections(ranges: seq<SectionRange>)
    returns (groups: map<string, SectionSummary>, order: seq<string>)
    ensures order == SectionOrder(ranges)
    ensures Prefilled(groups, order, ranges)
  {
    groups, order := map[], [];
    var i := 0;
    while i < |ranges|
      invariant 0 <= i <= |ranges|
      invariant order == SectionOrder(ranges[..i])
      invariant Prefilled(groups, order, ranges[..i])
    {
      var s := ranges[i];
      PrefillStep(groups, order, ranges, i);
      groups := groups[s.title := SectionSummary(s.title, PageRange(s.startPage, s.endPage), [], 0)];
      order := AddTitle(order, s.title);
      i := i + 1;
    }
    assert ranges[..i] == ranges;
  }

  /** One more section pre-filled: its title takes the summary (over any
      earlier one) and joins the key order unless already there. */
  lemma PrefillStep(groups: map<string, SectionSummary>, order: seq<string>, ranges: seq<SectionRange>, i: nat)
    requires i < |ranges| && order == SectionOrder(ranges[..i]) && Prefilled(groups, order, ranges[..i])
    ensures var s := ranges[i];
      && AddTitle(order, s.title) == SectionOrder(ranges[..i + 1])
      && Prefilled(groups[s.title := SectionSummary(s.title, PageRange(s.startPage, s.endPage), [], 0)],
                   AddTitle(order, s.title), ranges[..i + 1])
  {
    var s := ranges[i];
    var r1 := ranges[..i + 1];
    assert r1[..i] == ranges[..i] && r1[i] == s && |r1| == i + 1;
    assert SectionOrder(r1) == AddTitle(order, s.title);
    var groups' := groups[s.title := SectionSummary(s.title, PageRange(s.startPage, s.endPage), [], 0)];
    var order' := AddTitle(order, s.title);
    forall t | t in groups'
      ensures LastWithTitle(r1, t).Some?
      ensures groups'[t].sectionTitle == t && groups'[t].entries == [] && groups'[t].latestAt == 0
      ensures groups'[t].pages == PageRange(LastWithTitle(r1, t).value.startPage, LastWithTitle(r1, t).value.endPage)
    {
      assert LastWithTitle(r1, t) == if t == s.title then Some(s) else LastWithTitle(ranges[..i], t);
    }
    assert forall t :: t in groups' <==> t in order';
  }

  /** Before any entry is filed, the pre-filled map summarizes every title of the sections. */
  lemma PrefilledGroups(groups: map<string, SectionSummary>, sectionsMap: Option<seq<SectionRange>>)
    requires Prefilled(groups, SectionOrder(sectionsMap.GetOr([])), sectionsMap.GetOr([]))
    ensures GroupsFor(groups, SectionOrder(sectionsMap.GetOr([])), sectionsMap, [])
  {
    forall t ensures TitleOk(groups, SectionOrder(sectionsMap.GetOr([])), sectionsMap, [], t) {
      assert PageSet([]) == {};
    }
  }

  /** The second pass: every entry is filed under its title, extending the
      summary already there or starting a new one. */
  method FileEntries(sectionsMap: Option<seq<SectionRange>>, entries: seq<FeedbackEntry>,
                     groups0: map<string, SectionSummary>, order0: seq<string>)
    returns (groups: map<string, SectionSummary>, order: seq<string>)
    requires GroupsFor(groups0, order0, sectionsMap, [])
    ensures order == EntryOrder(sectionsMap, order0, entries)
    ensures GroupsFor(groups, order, sectionsMap, entries)
  {
    groups, order := groups0, order0;
    var k := 0;
    assert Distinct(order0);
    assert entries[..0] == [] && EntryOrder(sectionsMap, order0, []) == order0;
    while k < |entries|
      invariant 0 <= k <= |entries|
      invariant order == EntryOrder(sectionsMap, order0, entries[..k])
      invariant GroupsFor(groups, order, sectionsMap, entries[..k])
    {
      var e := entries[k];
      var t := TitleFor(sectionsMap, e);
      var next := FileEntry(groups, t, e);
      FileStep(groups, order, order0, sectionsMap, entries, k, next);
      groups := next;
      order := AddTitle(order, t);
      k := k + 1;
    }
    assert entries[..k] == entries;
  }

  /** The map after filing entry `e` under title `t`: a fresh summary for a
      new title, else the existing one with the page added (kept sorted), the
      entry appended and the later of the two times. */
  function FileEntry(groups: map<string, SectionSummary>, t: string, e: FeedbackEntry): map<string, SectionSummary> {
    if t !in groups then groups[t := SectionSummary(t, [e.pageNumber], [e], e.createdAt)]
    else
      var g := groups[t];
      var pages := if e.pageNumber in g.pages then g.pages else InsertPage(g.pages, e.pageNumber);
      var latest := if e.createdAt > g.latestAt then e.createdAt else g.latestAt;
      groups[t := SectionSummary(t, pages, g.entries + [e], latest)]
  }

  /** One pass of the second loop keeps both of its invariants. */
  lemma FileStep(groups: map<string, SectionSummary>, order: seq<string>, order0: seq<string>,
                 sectionsMap: Option<seq<SectionRange>>, entries: seq<FeedbackEntry>, k: nat,
                 next: map<string, SectionSummary>)
    requires k < |entries| && Distinct(order0)
    requires order == EntryOrder(sectionsMap, order0, entries[..k])
    requires GroupsFor(groups, order, sectionsMap, entries[..k])
    requires next == FileEntry(groups, TitleFor(sectionsMap, entries[k]), entries[k])
    ensures AddTitle(order, TitleFor(sectionsMap, entries[k])) == EntryOrder(sectionsMap, order0, entries[..k + 1])
    ensures GroupsFor(next, AddTitle(order, TitleFor(sectionsMap, entries[k])), sectionsMap, entries[..k + 1])
  {
    var e := entries[k];
    var t := TitleFor(sectionsMap, e);
    EntryOrderStep(sectionsMap, order0, entries, k);
    if t !in groups {
      FileNew(groups, order, sectionsMap, entries, k);
    } else {
      var g := groups[t];
      var pages := if e.pageNumber in g.pages then g.pages else InsertPage(g.pages, e.pageNumber);
      var latest := if e.createdAt > g.latestAt then e.createdAt else g.latestAt;
      FileExisting(groups, order, sectionsMap, entries, k, pages, latest);
    }
  }

  /** The per-title facts of `GroupsFor`, spelled out for every title at once. */
  lemma GroupsForFacts(groups: map<string, SectionSummary>, order: seq<string>,
                       sectionsMap: Option<seq<SectionRange>>, filed: seq<FeedbackEntry>)
    requires GroupsFor(groups, order, sectionsMap, filed)
    ensures forall t :: t in groups <==> t in order
    ensures forall t :: t in groups <==> WithTitle(sectionsMap, filed, t) != [] || LastWithTitle(sectionsMap.GetOr([]), t).Some?
    ensures forall t :: t in groups ==>
      Summarizes(groups[t], t, LastWithTitle(sectionsMap.GetOr([]), t), WithTitle(sectionsMap, filed, t))
  {
    forall t
      ensures t in groups <==> t in order
      ensures t in groups <==> WithTitle(sectionsMap, filed, t) != [] || LastWithTitle(sectionsMap.GetOr([]), t).Some?
      ensures t in groups ==>
        Summarizes(groups[t], t, LastWithTitle(sectionsMap.GetOr([]), t), WithTitle(sectionsMap, filed, t))
    {
      assert TitleOk(groups, order, sectionsMap, filed, t);
    }
  }

  /** `filter(s => s.entries.length > 0)` over the map's values in key order. */
  method KeepFilled(groups: map<string, SectionSummary>, order: seq<string>)
    returns (kept: seq<SectionSummary>)
    requires Distinct(order)
    requires forall t :: t in groups <==> t in order
    requires forall t :: t in groups ==> groups[t].sectionTitle == t
    ensures forall a :: 0 <= a < |kept| ==>
      kept[a].sectionTitle in groups && kept[a] == groups[kept[a].sectionTitle] && kept[a].entries != []
    ensures RankIncreasing(kept, order)
    ensures forall t :: t in Titles(kept) <==> t in groups && groups[t].entries != []
  {
    kept := [];
    var j := 0;
    while j < |order|
      invariant 0 <= j <= |order|
      invariant forall a :: 0 <= a < |kept| ==>
        kept[a].sectionTitle in groups && kept[a] == groups[kept[a].sectionTitle] && kept[a].entries != []
      invariant forall a :: 0 <= a < |kept| ==> Rank(order, kept[a].sectionTitle) < j
      invariant RankIncreasing(kept, order)
      invariant forall t :: t in Titles(kept) <==> t in order[..j] && groups[t].entries != []
    {
      var t := order[j];
      RankOfDistinct(order, j);
      assert order[..j + 1] == order[..j] + [t];
      if groups[t].entries != [] {
        assert Titles(kept + [groups[t]]) == Titles(kept) + [t];
        kept := kept + [groups[t]];
      }
      j := j + 1;
    }
    assert order[..j] == order;
  }

  /** Sorting a list whose titles have increasing ranks keeps its elements and
      leaves the titles distinct. */
  lemma SortKeepsSummaries(kept: seq<SectionSummary>, order: seq<string>)
    requires RankIncreasing(kept, order)
    ensures var r := SortSummaries(kept);
      && (forall x :: x in r <==> x in kept)
      && (forall t :: t in Titles(r) <==> t in Titles(kept))
      && Distinct(Titles(r))
      && SortedSummaries(r) && StableIn(r, order)
  {
    SortSummariesCorrect(kept, order);
    var r := SortSummaries(kept);
    assert forall x :: x in r <==> x in multiset(r);
    assert forall x :: x in kept <==> x in multiset(kept);
    SameSummariesSameTitles(r, kept);
    RearrangedTitlesDistinct(r, kept, order);
  }

  lemma SameSummariesSameTitles(r: seq<SectionSummary>, kept: seq<SectionSummary>)
    requires forall x :: x in r <==> x in kept
    ensures forall t :: t in Titles(r) <==> t in Titles(kept)
  {
    forall t ensures t in Titles(r) <==> t in Titles(kept) {
      if t in Titles(r) {
        var a :| 0 <= a < |r| && Titles(r)[a] == t;
        assert r[a] in r;
        var c :| 0 <= c < |kept| && kept[c] == r[a];
        assert Titles(kept)[c] == t;
      }
      if t in Titles(kept) {
        var a :| 0 <= a < |kept| && Titles(kept)[a] == t;
        assert kept[a] in kept;
        var c :| 0 <= c < |r| && r[c] == kept[a];
        assert Titles(r)[c] == t;
      }
    }
  }

  /** A rearrangement of summaries with increasing ranks has distinct titles. */
  lemma RearrangedTitlesDistinct(r: seq<SectionSummary>, kept: seq<SectionSummary>, order: seq<string>)
    requires RankIncreasing(kept, order) && multiset(r) == multiset(kept)
    ensures Distinct(Titles(r))
  {
    forall a, b | 0 <= a < b < |r| ensures r[a].sectionTitle != r[b].sectionTitle {
      assert r[a] in multiset(r) && r[b] in multiset(r);
      var c :| 0 <= c < |kept| && kept[c] == r[a];
      var d :| 0 <= d < |kept| && kept[d] == r[b];
      if c == d {
        assert r == r[..b] + r[b..];
        assert r[a] in r[..b] && r[b] in r[b..];
        assert multiset(r)[r[a]] == multiset(r[..b])[r[a]] + multiset(r[b..])[r[a]];
        CountAtMostOne(kept, order, r[a]);
        assert false;
      } else {
        assert Rank(order, kept[c].sectionTitle) != Rank(order, kept[d].sectionTitle);
      }
    }
  }

  /** Summaries with strictly increasing ranks hold each summary at most once. */
  lemma {:induction false} CountAtMostOne(s: seq<SectionSummary>, order: seq<string>, x: SectionSummary)
    requires RankIncreasing(s, order)
    ensures multiset(s)[x] <= 1
  {
    if s != [] {
      var rest := s[1..];
      assert s == [s[0]] + rest;
      assert RankIncreasing(rest, order) by {
        forall i, j | 0 <= i < j < |rest|
          ensures Rank(order, rest[i].sectionTitle) < Rank(order, rest[j].sectionTitle)
        {
          assert rest[i] == s[i + 1] && rest[j] == s[j + 1];
        }
      }
      CountAtMostOne(rest, order, x);
      if s[0] == x {
        assert x !in rest by {
          forall i | 0 <= i < |rest| ensures rest[i] != x {
            assert rest[i] == s[i + 1];
          }
        }
      }
    }
  }

  /** `deriveSectionSummaries(session, sectionsMap)`: one summary per title
      that has entries, holding exactly the entries filed under it in session
      order, its pages sorted and without repeats, and its latest time;
      ordered by first page, then by latest time, ties keeping the map's key
      order. */
  method DeriveSectionSummaries(session: Session, sectionsMap: Option<seq<SectionRange>>)
    returns (r: seq<SectionSummary>)
    ensures forall i :: 0 <= i < |r| ==> r[i].entries != []
    ensures Distinct(Titles(r))
    ensures forall t :: t in Titles(r) <==> WithTitle(sectionsMap, session.entries, t) != []
    ensures forall e :: e in session.entries ==> TitleFor(sectionsMap, e) in Titles(r)
    ensures forall i :: 0 <= i < |r| ==>
      Summarizes(r[i], r[i].sectionTitle, LastWithTitle(sectionsMap.GetOr([]), r[i].sectionTitle),
                 WithTitle(sectionsMap, session.entries, r[i].sectionTitle))
    ensures SortedSummaries(r)
    ensures StableIn(r, InsertionOrder(sectionsMap, session.entries))
  {
    var groups0, order0 := PrefillSections(sectionsMap.GetOr([]));
    PrefilledGroups(groups0, sectionsMap);
    var groups, order := FileEntries(sectionsMap, session.entries, groups0, order0);
    GroupsForFacts(groups, order, sectionsMap, session.entries);
    var kept := KeepFilled(groups, order);
    r := SortSummaries(kept);
    SortKeepsSummaries(kept, order);
    forall i | 0 <= i < |r|
      ensures r[i].entries != []
      ensures Summarizes(r[i], r[i].sectionTitle, LastWithTitle(sectionsMap.GetOr([]), r[i].sectionTitle),
                         WithTitle(sectionsMap, session.entries, r[i].sectionTitle))
    {
      assert r[i] in r;
    }
    forall e | e in session.entries ensures TitleFor(sectionsMap, e) in Titles(r) {
      assert e in WithTitle(sectionsMap, session.entries, TitleFor(sectionsMap, e));
    }
  }
}
