/*
 * The dashboard news ticker. Two copies of the component exist: one reads a
 * live feed and classifies each story (category, "breaking" flag), the other
 * starts from a fixed list. Both filter the list by a search query and a set
 * of category toggles and step a wrap-around ticker position through the
 * filtered list.
 */
module NewsTicker {
  import opened Wrappers
  import opened Sequences

  datatype Category = Market | Technology | Regulation | Exchange | Trending

  /** A story as the component shows it; `timestamp` is in milliseconds. */
  datatype NewsItem = NewsItem(
    id: string,
    title: string,
    source: string,
    category: Category,
    url: string,
    timestamp: int,
    important: bool)

  // ------------------------------------------------------------ text helpers

  /** ASCII lower-casing of one character; every other character is kept. */
  function LowerChar(c: char): (r: char)
    ensures 'A' <= c <= 'Z' ==> r as int == c as int + 32
    ensures !('A' <= c <= 'Z') ==> r == c
    ensures !('A' <= r <= 'Z')
  {
    if 'A' <= c <= 'Z' then (c as int + 32) as char else c
  }

  function Lower(s: string): (r: string)
    ensures |r| == |s|
    ensures forall i :: 0 <= i < |s| ==> r[i] == LowerChar(s[i])
  {
    seq(|s|, i requires 0 <= i < |s| => LowerChar(s[i]))
  }

  /** Lower-casing twice is lower-casing once. */
  lemma LowerIdempotent(s: string)
    ensures Lower(Lower(s)) == Lower(s)
  {
    assert forall i :: 0 <= i < |s| ==> Lower(Lower(s))[i] == Lower(s)[i];
  }

  /** Lower-casing commutes with taking a slice. */
  lemma LowerSlice(s: string, i: nat, j: nat)
    requires i <= j <= |s|
    ensures Lower(s)[i..j] == Lower(s[i..j])
  {
  }

  predicate StartsWith(s: string, t: string) {
    |t| <= |s| && s[..|t|] == t
  }

  /** `s.includes(t)`: some suffix of `s` starts with `t`; the empty string is in every string. */
  predicate Contains(s: string, t: string)
    decreases |s|
  {
    StartsWith(s, t) || (|s| > 0 && Contains(s[1..], t))
  }

  /** `t` occurs in `s` starting at offset i. */
  predicate OccursAt(s: string, t: string, i: int) {
    0 <= i && i + |t| <= |s| && s[i..i + |t|] == t
  }

  /** Contains agrees with the positional reading: `t` occurs at some offset of `s`. */
  lemma {:induction false} ContainsAt(s: string, t: string)
    ensures Contains(s, t) <==> exists i :: OccursAt(s, t, i)
    decreases |s|
  {
    if StartsWith(s, t) {
      assert OccursAt(s, t, 0);
    }
    if |s| > 0 {
      ContainsAt(s[1..], t);
      if exists i :: OccursAt(s, t, i) {
        var i :| OccursAt(s, t, i);
        if i > 0 {
          assert s[1..][i - 1..i - 1 + |t|] == s[i..i + |t|];
          assert OccursAt(s[1..], t, i - 1);
        }
      }
      if Contains(s[1..], t) {
        var i :| OccursAt(s[1..], t, i);
        assert s[1..][i..i + |t|] == s[i + 1..i + 1 + |t|];
        assert OccursAt(s, t, i + 1);
      }
    } else if exists i :: OccursAt(s, t, i) {
      var i :| OccursAt(s, t, i);
      assert StartsWith(s, t);
    }
  }

  /** An occurrence survives lower-casing both strings. */
  lemma ContainsLower(s: string, t: string)
    requires Contains(s, t)
    ensures Contains(Lower(s), Lower(t))
  {
    ContainsAt(s, t);
    var i :| OccursAt(s, t, i);
    LowerSlice(s, i, i + |t|);
    assert OccursAt(Lower(s), Lower(t), i);
    ContainsAt(Lower(s), Lower(t));
  }

  // ------------------------------------------------------------ feed classification

  /** `s.split(sep)`: the parts between separators, always at least one. */
  function Split(s: string, sep: char): (r: seq<string>)
    ensures |r| >= 1
    ensures forall k :: 0 <= k < |r| ==> sep !in r[k]
    ensures Join(r, sep) == s
    decreases |s|
  {
    if |s| == 0 then [""]
    else if s[0] == sep then
      assert s == [sep] + s[1..];
      [""] + Split(s[1..], sep)
    else
      var rest := Split(s[1..], sep);
      assert s == [s[0]] + s[1..];
      JoinConsFirst(s[0], rest, sep);
      [[s[0]] + rest[0]] + rest[1..]
  }

  function Join(parts: seq<string>, sep: char): string
    requires |parts| >= 1
    decreases |parts|
  {
    if |parts| == 1 then parts[0] else parts[0] + [sep] + Join(parts[1..], sep)
  }

  lemma JoinConsFirst(c: char, parts: seq<string>, sep: char)
    requires |parts| >= 1
    ensures Join([[c] + parts[0]] + parts[1..], sep) == [c] + Join(parts, sep)
  {
    var q := [[c] + parts[0]] + parts[1..];
    assert q[1..] == parts[1..];
  }

  /** The feed's category names and the ticker category each stands for (matched exactly, case-sensitively). */
  const CategoryMapping: map<string, Category> := map[
    "Market" := Market, "Markets" := Market, "Price Analysis" := Market,
    "Trading" := Market, "Business" := Market,
    "Technology" := Technology, "Tech" := Technology, "Blockchain" := Technology,
    "DeFi" := Technology, "NFT" := Technology, "Mining" := Technology,
    "Regulation" := Regulation, "Regulatory" := Regulation, "Legal" := Regulation,
    "Policy" := Regulation, "Government" := Regulation,
    "Exchange" := Exchange, "Exchanges" := Exchange, "CEX" := Exchange, "DEX" := Exchange,
    "Trending" := Trending, "Altcoins" := Trending, "Bitcoin" := Trending, "Ethereum" := Trending
  ]

  /** The mapping of the first part that has one, if any. */
  function FirstMapped(parts: seq<string>): (r: Option<Category>)
    ensures r.None? <==> forall k :: 0 <= k < |parts| ==> parts[k] !in CategoryMapping
    ensures r.Some? ==>
      exists k :: (0 <= k < |parts| && parts[k] in CategoryMapping
        && CategoryMapping[parts[k]] == r.value
        && forall j :: 0 <= j < k ==> parts[j] !in CategoryMapping)
  {
    if |parts| == 0 then None
    else if parts[0] in CategoryMapping then Some(CategoryMapping[parts[0]])
    else
      var r := FirstMapped(parts[1..]);
      if r.Some? then
        var k :| 0 <= k < |parts[1..]| && parts[1..][k] in CategoryMapping
          && CategoryMapping[parts[1..][k]] == r.value
          && forall j :: 0 <= j < k ==> parts[1..][j] !in CategoryMapping;
        assert parts[k + 1] in CategoryMapping && CategoryMapping[parts[k + 1]] == r.value;
        assert forall j :: 0 <= j < k + 1 ==> parts[j] !in CategoryMapping by {
          forall j | 0 <= j < k + 1 ensures parts[j] !in CategoryMapping {
            if j > 0 { assert parts[j] == parts[1..][j - 1]; }
          }
        }
        r
      else r
  }

  /** A feed field that JavaScript treats as true: present and non-empty. */
  predicate Truthy(field: Option<string>) {
    field.Some? && field.value != ""
  }

  /**
   * The category of a feed story: the first mapped '|'-separated category
   * name; tags are consulted only when the category field is missing or
   * empty; Market when nothing maps.
   */
  function Categorize(categories: Option<string>, tags: Option<string>): (r: Category)
    ensures Truthy(categories) && FirstMapped(Split(categories.value, '|')).Some? ==>
      r == FirstMapped(Split(categories.value, '|')).value
    ensures !Truthy(categories) && Truthy(tags) && FirstMapped(Split(tags.value, '|')).Some? ==>
      r == FirstMapped(Split(tags.value, '|')).value
    ensures Truthy(categories) && FirstMapped(Split(categories.value, '|')).None? ==> r == Market
    ensures !Truthy(categories) && !(Truthy(tags) && FirstMapped(Split(tags.value, '|')).Some?) ==> r == Market
  {
    var field := if Truthy(categories) then categories else tags;
    if Truthy(field) then
      match FirstMapped(Split(field.value, '|'))
      case Some(c) => c
      case None => Market
    else Market
  }

  /** A present category field decides alone, even when none of its names maps and the tags would. */
  lemma CategoriesShadowTags(categories: string, tags: Option<string>)
    requires categories != ""
    ensures Categorize(Some(categories), tags) == Categorize(Some(categories), None)
  {
  }

  /** A string without the separator splits into itself alone. */
  lemma {:induction false} SplitWhole(s: string, sep: char)
    requires sep !in s
    ensures Split(s, sep) == [s]
    decreases |s|
  {
    if |s| > 0 {
      SplitWhole(s[1..], sep);
      assert [s[0]] + s[1..] == s;
    }
  }

  /** Splitting at the first separator: the text before it is the first part. */
  lemma {:induction false} SplitFirst(a: string, b: string, sep: char)
    requires sep !in a
    ensures Split(a + [sep] + b, sep) == [a] + Split(b, sep)
    decreases |a|
  {
    var s := a + [sep] + b;
    if |a| == 0 {
      assert s[1..] == b;
    } else {
      assert s[1..] == a[1..] + [sep] + b;
      SplitFirst(a[1..], b, sep);
      assert [a[0]] + a[1..] == a;
    }
  }

  /** When the first category name maps, it decides, whatever follows it and whatever the tags say. */
  lemma FirstCategoryWins(name: string, rest: string, tags: Option<string>)
    requires '|' !in name && name in CategoryMapping
    ensures Categorize(Some(name + "|" + rest), tags) == CategoryMapping[name]
  {
    SplitFirst(name, rest, '|');
  }

  /** A single category name that maps to nothing gives Market, and the tags are not consulted. */
  lemma UnmappedCategoryIsMarket(name: string, tags: Option<string>)
    requires '|' !in name && name != "" && name !in CategoryMapping
    ensures Categorize(Some(name), tags) == Market
  {
    SplitWhole(name, '|');
  }

  /** The words that mark a story as breaking; each is matched case-sensitively. */
  const BreakingWords: seq<string> := ["breaks", "announces", "launches", "record", "surges", "crash"]

  /**
   * A story is breaking when its title contains one of the breaking words
   * as written, or "sec" in any letter case (so also inside "second").
   */
  predicate IsImportant(title: string) {
    (exists k :: 0 <= k < |BreakingWords| && Contains(title, BreakingWords[k]))
    || Contains(Lower(title), "sec")
  }

  /** Any title mentioning "SEC", in whatever case, is breaking. */
  lemma SecAnyCaseIsImportant(title: string, mention: string)
    requires Lower(mention) == "sec" && Contains(title, mention)
    ensures IsImportant(title)
  {
    ContainsLower(title, mention);
  }

  /** The "sec" check is a substring check: a title mentioning a "second" record is breaking twice over, "SECOND" still once. */
  lemma ImportantExamples()
    ensures IsImportant("a second")
    ensures IsImportant("SECOND")
    ensures !Contains("BREAKS", "breaks")
  {
    ContainsAt("BREAKS", "breaks");
    assert forall i :: OccursAt("BREAKS", "breaks", i) ==> i == 0;
    assert !OccursAt("BREAKS", "breaks", 0) by {
      assert "BREAKS"[0..6][0] != "breaks"[0];
    }
    assert StartsWith("second", "sec");
    assert Contains("a second", "sec");
    assert Lower("SECOND") == "second";
    assert Contains("second", "sec");
  }

  /** A feed story before classification; the other fields are taken as they are. */
  datatype FeedItem = FeedItem(
    id: string,
    title: string,
    source: string,
    categories: Option<string>,
    tags: Option<string>,
    url: string,
    timestamp: int)

  /** The feed mapper: the story's category and breaking flag are derived from its fields. */
  function ToNewsItem(f: FeedItem): (r: NewsItem)
    ensures r.category == Categorize(f.categories, f.tags)
    ensures r.important <==> IsImportant(f.title)
    ensures r.title == f.title && r.id == f.id && r.source == f.source
  {
    NewsItem(f.id, f.title, f.source, Categorize(f.categories, f.tags), f.url, f.timestamp, IsImportant(f.title))
  }

  // ------------------------------------------------------------ filtering

  /** The search box: an empty query matches; otherwise title or source contains it, ignoring ASCII case. */
  predicate MatchesSearch(item: NewsItem, query: string) {
    query == "" || Contains(Lower(item.title), Lower(query)) || Contains(Lower(item.source), Lower(query))
  }

  /** The category toggles: none active matches everything, otherwise the item's category must be active. */
  predicate MatchesFilters(item: NewsItem, active: seq<Category>) {
    |active| == 0 || item.category in active
  }

  predicate Keep(item: NewsItem, query: string, active: seq<Category>) {
    MatchesSearch(item, query) && MatchesFilters(item, active)
  }

  /** The filtered list: the stories both checks keep, in their original order. */
  function FilterNews(news: seq<NewsItem>, query: string, active: seq<Category>): (r: seq<NewsItem>)
    ensures forall x :: x in r <==> x in news && Keep(x, query, active)
    ensures IsSubsequence(r, news)
    ensures |r| <= |news|
  {
    Filter((x: NewsItem) => Keep(x, query, active), news)
  }

  /** With an empty query and no toggles the filtered list is the whole list. */
  lemma FilterNothingKeepsAll(news: seq<NewsItem>)
    ensures FilterNews(news, "", []) == news
  {
    FilterKeepsAll((x: NewsItem) => Keep(x, "", []), news);
  }

  /** The search ignores the letter case of the query. */
  lemma SearchIgnoresQueryCase(item: NewsItem, query: string)
    ensures MatchesSearch(item, query) <==> MatchesSearch(item, Lower(query))
  {
    LowerIdempotent(query);
  }

  /** Toggling a category: an active one is removed, an inactive one appended. */
  function ToggleFilter(active: seq<Category>, c: Category): (r: seq<Category>)
    ensures c in r <==> c !in active
    ensures forall d :: d != c ==> (d in r <==> d in active)
    ensures NoDuplicates(active) ==> NoDuplicates(r)
  {
    if c in active then
      FilterNoDuplicatesIf(active, c);
      Filter((f: Category) => f != c, active)
    else
      AppendNoDuplicatesIf(active, c);
      active + [c]
  }

  lemma AppendNoDuplicatesIf(active: seq<Category>, c: Category)
    requires c !in active
    ensures NoDuplicates(active) ==> NoDuplicates(active + [c])
  {
    if NoDuplicates(active) {
      AppendNoDuplicates(active, c);
    }
  }

  lemma FilterNoDuplicatesIf(active: seq<Category>, c: Category)
    ensures NoDuplicates(active) ==> NoDuplicates(Filter((f: Category) => f != c, active))
  {
    if NoDuplicates(active) {
      FilterNoDuplicates((f: Category) => f != c, active);
    }
  }

  /** Toggling twice restores which categories are active; from inactive it restores the list itself. */
  lemma {:induction false} ToggleTwice(active: seq<Category>, c: Category)
    ensures forall d :: d in ToggleFilter(ToggleFilter(active, c), c) <==> d in active
    ensures c !in active ==> ToggleFilter(ToggleFilter(active, c), c) == active
  {
    if c !in active {
      var p := (f: Category) => f != c;
      FilterAppend(p, active, [c]);
      FilterKeepsAll(p, active);
      assert Filter(p, [c]) == [];
    }
  }

  // ------------------------------------------------------------ the ticker

  /** The next position, wrapping to the front: `(p + 1) % n`. */
  function Next(p: nat, n: nat): (r: nat)
    requires n > 0
    ensures r < n
    ensures p < n - 1 ==> r == p + 1
    ensures p == n - 1 ==> r == 0
  {
    (p + 1) % n
  }

  /** The previous position, wrapping to the back: `(p - 1 + n) % n`. */
  function Prev(p: nat, n: nat): (r: nat)
    requires n > 0
    ensures r < n
    ensures 0 < p < n ==> r == p - 1
    ensures p == 0 ==> r == n - 1
  {
    (p + n - 1) % n
  }

  /** Within range, Prev undoes Next and Next undoes Prev. */
  lemma PrevNextInverse(p: nat, n: nat)
    requires p < n
    ensures Prev(Next(p, n), n) == p
    ensures Next(Prev(p, n), n) == p
  {
  }

  /** Stepping forward k times. */
  function Advance(p: nat, n: nat, k: nat): nat
    requires n > 0
  {
    if k == 0 then p else Next(Advance(p, n, k - 1), n)
  }

  /** Without wrapping, k steps from p land on p + k. */
  lemma {:induction false} AdvanceStraight(p: nat, n: nat, k: nat)
    requires p + k < n
    ensures Advance(p, n, k) == p + k
  {
    if k > 0 {
      AdvanceStraight(p, n, k - 1);
    }
  }

  /** Stepping a + b times is stepping a times, then b times. */
  lemma {:induction false} AdvanceSplit(p: nat, n: nat, a: nat, b: nat)
    requires n > 0
    ensures Advance(p, n, a + b) == Advance(Advance(p, n, a), n, b)
  {
    if b > 0 {
      AdvanceSplit(p, n, a, b - 1);
    }
  }

  /** n steps from an in-range position go full circle. */
  lemma FullCircle(p: nat, n: nat)
    requires p < n
    ensures Advance(p, n, n) == p
  {
    AdvanceStraight(p, n, n - 1 - p);
    AdvanceSplit(p, n, n - 1 - p, 1 + p);
    AdvanceSplit(n - 1, n, 1, p);
    AdvanceStraight(0, n, p);
  }

  /**
   * The ticker's state: the stories, the search, the toggles, whether the
   * list is expanded, and the position of the story on show.
   */
  datatype View = View(news: seq<NewsItem>, query: string, active: seq<Category>, expanded: bool, pos: nat)

  function Filtered(v: View): seq<NewsItem> {
    FilterNews(v.news, v.query, v.active)
  }

  /** The position indexes the filtered list whenever it is non-empty. */
  predicate InRange(v: View) {
    |Filtered(v)| == 0 || v.pos < |Filtered(v)|
  }

  /**
   * The story shown in the collapsed ticker. None covers two cases: an empty
   * list, where the placeholder is shown, and a position past the end of a
   * non-empty list, where the component's `.id` read throws.
   */
  function Shown(v: View): (r: Option<NewsItem>)
    ensures r.Some? ==> r.value in Filtered(v)
    ensures InRange(v) && |Filtered(v)| > 0 ==> r.Some? && r.value == Filtered(v)[v.pos]
  {
    if v.pos < |Filtered(v)| then Some(Filtered(v)[v.pos]) else None
  }

  /**
   * The five-second auto-advance, on the position and the length n of the
   * filtered list: it moves only while collapsed and the list is non-empty.
   */
  function AutoTick(pos: nat, n: nat, expanded: bool): (r: nat)
    ensures pos < n ==> r < n
    ensures expanded || n == 0 ==> r == pos
    ensures !expanded && pos + 1 < n ==> r == pos + 1
    ensures !expanded && n > 0 && pos == n - 1 ==> r == 0
  {
    if !expanded && n > 0 then Next(pos, n) else pos
  }

  /** The forward button, disabled unless at least two stories are listed. */
  function PressNext(pos: nat, n: nat): (r: nat)
    ensures pos < n ==> r < n
    ensures n <= 1 ==> r == pos
    ensures n > 1 && pos + 1 < n ==> r == pos + 1
    ensures n > 1 && pos == n - 1 ==> r == 0
  {
    if n <= 1 then pos else Next(pos, n)
  }

  /** The back button, disabled unless at least two stories are listed. */
  function PressPrev(pos: nat, n: nat): (r: nat)
    ensures pos < n ==> r < n
    ensures n <= 1 ==> r == pos
    ensures n > 1 && 0 < pos < n ==> r == pos - 1
    ensures n > 1 && pos == 0 ==> r == n - 1
  {
    if n <= 1 then pos else Prev(pos, n)
  }

  /** From any story on the list, back then forward, or forward then back, returns to it. */
  lemma PressesUndo(pos: nat, n: nat)
    requires pos < n
    ensures PressPrev(PressNext(pos, n), n) == pos
    ensures PressNext(PressPrev(pos, n), n) == pos
  {
    if n > 1 {
      PrevNextInverse(pos, n);
    }
  }

  /** While collapsed, n ticks over a list of n stories bring the same story back. */
  lemma {:induction false} TicksGoFullCircle(pos: nat, n: nat)
    requires pos < n
    ensures Ticks(pos, n, n) == pos
  {
    TicksAreAdvance(pos, n, n);
    FullCircle(pos, n);
  }

  /** k auto-ticks while collapsed. */
  function Ticks(pos: nat, n: nat, k: nat): nat {
    if k == 0 then pos else AutoTick(Ticks(pos, n, k - 1), n, false)
  }

  lemma {:induction false} TicksAreAdvance(pos: nat, n: nat, k: nat)
    requires n > 0
    ensures Ticks(pos, n, k) == Advance(pos, n, k)
  {
    if k > 0 {
      TicksAreAdvance(pos, n, k - 1);
    }
  }

  /** Clicking the k-th listed story shows exactly that story. */
  function Select(v: View, k: nat): (r: View)
    requires k < |Filtered(v)|
    ensures InRange(r) && r.pos == k
    ensures Shown(r) == Some(Filtered(v)[k])
  {
    v.(pos := k)
  }

  /** Toggling a category as the component does it: the position is left where it was. */
  function ToggleAsWritten(v: View, c: Category): (r: View)
    ensures r.active == ToggleFilter(v.active, c) && r.pos == v.pos
  {
    v.(active := ToggleFilter(v.active, c))
  }

  /** Narrowing the list under the ticker leaves it pointing past the end of a non-empty list. */
  lemma ToggleAsWrittenLosesPosition()
    ensures var a := NewsItem("news-1", "a", "s", Market, "#", 0, false);
            var b := NewsItem("news-2", "b", "s", Technology, "#", 0, false);
            var v := View([a, b], "", [], false, 1);
            InRange(v) && !InRange(ToggleAsWritten(v, Market)) && Shown(ToggleAsWritten(v, Market)).None?
            && |Filtered(ToggleAsWritten(v, Market))| > 0
  {
    var a := NewsItem("news-1", "a", "s", Market, "#", 0, false);
    var b := NewsItem("news-2", "b", "s", Technology, "#", 0, false);
    var v := View([a, b], "", [], false, 1);
    FilterNothingKeepsAll([a, b]);
    assert ToggleFilter([], Market) == [Market];
    var w := ToggleAsWritten(v, Market);
    var f := Filtered(w);
    assert a in f;
    assert b !in f;
    assert forall x :: x in f ==> x == a;
    assert multiset(f)[a] == 1;
    assert |f| <= 1;
  }

  /** Toggling a category with the position pulled back to the first story when the list shrinks under it. */
  function Toggle(v: View, c: Category): (r: View)
    ensures InRange(r)
    ensures r.active == ToggleFilter(v.active, c)
    ensures r.news == v.news && r.query == v.query && r.expanded == v.expanded
    ensures v.pos < |Filtered(r)| ==> r.pos == v.pos
  {
    var w := v.(active := ToggleFilter(v.active, c));
    if v.pos < |Filtered(w)| then w else w.(pos := 0)
  }

  /** Typing a search, with the same pull-back. */
  function Search(v: View, query: string): (r: View)
    ensures InRange(r) && r.query == query
    ensures r.news == v.news && r.active == v.active && r.expanded == v.expanded
    ensures v.pos < |Filtered(r)| ==> r.pos == v.pos
  {
    var w := v.(query := query);
    if v.pos < |Filtered(w)| then w else w.(pos := 0)
  }
}
