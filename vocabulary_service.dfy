/**
 * `getVocabularyPaginated`: keyset pagination over the vocabulary of one level. The rows that
 * pass the filter are taken in ascending id order, `limit + 1` of them are fetched to learn
 * whether a next page exists, and the page is grouped by category in order of first appearance.
 */
module VocabularyService {
  import opened Common

  /** A row of `vocabulary`. */
  datatype VocabRow = VocabRow(
    id: int,
    levelId: int,
    word: string,
    reading: string,
    meaning: string,
    category: Option<string>,
    partOfSpeech: Option<string>)

  /** The selected columns of a row (every column but `levelId`). */
  datatype VocabItem = VocabItem(
    id: int,
    word: string,
    reading: string,
    meaning: string,
    category: Option<string>,
    partOfSpeech: Option<string>)

  /** One entry of the grouped result. */
  datatype CategoryGroup = CategoryGroup(category: string, items: seq<VocabItem>)

  /** What the service returns. */
  datatype VocabPage = VocabPage(nextCursor: Option<int>, categories: seq<CategoryGroup>)

  /** The page before grouping. */
  datatype PageView = PageView(items: seq<VocabItem>, hasNext: bool, nextCursor: Option<int>)

  /** The ordering key of `ORDER BY id`. */
  function VocabIdKey(r: VocabRow): int
  {
    r.id
  }

  function Select(r: VocabRow): VocabItem
  {
    VocabItem(r.id, r.word, r.reading, r.meaning, r.category, r.partOfSpeech)
  }

  /** ASCII case folding. */
  function LowerChar(c: char): char
  {
    if 'A' <= c <= 'Z' then (c as int + 32) as char else c
  }

  function Lower(s: string): (r: string)
    ensures |r| == |s| && forall i :: 0 <= i < |s| ==> r[i] == LowerChar(s[i])
  {
    seq(|s|, i requires 0 <= i < |s| => LowerChar(s[i]))
  }

  /** `pattern` occurs in `text` at some position. */
  predicate Contains(text: string, pattern: string)
  {
    exists i :: 0 <= i <= |text| && pattern <= text[i..]
  }

  /**
   * `text ILIKE '%search%'` with the characters of `search` compared literally: an
   * occurrence of `search` in `text` up to ASCII case.
   */
  predicate ILike(text: string, search: string)
  {
    Contains(Lower(text), Lower(search))
  }

  /**
   * An empty search matches every text, a literal occurrence always matches, and a match
   * needs a text at least as long as the search.
   */
  lemma {:induction false} ILikeBasics(text: string, search: string)
    ensures search == [] ==> ILike(text, search)
    ensures ILike(text, search) ==> |search| <= |text|
    ensures Contains(text, search) ==> ILike(text, search)
  {
    if Contains(text, search) {
      var i :| 0 <= i <= |text| && search <= text[i..];
      assert Lower(search) == Lower(text)[i..][..|search|];
    }
    assert Lower(text)[0..] == Lower(text);
  }

  /** Folding case twice is folding it once. */
  lemma {:induction false} LowerIdempotent(s: string)
    ensures Lower(Lower(s)) == Lower(s)
  {
    assert forall i :: 0 <= i < |s| ==> LowerChar(LowerChar(s[i])) == LowerChar(s[i]);
  }

  /** The match ignores case on both sides: folding the text or the search first changes nothing. */
  lemma {:induction false} ILikeIgnoresCase(text: string, search: string)
    ensures ILike(Lower(text), search) <==> ILike(text, search)
    ensures ILike(text, Lower(search)) <==> ILike(text, search)
  {
    LowerIdempotent(text);
    LowerIdempotent(search);
  }

  /**
   * The WHERE clause: the requested level, ids above a truthy cursor (0 counts as absent) and,
   * for a non-empty search, a case-insensitive match in the word, the reading or the meaning.
   */
  predicate Matches(r: VocabRow, levelId: int, cursor: Option<int>, search: Option<string>)
  {
    && r.levelId == levelId
    && (cursor.Some? && cursor.value != 0 ==> r.id > cursor.value)
    && (search.Some? && search.value != "" ==>
          ILike(r.word, search.value) || ILike(r.reading, search.value) || ILike(r.meaning, search.value))
  }

  /**
   * A matching row is on the requested level and above a truthy cursor; with neither a cursor
   * nor a search, the level's rows are exactly the matching ones; a non-empty search needs a
   * column at least as long as the search.
   */
  lemma {:induction false} MatchesFilters(r: VocabRow, levelId: int, cursor: Option<int>, search: Option<string>)
    ensures Matches(r, levelId, cursor, search) ==> r.levelId == levelId && (cursor.Some? && cursor.value != 0 ==> r.id > cursor.value)
    ensures (cursor.None? || cursor.value == 0) && (search.None? || search.value == "") ==>
              (Matches(r, levelId, cursor, search) <==> r.levelId == levelId)
    ensures Matches(r, levelId, cursor, search) && search.Some? && search.value != "" ==>
              |search.value| <= |r.word| || |search.value| <= |r.reading| || |search.value| <= |r.meaning|
  {
    if search.Some? {
      ILikeBasics(r.word, search.value);
      ILikeBasics(r.reading, search.value);
      ILikeBasics(r.meaning, search.value);
    }
  }

  /**
   * The query without its LIMIT: the matching rows in ascending id order. The table's ids are
   * distinct (its primary key), so the order is strict.
   */
  function MatchingRows(vocab: seq<VocabRow>, levelId: int, cursor: Option<int>, search: Option<string>): (m: seq<VocabRow>)
    requires DistinctKeys(vocab, VocabIdKey)
    ensures forall x :: x in m <==> x in vocab && Matches(x, levelId, cursor, search)
    ensures SortedBy(m, VocabIdKey) && DistinctKeys(m, VocabIdKey)
  {
    var p := (r: VocabRow) => Matches(r, levelId, cursor, search);
    var f := Filter(vocab, p);
    FilterKeepsDistinct(vocab, p, VocabIdKey);
    var m := SortBy(f, VocabIdKey);
    PermutationKeepsDistinct(f, m, VocabIdKey);
    forall x ensures x in m <==> x in vocab && Matches(x, levelId, cursor, search) {
      calc {
        x in m;
        x in multiset(m);
        x in multiset(f);
        x in f;
      }
    }
    m
  }

  /**
   * The page before grouping. It holds at most `limit` items, all matching and in strictly
   * ascending id order; it is the first `limit` matching rows, so no matching row is skipped
   * below its last id; `hasNext` holds exactly when more than `limit` rows match, and
   * `nextCursor` is then the last item's id.
   */
  function PageOf(vocab: seq<VocabRow>, levelId: int, limit: int, cursor: Option<int>, search: Option<string>): (p: PageView)
    requires DistinctKeys(vocab, VocabIdKey)
    requires limit >= 1
    ensures var all := MatchingRows(vocab, levelId, cursor, search);
            && |p.items| == Min(limit, |all|)
            && forall i :: 0 <= i < |p.items| ==> p.items[i] == Select(all[i])
    ensures |p.items| <= limit
    ensures forall i, j :: 0 <= i < j < |p.items| ==> p.items[i].id < p.items[j].id
    ensures p.hasNext <==> |MatchingRows(vocab, levelId, cursor, search)| > limit
    ensures p.hasNext ==> p.nextCursor == Some(p.items[|p.items| - 1].id)
    ensures !p.hasNext ==> p.nextCursor == None
  {
    var all := MatchingRows(vocab, levelId, cursor, search);
    var fetched := all[..Min(limit + 1, |all|)];
    var rows := seq(|fetched|, i requires 0 <= i < |fetched| => Select(fetched[i]));
    var hasNext := |rows| > limit;
    var page := if hasNext then rows[..limit] else rows;
    var nextCursor := if hasNext then Some(page[|page| - 1].id) else None;
    assert forall i :: 0 <= i < |page| ==> page[i] == Select(all[i]);
    PageView(page, hasNext, nextCursor)
  }

  /** Every page item is the selection of a matching row of the table. */
  lemma {:induction false} PageItemsMatch(vocab: seq<VocabRow>, levelId: int, limit: int, cursor: Option<int>, search: Option<string>)
    requires DistinctKeys(vocab, VocabIdKey)
    requires limit >= 1
    ensures var p := PageOf(vocab, levelId, limit, cursor, search);
            forall i :: 0 <= i < |p.items| ==>
              exists r :: r in vocab && Matches(r, levelId, cursor, search) && p.items[i] == Select(r)
  {
    var p := PageOf(vocab, levelId, limit, cursor, search);
    var all := MatchingRows(vocab, levelId, cursor, search);
    forall i | 0 <= i < |p.items|
      ensures exists r :: r in vocab && Matches(r, levelId, cursor, search) && p.items[i] == Select(r)
    {
      assert all[i] in all;
    }
  }

  /** Above a matching row with a positive id, matching under that row's id as cursor is matching as before. */
  lemma {:induction false} MatchesAboveRow(r: VocabRow, row: VocabRow, levelId: int, cursor: Option<int>, search: Option<string>)
    requires Matches(row, levelId, cursor, search) && row.id > 0
    requires r.id > row.id
    ensures Matches(r, levelId, Some(row.id), search) == Matches(r, levelId, cursor, search)
  {
  }

  /**
   * With the id of the k-th matching row as cursor, exactly the matching rows after the k-th
   * match (ids are positive, so that cursor is truthy).
   */
  lemma {:induction false} RowsAfterCursor(vocab: seq<VocabRow>, levelId: int, cursor: Option<int>, search: Option<string>, k: nat)
    requires DistinctKeys(vocab, VocabIdKey)
    requires forall r :: r in vocab ==> r.id > 0
    requires 0 < k <= |MatchingRows(vocab, levelId, cursor, search)|
    ensures var all := MatchingRows(vocab, levelId, cursor, search);
            forall x :: x in MatchingRows(vocab, levelId, Some(all[k - 1].id), search) <==> x in all[k..]
  {
    var all := MatchingRows(vocab, levelId, cursor, search);
    var row := all[k - 1];
    assert row in all;
    var next := MatchingRows(vocab, levelId, Some(row.id), search);
    forall x ensures x in next <==> x in all && VocabIdKey(x) > VocabIdKey(row) {
      if x.id > row.id {
        MatchesAboveRow(x, row, levelId, cursor, search);
      }
    }
    AboveKeyIsSuffix(all, k, VocabIdKey);
  }

  /**
   * Keyset pagination neither skips nor repeats rows: when a next page exists, the rows
   * matching under `nextCursor` are exactly the matching rows after the current page, in the
   * same order; when none exists, the page holds every matching row. (Ids are positive, as a
   * serial key is, so the next cursor is never the falsy 0.)
   */
  lemma {:induction false} NextPageContinues(vocab: seq<VocabRow>, levelId: int, limit: int, cursor: Option<int>, search: Option<string>)
    requires DistinctKeys(vocab, VocabIdKey)
    requires forall r :: r in vocab ==> r.id > 0
    requires limit >= 1
    ensures var p := PageOf(vocab, levelId, limit, cursor, search);
            var all := MatchingRows(vocab, levelId, cursor, search);
            && (p.nextCursor.Some? ==> MatchingRows(vocab, levelId, p.nextCursor, search) == all[limit..])
            && (p.nextCursor.None? ==> |p.items| == |all|)
  {
    var p := PageOf(vocab, levelId, limit, cursor, search);
    var all := MatchingRows(vocab, levelId, cursor, search);
    if p.nextCursor.Some? {
      assert p.nextCursor == Some(all[limit - 1].id);
      RowsAfterCursor(vocab, levelId, cursor, search, limit);
      SuffixKeepsOrder(all, limit, VocabIdKey);
      OrderedUnique(MatchingRows(vocab, levelId, p.nextCursor, search), all[limit..], VocabIdKey);
    }
  }

  /** `r.category ?? 'other'`. */
  function CategoryOf(item: VocabItem): string
  {
    if item.category.Some? then item.category.value else "other"
  }

  /** The distinct categories of `items`, in order of first appearance. */
  function Categories(items: seq<VocabItem>): (cats: seq<string>)
    ensures forall i, j :: 0 <= i < j < |cats| ==> cats[i] != cats[j]
    ensures forall c :: c in cats <==> exists x :: x in items && CategoryOf(x) == c
  {
    if items == [] then []
    else
      var init := items[..|items| - 1];
      var c := Categories(init);
      var x := items[|items| - 1];
      assert items == init + [x];
      if CategoryOf(x) in c then c else c + [CategoryOf(x)]
  }

  /** The items of category `c`, in page order. */
  function InCategory(items: seq<VocabItem>, c: string): (r: seq<VocabItem>)
    ensures |r| <= |items|
    ensures forall x :: x in r <==> x in items && CategoryOf(x) == c
    ensures (forall x :: x in items ==> CategoryOf(x) != c) ==> r == []
  {
    if items == [] then []
    else
      var init := items[..|items| - 1];
      var x := items[|items| - 1];
      assert items == init + [x];
      if CategoryOf(x) == c then InCategory(init, c) + [x] else InCategory(init, c)
  }

  /** The grouping of a page: one group per category, in order of first appearance. */
  function Groups(items: seq<VocabItem>): (g: seq<CategoryGroup>)
    ensures |g| == |Categories(items)|
    ensures forall j :: 0 <= j < |g| ==> g[j] == CategoryGroup(Categories(items)[j], InCategory(items, Categories(items)[j]))
  {
    var cats := Categories(items);
    seq(|cats|, j requires 0 <= j < |cats| => CategoryGroup(cats[j], InCategory(items, cats[j])))
  }

  /** The position of the group of category `c`, or -1 (`grouped.has` / `grouped.get`). */
  function GroupIndex(groups: seq<CategoryGroup>, c: string): (k: int)
    ensures -1 <= k < |groups|
    ensures k >= 0 ==> groups[k].category == c
    ensures k == -1 ==> forall j :: 0 <= j < |groups| ==> groups[j].category != c
  {
    if groups == [] then -1
    else if groups[|groups| - 1].category == c then |groups| - 1
    else GroupIndex(groups[..|groups| - 1], c)
  }

  /** One more item either opens a new group at the end or joins the end of its category's group. */
  lemma {:induction false} GroupsSnoc(items: seq<VocabItem>, x: VocabItem)
    ensures var g, k := Groups(items), GroupIndex(Groups(items), CategoryOf(x));
            Groups(items + [x]) ==
              if k == -1 then g + [CategoryGroup(CategoryOf(x), [x])]
              else g[k := CategoryGroup(CategoryOf(x), g[k].items + [x])]
  {
    var s := items + [x];
    assert s[..|s| - 1] == items;
    var cat := CategoryOf(x);
    var cats := Categories(items);
    var g := Groups(items);
    var k := GroupIndex(g, cat);
    var g' := Groups(s);
    if k == -1 {
      assert cat !in cats;
      assert Categories(s) == cats + [cat];
      forall j | 0 <= j < |g'| ensures g'[j] == (g + [CategoryGroup(cat, [x])])[j] {
        if j < |cats| {
          assert InCategory(s, cats[j]) == InCategory(items, cats[j]);
        }
      }
    } else {
      assert cats[k] == cat;
      assert Categories(s) == cats;
      forall j | 0 <= j < |g'| ensures g'[j] == g[k := CategoryGroup(cat, g[k].items + [x])][j] {
        if j != k {
          assert InCategory(s, cats[j]) == InCategory(items, cats[j]);
        }
      }
    }
  }

  /** `GroupsSnoc` at position `i` of a page. */
  lemma {:induction false} GroupsStep(page: seq<VocabItem>, i: nat)
    requires i < |page|
    ensures var g, k := Groups(page[..i]), GroupIndex(Groups(page[..i]), CategoryOf(page[i]));
            Groups(page[..i + 1]) ==
              if k == -1 then g + [CategoryGroup(CategoryOf(page[i]), [page[i]])]
              else g[k := CategoryGroup(CategoryOf(page[i]), g[k].items + [page[i]])]
  {
    assert page[..i + 1] == page[..i] + [page[i]];
    GroupsSnoc(page[..i], page[i]);
  }

  /** `for (const r of page)`: builds the groups item by item. */
  method GroupByCategory(page: seq<VocabItem>) returns (groups: seq<CategoryGroup>)
    ensures groups == Groups(page)
  {
    groups := [];
    for i := 0 to |page|
      invariant groups == Groups(page[..i])
    {
      var r := page[i];
      var cat := CategoryOf(r);
      GroupsStep(page, i);
      var k := GroupIndex(groups, cat);
      if k == -1 {
        groups := groups + [CategoryGroup(cat, [r])];
      } else {
        groups := groups[k := CategoryGroup(cat, groups[k].items + [r])];
      }
    }
    assert page[..|page|] == page;
  }

  /** The number of items over all groups. */
  function TotalItems(groups: seq<CategoryGroup>): nat
  {
    if groups == [] then 0 else TotalItems(groups[..|groups| - 1]) + |groups[|groups| - 1].items|
  }

  lemma {:induction false} TotalItemsGrow(groups: seq<CategoryGroup>, k: nat, g: CategoryGroup)
    requires k < |groups| && |g.items| == |groups[k].items| + 1
    ensures TotalItems(groups[k := g]) == TotalItems(groups) + 1
    decreases |groups|
  {
    var last := |groups| - 1;
    assert groups[k := g][..last] == if k == last then groups[..last] else groups[..last][k := g];
    if k < last {
      TotalItemsGrow(groups[..last], k, g);
    }
  }

  /** Grouping loses and duplicates nothing: the group sizes sum to the page length. */
  lemma {:induction false} GroupSizesSum(items: seq<VocabItem>)
    ensures TotalItems(Groups(items)) == |items|
    decreases |items|
  {
    if items != [] {
      var init := items[..|items| - 1];
      var x := items[|items| - 1];
      assert items == init + [x];
      GroupSizesSum(init);
      GroupsSnoc(init, x);
      var g := Groups(init);
      var k := GroupIndex(g, CategoryOf(x));
      if k != -1 {
        TotalItemsGrow(g, k, CategoryGroup(CategoryOf(x), g[k].items + [x]));
      } else {
        assert (g + [CategoryGroup(CategoryOf(x), [x])])[..|g|] == g;
      }
    }
  }

  /**
   * Every item of the page lies in exactly one group: there is a group of its category, the
   * groups' categories are distinct, and an item is in a group exactly when the group is its
   * category's.
   */
  lemma {:induction false} GroupOfEachItem(items: seq<VocabItem>, x: VocabItem)
    requires x in items
    ensures exists j :: 0 <= j < |Groups(items)| && Groups(items)[j].category == CategoryOf(x)
    ensures forall i, j :: 0 <= i < j < |Groups(items)| ==> Groups(items)[i].category != Groups(items)[j].category
    ensures forall j :: 0 <= j < |Groups(items)| ==>
              (x in Groups(items)[j].items <==> Groups(items)[j].category == CategoryOf(x))
  {
    var cats := Categories(items);
    assert CategoryOf(x) in cats;
    var j :| 0 <= j < |cats| && cats[j] == CategoryOf(x);
    assert Groups(items)[j].category == CategoryOf(x);
  }

  /**
   * `getVocabularyPaginated`: the page of the matching rows and its grouping by category.
   * The controller admits limits of at least 10, so `limit >= 1` always holds.
   */
  method GetVocabularyPaginated(vocab: seq<VocabRow>, levelId: int, limit: int, cursor: Option<int>, search: Option<string>)
    returns (result: VocabPage)
    requires DistinctKeys(vocab, VocabIdKey)
    requires limit >= 1
    ensures var p := PageOf(vocab, levelId, limit, cursor, search);
            result.nextCursor == p.nextCursor && result.categories == Groups(p.items)
    ensures TotalItems(result.categories) <= limit
  {
    var p := PageOf(vocab, levelId, limit, cursor, search);
    var categories := GroupByCategory(p.items);
    GroupSizesSum(p.items);
    result := VocabPage(p.nextCursor, categories);
  }
}
