/** The Collections page's query pipeline. Four stages run in a fixed order: free-text
    search, category filter, date sort, and pagination at six items per page. Alongside
    them sit the rule that rewrites the URL parameters and the rule that reads them back. */
module Collections {
  import opened Seqs
  import opened Text

  // ---------------------------------------------------------------------------
  // Items and seed data

  datatype AccessLevel = Public | Restricted

  /** An archive item. `date` is the ISO date YYYY-MM-DD written as the number YYYYMMDD,
      which orders dates the same way their timestamps do. */
  datatype ArchiveItem = ArchiveItem(id: string, title: string, description: string,
                                     category: string, date: int, accessLevel: AccessLevel,
                                     thumbnail: string, subjects: seq<string>)

  const ItemsPerPage: nat := 6

  /** The category choices offered by the page; "All" means no category filter. */
  const CategoryOptions: seq<string> := ["All", "Yearbooks", "Photographs", "Publications", "Documents"]

  // The longer titles and descriptions are written as concatenations of shorter literals;
  // each is the same string as in the page's data.
  const Description1 := "Complete yearbook featuring " + "graduates, campus events, and " + "memorable moments from AY 2022-2023."
  const Description2 := "A curated collection of " + "photographs documenting the " + "institution's growth over 75 years."
  const Description3 := "Latest volume featuring faculty " + "and student research papers " + "across various disciplines."
  const Description4 := "Original founding documents " + "and correspondence from " + "the institution's establishment."
  const Description5 := "Yearbook commemorating the " + "achievements and memories of " + "the Class of 2022."
  const Description6 := "Photos and memorabilia from " + "institutional sports " + "championships throughout the decades."
  const Description7 := "Digitized collection of student " + "newspapers from the 1980s decade."
  const Description8 := "Administrative correspondence " + "and meeting minutes from the " + "early institutional period."

  const Title2 := "Campus Centennial " + "Photo Collection"
  const Title3 := "Research Journal " + "Volume 15"
  const Title4 := "Founding Charter " + "Documents"
  const Title6 := "Sports Championship " + "Gallery"
  const Title7 := "Student Newspaper " + "Archives 1980-1990"
  const Title8 := "Administrative " + "Records 1960-1970"

  const Item1 := ArchiveItem("1", "Class of 2023 Yearbook", Description1, "Yearbooks", 20231215,
                             Public, "/placeholder.svg", ["Graduates", "Campus Life", "2023"])
  const Item2 := ArchiveItem("2", Title2, Description2, "Photographs", 20231120,
                             Public, "/placeholder.svg", ["Campus", "History", "Centennial"])
  const Item3 := ArchiveItem("3", Title3, Description3, "Publications", 20231001,
                             Public, "/placeholder.svg", ["Research", "Academic", "Faculty"])
  const Item4 := ArchiveItem("4", Title4, Description4, "Documents", 19500115,
                             Restricted, "/placeholder.svg", ["History", "Founding", "Charter"])
  const Item5 := ArchiveItem("5", "Class of 2022 Yearbook", Description5, "Yearbooks", 20221215,
                             Public, "/placeholder.svg", ["Graduates", "Campus Life", "2022"])
  const Item6 := ArchiveItem("6", Title6, Description6, "Photographs", 20230810,
                             Public, "/placeholder.svg", ["Sports", "Athletics", "Championships"])
  const Item7 := ArchiveItem("7", Title7, Description7, "Publications", 19901231,
                             Public, "/placeholder.svg", ["Students", "Newspaper", "1980s"])
  const Item8 := ArchiveItem("8", Title8, Description8, "Documents", 19701231,
                             Restricted, "/placeholder.svg", ["Administration", "Records", "1960s"])

  /** The page's fixed item list. */
  const MockItems: seq<ArchiveItem> := [Item1, Item2, Item3, Item4, Item5, Item6, Item7, Item8]

  // ---------------------------------------------------------------------------
  // Stage 1: search

  /** Some subject, lowercased, includes the (already lowercased) query. */
  predicate SomeSubjectIncludes(subjects: seq<string>, q: string) {
    exists k :: 0 <= k < |subjects| && Includes(Lower(subjects[k]), q)
  }

  /** The item matches the lowercased query on its title, its description or a subject. */
  predicate MatchesQuery(item: ArchiveItem, q: string) {
    || Includes(Lower(item.title), q)
    || Includes(Lower(item.description), q)
    || SomeSubjectIncludes(item.subjects, q)
  }

  function MatchesSearch(q: string): ArchiveItem -> bool {
    (item: ArchiveItem) => MatchesQuery(item, q)
  }

  /** The search stage: no filter for an empty query, otherwise case-insensitive substring
      match on title, description or any subject. */
  function SearchStage(items: seq<ArchiveItem>, search: string): (r: seq<ArchiveItem>)
    ensures search == "" ==> r == items
    ensures forall i :: 0 <= i < |r| ==> r[i] in items && MatchesQuery(r[i], Lower(search))
    ensures forall i :: 0 <= i < |items| && MatchesQuery(items[i], Lower(search)) ==> items[i] in r
    ensures Subseq(r, items)
  {
    if search == "" then
      forall i | 0 <= i < |items| ensures MatchesQuery(items[i], Lower(search)) {
        IncludesEmpty(Lower(items[i].title));
      }
      SubseqRefl(items);
      items
    else
      FilterIsSubseq(items, MatchesSearch(Lower(search)));
      Filter(items, MatchesSearch(Lower(search)))
  }

  /** A non-empty query filters on the lowercased query. */
  lemma SearchStageFilters(items: seq<ArchiveItem>, search: string)
    requires search != ""
    ensures SearchStage(items, search) == Filter(items, MatchesSearch(Lower(search)))
  {
  }

  /** The empty-query guard changes nothing: an empty query matches every item anyway. */
  lemma EmptySearchMatchesAll(items: seq<ArchiveItem>)
    ensures Filter(items, MatchesSearch(Lower(""))) == items
  {
    forall i | 0 <= i < |items| ensures MatchesSearch(Lower(""))(items[i]) {
      IncludesEmpty(Lower(items[i].title));
    }
    FilterKeepsAll(items, MatchesSearch(Lower("")));
  }

  /** The query is lowercased before matching, so the query and its lowercase form select
      the same items. */
  lemma SearchIgnoresQueryCase(items: seq<ArchiveItem>, search: string)
    ensures SearchStage(items, Lower(search)) == SearchStage(items, search)
  {
    LowerIdempotent(search);
  }

  // ---------------------------------------------------------------------------
  // Stage 2: category

  function InCategory(category: string): ArchiveItem -> bool {
    (item: ArchiveItem) => item.category == category
  }

  /** The category stage: "All" keeps everything; any other value keeps exactly the items
      whose category equals it, case included. */
  function CategoryStage(items: seq<ArchiveItem>, category: string): (r: seq<ArchiveItem>)
    ensures category == "All" ==> r == items
    ensures forall i :: 0 <= i < |r| ==> r[i] in items && (category == "All" || r[i].category == category)
    ensures forall i :: 0 <= i < |items| && (category == "All" || items[i].category == category) ==> items[i] in r
    ensures Subseq(r, items)
  {
    if category == "All" then
      SubseqRefl(items);
      items
    else
      FilterIsSubseq(items, InCategory(category));
      Filter(items, InCategory(category))
  }

  /** A category value that no item carries selects nothing; in particular the lowercase
      values the home page and footer links put in the URL. */
  lemma UnknownCategorySelectsNothing(items: seq<ArchiveItem>, category: string)
    requires category != "All"
    requires forall i :: 0 <= i < |items| ==> items[i].category != category
    ensures CategoryStage(items, category) == []
  {
    FilterDropsAll(items, InCategory(category));
  }

  /** Every item of the page carries one of the four capitalised category names. */
  lemma MockCategoriesAreCapitalised()
    ensures forall i :: 0 <= i < |MockItems| ==>
              MockItems[i].category in {"Yearbooks", "Photographs", "Publications", "Documents"}
  {
  }

  /** The page's category choices name every item's category, but none of the lowercase
      values the footer links put in the URL is among them. */
  lemma LowercaseLinksAreNotOptions()
    ensures forall i :: 0 <= i < |MockItems| ==> MockItems[i].category in CategoryOptions[1..]
    ensures forall i :: 0 <= i < |CategoryOptions| ==>
              CategoryOptions[i] != "yearbooks" && CategoryOptions[i] != "publications"
              && CategoryOptions[i] != "photographs" && CategoryOptions[i] != "documents"
  {
    MockCategoriesAreCapitalised();
    forall i | 0 <= i < |CategoryOptions|
      ensures CategoryOptions[i] != "yearbooks" && CategoryOptions[i] != "publications"
              && CategoryOptions[i] != "photographs" && CategoryOptions[i] != "documents"
    {
      assert CategoryOptions[i][0] in {'A', 'Y', 'P', 'D'};
    }
  }

  lemma LowercaseCategoryLinksMatchNothing()
    ensures CategoryStage(MockItems, "yearbooks") == []
    ensures CategoryStage(MockItems, "publications") == []
    ensures CategoryStage(MockItems, "photographs") == []
    ensures CategoryStage(MockItems, "documents") == []
  {
    MockCategoriesAreCapitalised();
    assert CategoryStage(MockItems, "yearbooks") == [] by {
      assert "yearbooks"[0] != "Yearbooks"[0];
      UnknownCategorySelectsNothing(MockItems, "yearbooks");
    }
    assert CategoryStage(MockItems, "publications") == [] by {
      assert "publications"[0] != "Publications"[0];
      UnknownCategorySelectsNothing(MockItems, "publications");
    }
    assert CategoryStage(MockItems, "photographs") == [] by {
      assert "photographs"[0] != "Photographs"[0];
      UnknownCategorySelectsNothing(MockItems, "photographs");
    }
    assert CategoryStage(MockItems, "documents") == [] by {
      assert "documents"[0] != "Documents"[0];
      UnknownCategorySelectsNothing(MockItems, "documents");
    }
  }

  // ---------------------------------------------------------------------------
  // Stage 3: sort by date

  /** The comparator's view of an item: "newest" orders by descending date, so it sorts on
      the negated date; every other value sorts on the date. */
  function SortKey(newest: bool, item: ArchiveItem): int {
    if newest then -item.date else item.date
  }

  ghost predicate SortedByKey(newest: bool, s: seq<ArchiveItem>) {
    forall i, j :: 0 <= i < j < |s| ==> SortKey(newest, s[i]) <= SortKey(newest, s[j])
  }

  /** Insert `x` in front of the first element that does not sort strictly before it. */
  function Insert(newest: bool, x: ArchiveItem, s: seq<ArchiveItem>): (r: seq<ArchiveItem>)
    ensures |r| == |s| + 1
    ensures multiset(r) == multiset(s) + multiset{x}
    ensures SortedByKey(newest, s) ==> SortedByKey(newest, r)
  {
    if |s| == 0 then [x]
    else if SortKey(newest, s[0]) < SortKey(newest, x) then
      var rest := Insert(newest, x, s[1..]);
      assert multiset(s) == multiset{s[0]} + multiset(s[1..]) by {
        assert s == [s[0]] + s[1..];
      }
      InsertSortedCons(newest, x, s, rest);
      [s[0]] + rest
    else
      ConsSorted(newest, x, s);
      [x] + s
  }

  /** An element that sorts no later than the head of a sorted list may go in front of it. */
  lemma ConsSorted(newest: bool, x: ArchiveItem, s: seq<ArchiveItem>)
    requires |s| > 0 && SortKey(newest, x) <= SortKey(newest, s[0])
    ensures SortedByKey(newest, s) ==> SortedByKey(newest, [x] + s)
  {
    if SortedByKey(newest, s) {
      forall i, j | 0 <= i < j < |s| + 1
        ensures SortKey(newest, ([x] + s)[i]) <= SortKey(newest, ([x] + s)[j])
      {
        assert ([x] + s)[j] == s[j - 1];
        if i > 0 {
          assert ([x] + s)[i] == s[i - 1];
        }
      }
    }
  }

  /** The step of `Insert` that keeps the head of `s` in front. */
  lemma InsertSortedCons(newest: bool, x: ArchiveItem, s: seq<ArchiveItem>, rest: seq<ArchiveItem>)
    requires |s| > 0 && SortKey(newest, s[0]) < SortKey(newest, x)
    requires multiset(rest) == multiset(s[1..]) + multiset{x}
    requires SortedByKey(newest, s[1..]) ==> SortedByKey(newest, rest)
    ensures SortedByKey(newest, s) ==> SortedByKey(newest, [s[0]] + rest)
  {
    if SortedByKey(newest, s) {
      var r := [s[0]] + rest;
      assert SortedByKey(newest, s[1..]) by {
        forall i, j | 0 <= i < j < |s[1..]|
          ensures SortKey(newest, s[1..][i]) <= SortKey(newest, s[1..][j])
        {
          assert s[1..][i] == s[i + 1] && s[1..][j] == s[j + 1];
        }
      }
      forall i, j | 0 <= i < j < |r|
        ensures SortKey(newest, r[i]) <= SortKey(newest, r[j])
      {
        if i == 0 {
          var y := rest[j - 1];
          assert y in multiset(rest);
          if y != x {
            assert y in multiset(s[1..]);
            var k :| 0 <= k < |s[1..]| && s[1..][k] == y;
            assert s[k + 1] == y;
          }
        } else {
          assert r[i] == rest[i - 1] && r[j] == rest[j - 1];
        }
      }
    }
  }

  /** A stable insertion sort: the result is a permutation of the input, sorted on the key. */
  function SortByDate(newest: bool, xs: seq<ArchiveItem>): (r: seq<ArchiveItem>)
    ensures |r| == |xs|
    ensures multiset(r) == multiset(xs)
    ensures SortedByKey(newest, r)
  {
    if |xs| == 0 then []
    else
      assert xs == [xs[0]] + xs[1..];
      Insert(newest, xs[0], SortByDate(newest, xs[1..]))
  }

  /** The sort stage: a permutation of its input; "newest" gives non-increasing dates and
      any other value non-decreasing dates. */
  function SortStage(items: seq<ArchiveItem>, sortBy: string): (r: seq<ArchiveItem>)
    ensures multiset(r) == multiset(items)
    ensures sortBy == "newest" ==> forall i, j :: 0 <= i < j < |r| ==> r[i].date >= r[j].date
    ensures sortBy != "newest" ==> forall i, j :: 0 <= i < j < |r| ==> r[i].date <= r[j].date
  {
    var r := SortByDate(sortBy == "newest", items);
    assert forall i, j :: 0 <= i < j < |r| ==> SortKey(sortBy == "newest", r[i]) <= SortKey(sortBy == "newest", r[j]);
    r
  }

  function HasDate(date: int): ArchiveItem -> bool {
    (item: ArchiveItem) => item.date == date
  }

  /** Two elements that cannot both pass a filter may trade places in front of a tail. */
  lemma KeepSwap(p: ArchiveItem -> bool, a: ArchiveItem, b: ArchiveItem, t: seq<ArchiveItem>)
    requires !(p(a) && p(b))
    ensures Keep(p, a) + (Keep(p, b) + t) == Keep(p, b) + (Keep(p, a) + t)
  {
    if p(a) {
      assert Keep(p, b) == [];
    } else {
      assert Keep(p, a) == [];
    }
  }

  lemma {:induction false} InsertKeepsSameDateOrder(newest: bool, x: ArchiveItem, s: seq<ArchiveItem>, date: int)
    ensures Filter(Insert(newest, x, s), HasDate(date)) == Keep(HasDate(date), x) + Filter(s, HasDate(date))
    decreases |s|
  {
    var p := HasDate(date);
    if |s| == 0 {
      FilterCons(x, s, p);
      assert Insert(newest, x, s) == [x] + s;
    } else if SortKey(newest, s[0]) < SortKey(newest, x) {
      var rest := Insert(newest, x, s[1..]);
      InsertKeepsSameDateOrder(newest, x, s[1..], date);
      assert Insert(newest, x, s) == [s[0]] + rest;
      FilterCons(s[0], rest, p);
      assert s == [s[0]] + s[1..];
      FilterCons(s[0], s[1..], p);
      assert s[0].date != x.date;
      KeepSwap(p, s[0], x, Filter(s[1..], p));
    } else {
      assert Insert(newest, x, s) == [x] + s;
      FilterCons(x, s, p);
    }
  }

  /** The sort is stable: items with equal dates keep their relative input order. */
  lemma {:induction false} SortIsStable(newest: bool, xs: seq<ArchiveItem>, date: int)
    ensures Filter(SortByDate(newest, xs), HasDate(date)) == Filter(xs, HasDate(date))
    decreases |xs|
  {
    if |xs| > 0 {
      SortIsStable(newest, xs[1..], date);
      InsertKeepsSameDateOrder(newest, xs[0], SortByDate(newest, xs[1..]), date);
      assert xs == [xs[0]] + xs[1..];
      FilterCons(xs[0], xs[1..], HasDate(date));
    }
  }

  /** No two items of `s` share a date. */
  predicate DistinctDates(s: seq<ArchiveItem>) {
    forall i, j :: 0 <= i < j < |s| ==> s[i].date != s[j].date
  }

  lemma SortedTail(newest: bool, s: seq<ArchiveItem>)
    requires |s| > 0 && SortedByKey(newest, s)
    ensures SortedByKey(newest, s[1..])
  {
    forall i, j | 0 <= i < j < |s| - 1
      ensures SortKey(newest, s[1..][i]) <= SortKey(newest, s[1..][j])
    {
      assert s[1..][i] == s[i + 1] && s[1..][j] == s[j + 1];
    }
  }

  lemma DistinctTail(s: seq<ArchiveItem>)
    requires |s| > 0 && DistinctDates(s)
    ensures DistinctDates(s[1..])
  {
    forall i, j | 0 <= i < j < |s| - 1
      ensures s[1..][i].date != s[1..][j].date
    {
      assert s[1..][i] == s[i + 1] && s[1..][j] == s[j + 1];
    }
  }

  /** Two sorted arrangements of the same items with distinct dates start with the same item. */
  lemma SortedHeadsAgree(newest: bool, a: seq<ArchiveItem>, b: seq<ArchiveItem>)
    requires |a| > 0 && |b| > 0 && multiset(a) == multiset(b)
    requires SortedByKey(newest, a) && SortedByKey(newest, b)
    requires DistinctDates(a)
    ensures a[0] == b[0]
  {
    assert b[0] in multiset(a) && a[0] in multiset(b);
    var m :| 0 <= m < |a| && a[m] == b[0];
    var k :| 0 <= k < |b| && b[k] == a[0];
    assert SortKey(newest, a[0]) <= SortKey(newest, a[m]);
    assert SortKey(newest, b[0]) <= SortKey(newest, b[k]);
    assert a[0].date == a[m].date;
  }

  /** Equal multisets with equal heads have equal tails. */
  lemma TailsAgree(a: seq<ArchiveItem>, b: seq<ArchiveItem>)
    requires |a| > 0 && |b| > 0 && multiset(a) == multiset(b) && a[0] == b[0]
    ensures multiset(a[1..]) == multiset(b[1..])
  {
    assert multiset(a) == multiset{a[0]} + multiset(a[1..]) by {
      assert a == [a[0]] + a[1..];
    }
    assert multiset(b) == multiset{b[0]} + multiset(b[1..]) by {
      assert b == [b[0]] + b[1..];
    }
    assert multiset(a[1..]) == multiset(a) - multiset{a[0]};
    assert multiset(b[1..]) == multiset(b) - multiset{b[0]};
  }

  /** When no two items share a date, the sorted order is determined: any two sorted
      arrangements of the same items are the same sequence. */
  lemma {:induction false} SortedArrangementUnique(newest: bool, a: seq<ArchiveItem>, b: seq<ArchiveItem>)
    requires multiset(a) == multiset(b)
    requires SortedByKey(newest, a) && SortedByKey(newest, b)
    requires DistinctDates(a)
    ensures a == b
    decreases |a|
  {
    assert |a| == |multiset(a)| == |multiset(b)| == |b|;
    if |a| > 0 {
      SortedHeadsAgree(newest, a, b);
      TailsAgree(a, b);
      SortedTail(newest, a);
      SortedTail(newest, b);
      DistinctTail(a);
      SortedArrangementUnique(newest, a[1..], b[1..]);
    }
  }

  /** With distinct dates, sorting yields any sorted arrangement of the same items, so a
      sorted listing written out by hand is what the page shows. */
  /** The list without its `j`-th element. */
  function Without(t: seq<ArchiveItem>, j: nat): (r: seq<ArchiveItem>)
    requires j < |t|
    ensures |r| == |t| - 1
    ensures forall i :: 0 <= i < |r| ==> r[i] == t[if i < j then i else i + 1]
    ensures multiset(t) == multiset(r) + multiset{t[j]}
  {
    assert t == t[..j] + [t[j]] + t[j + 1..];
    t[..j] + t[j + 1..]
  }

  /** With distinct dates, removing one element keeps the dates distinct and removes exactly
      that element. */
  lemma WithoutDistinct(t: seq<ArchiveItem>, j: nat)
    requires j < |t| && DistinctDates(t)
    ensures DistinctDates(Without(t, j))
    ensures forall y :: y in Without(t, j) <==> y in t && y != t[j]
  {
    var r := Without(t, j);
    forall i, k | 0 <= i < k < |r| ensures r[i].date != r[k].date {
      assert r[i] == t[if i < j then i else i + 1];
      assert r[k] == t[if k < j then k else k + 1];
    }
    forall y ensures y in r <==> y in t && y != t[j] {
      if y in r {
        var i :| 0 <= i < |r| && r[i] == y;
        assert t[if i < j then i else i + 1] == y;
      }
      if y in t && y != t[j] {
        var k :| 0 <= k < |t| && t[k] == y;
        assert r[if k < j then k else k - 1] == y;
      }
    }
  }

  /** Two lists of items with distinct dates and the same elements are rearrangements of
      each other. */
  lemma {:induction false} SameItemsRearranged(s: seq<ArchiveItem>, t: seq<ArchiveItem>)
    requires |s| == |t| && DistinctDates(s) && DistinctDates(t)
    requires forall x :: x in s <==> x in t
    ensures multiset(s) == multiset(t)
    decreases |s|
  {
    if |s| > 0 {
      assert s[0] in t;
      var j :| 0 <= j < |t| && t[j] == s[0];
      WithoutDistinct(t, j);
      WithoutDistinct(s, 0);
      assert Without(s, 0) == s[1..];
      SameItemsRearranged(s[1..], Without(t, j));
      assert s == [s[0]] + s[1..];
    }
  }

  lemma SortByDateIsTheSortedArrangement(newest: bool, xs: seq<ArchiveItem>, s: seq<ArchiveItem>)
    requires multiset(s) == multiset(xs)
    requires SortedByKey(newest, s)
    requires DistinctDates(s)
    ensures SortByDate(newest, xs) == s
  {
    SortedArrangementUnique(newest, s, SortByDate(newest, xs));
  }

  // ---------------------------------------------------------------------------
  // Stage 4: pagination

  /** `Math.ceil(n / 6)`. */
  function TotalPages(n: nat): (r: nat)
    ensures n <= r * ItemsPerPage
    ensures r == 0 || (r - 1) * ItemsPerPage < n
  {
    (n + ItemsPerPage - 1) / ItemsPerPage
  }

  /** How `Array.prototype.slice` resolves an index: negative counts from the end,
      and the result is clamped to [0, n]. */
  function SliceIndex(i: int, n: nat): (k: nat)
    ensures k <= n
    ensures 0 <= i <= n ==> k == i
  {
    if i < 0 then (if n + i < 0 then 0 else n + i)
    else if i > n then n
    else i
  }

  /** `xs.slice(start, end)`. */
  function Slice<T>(xs: seq<T>, start: int, end: int): (r: seq<T>)
    ensures |r| <= |xs|
    ensures 0 <= start <= end <= |xs| ==> r == xs[start..end]
    ensures start <= end ==> |r| <= end - start
  {
    var s := SliceIndex(start, |xs|);
    var e := SliceIndex(end, |xs|);
    SliceIndexGap(start, end, |xs|);
    if s < e then xs[s..e] else []
  }

  /** Resolving two indexes never widens the gap between them. */
  lemma SliceIndexGap(i: int, j: int, n: nat)
    ensures i <= j ==> SliceIndex(j, n) - SliceIndex(i, n) <= j - i
  {
  }

  function Min(a: int, b: int): int {
    if a <= b then a else b
  }

  /** The items shown on page `page`: `slice((page - 1) * 6, page * 6)`. */
  function PaginatedItems<T>(xs: seq<T>, page: int): (r: seq<T>)
    ensures |r| <= ItemsPerPage
    ensures 1 <= page <= TotalPages(|xs|) ==> r == xs[(page - 1) * ItemsPerPage..Min(page * ItemsPerPage, |xs|)]
    ensures page > TotalPages(|xs|) ==> r == []
    ensures page == 0 ==> r == []
  {
    Slice(xs, (page - 1) * ItemsPerPage, page * ItemsPerPage)
  }

  /** Pages 1 to `k`, concatenated. */
  function PagesUpTo<T>(xs: seq<T>, k: nat): seq<T> {
    if k == 0 then [] else PagesUpTo(xs, k - 1) + PaginatedItems(xs, k)
  }

  lemma {:induction false} PagesUpToIsPrefix<T>(xs: seq<T>, k: nat)
    requires k <= TotalPages(|xs|)
    ensures PagesUpTo(xs, k) == xs[..Min(k * ItemsPerPage, |xs|)]
  {
    if k > 0 {
      PagesUpToIsPrefix(xs, k - 1);
      var lo := (k - 1) * ItemsPerPage;
      assert Min((k - 1) * ItemsPerPage, |xs|) == lo;
      assert xs[..lo] + xs[lo..Min(k * ItemsPerPage, |xs|)] == xs[..Min(k * ItemsPerPage, |xs|)];
    }
  }

  /** Concatenating pages 1 to `TotalPages` reproduces the whole list. */
  lemma PagesPartitionList<T>(xs: seq<T>)
    ensures PagesUpTo(xs, TotalPages(|xs|)) == xs
  {
    PagesUpToIsPrefix(xs, TotalPages(|xs|));
    assert xs[..|xs|] == xs;
  }

  /** A negative page counts from the end of the list, as `slice` does: page -1 of eight
      items is the first two. */
  lemma NegativePageCountsFromEnd<T>(xs: seq<T>)
    requires |xs| == 8
    ensures PaginatedItems(xs, -1) == xs[..2]
  {
  }

  /** The "previous" control: `Math.max(1, current - 1)`, the least value that is at
      least 1 and at least `current - 1`. */
  function PrevPage(current: int): (p: int)
    ensures p >= 1 && p >= current - 1
    ensures p == 1 || p == current - 1
  {
    if 1 >= current - 1 then 1 else current - 1
  }

  /** The "next" control: `Math.min(totalPages, current + 1)`, the greatest value that is
      at most `totalPages` and at most `current + 1`. */
  function NextPage(current: int, totalPages: int): (p: int)
    ensures p <= totalPages && p <= current + 1
    ensures p == totalPages || p == current + 1
  {
    if totalPages <= current + 1 then totalPages else current + 1
  }

  /** From a page in range, "previous" and "next" stay in range, move by at most one,
      and stay put exactly at the first and the last page. */
  lemma PageStepsStayInRange(current: int, totalPages: int)
    requires 1 <= current <= totalPages
    ensures 1 <= PrevPage(current) <= current <= NextPage(current, totalPages) <= totalPages
    ensures current - PrevPage(current) <= 1 && NextPage(current, totalPages) - current <= 1
    ensures PrevPage(current) == current <==> current == 1
    ensures NextPage(current, totalPages) == current <==> current == totalPages
  {
  }

  /** The page number is read from the URL unchecked, so the controls can start outside
      the page range: beyond the last page "next" jumps back to the last page while
      "previous" steps down by one and can stay out of range; below 1 "previous" gives 1.
      With eight items there are two pages, and from `?page=10` "previous" is 9 and
      "next" is 2, while the page itself shows nothing. */
  lemma StepsFromOutOfRangePage(current: int, totalPages: nat)
    ensures current > totalPages ==> NextPage(current, totalPages) == totalPages
    ensures current > totalPages + 1 ==> PrevPage(current) == current - 1 > totalPages
    ensures current < 1 ==> PrevPage(current) == 1
    ensures TotalPages(8) == 2 && PrevPage(10) == 9 && NextPage(10, TotalPages(8)) == 2
    ensures forall xs: seq<ArchiveItem> :: |xs| == 8 ==> PaginatedItems(xs, 10) == []
  {
  }

  // ---------------------------------------------------------------------------
  // URL parameters

  /** The URL's query parameters, one value per key. */
  type SearchParams = map<string, string>

  /** `updateSearchParams(key, value)`: sets `key` to a value other than "" and "All" and
      deletes it otherwise; any key other than "page" also drops "page". */
  function UpdateSearchParams(params: SearchParams, key: string, value: string): (r: SearchParams)
    ensures value != "" && value != "All" ==> key in r && r[key] == value
    ensures value == "" || value == "All" ==> key !in r
    ensures key != "page" ==> "page" !in r
    ensures forall k :: k != key && k != "page" ==> (k in r <==> k in params)
    ensures forall k :: k in r && k != key && k != "page" ==> r[k] == params[k]
    ensures key == "page" ==> forall k :: k in r && k != key ==> k in params && r[k] == params[k]
  {
    var updated := if value != "" && value != "All" then params[key := value] else params - {key};
    if key != "page" then updated - {"page"} else updated
  }

  /** `searchParams.get(key) || fallback`: an absent key and an empty value both give
      the fallback. */
  function GetOr(params: SearchParams, key: string, fallback: string): (v: string)
    ensures key in params && params[key] != "" ==> v == params[key]
    ensures key !in params || params[key] == "" ==> v == fallback
  {
    if key in params && params[key] != "" then params[key] else fallback
  }

  /** An optionally negative decimal numeral, read by `parseInt` without loss. */
  predicate IsIntegerNumeral(s: string) {
    IsDecimal(s) || (|s| >= 2 && s[0] == '-' && IsDecimal(s[1..]))
  }

  function IntegerValue(s: string): int
    requires IsIntegerNumeral(s)
  {
    if IsDecimal(s) then DecimalValue(s) else -(DecimalValue(s[1..]) as int)
  }

  /** The "page" parameter, when present and non-empty, is an integer numeral. */
  predicate WellFormedPage(params: SearchParams) {
    "page" in params && params["page"] != "" ==> IsIntegerNumeral(params["page"])
  }

  datatype Query = Query(search: string, category: string, sortBy: string, page: int)

  /** The page's reading of its URL: search "", category "All", sort "newest" and page 1
      unless the URL says otherwise. */
  function ReadQuery(params: SearchParams): (q: Query)
    requires WellFormedPage(params)
    ensures q.search == GetOr(params, "search", "")
    ensures q.category == GetOr(params, "category", "All")
    ensures q.sortBy == GetOr(params, "sort", "newest")
    ensures "page" !in params || params["page"] == "" ==> q.page == 1
    ensures "page" in params && params["page"] != "" ==> q.page == IntegerValue(params["page"])
    ensures params == map[] ==> q == Query("", "All", "newest", 1)
  {
    var pageText := GetOr(params, "page", "1");
    assert IsDecimal("1") && DecimalValue("1") == 1 by {
      assert "1"[..0] == "";
    }
    Query(GetOr(params, "search", ""), GetOr(params, "category", "All"),
          GetOr(params, "sort", "newest"), IntegerValue(pageText))
  }

  /** Writing a filter control into the URL and reading the URL back: the control reads as
      the value written (or its default when the value clears it), the other two controls
      read as before, and the page starts again at 1. */
  lemma UpdateThenRead(params: SearchParams, key: string, value: string)
    requires WellFormedPage(params)
    requires key == "search" || key == "category" || key == "sort"
    ensures WellFormedPage(UpdateSearchParams(params, key, value))
    ensures ReadQuery(UpdateSearchParams(params, key, value)).page == 1
    ensures key == "search" ==> ReadQuery(UpdateSearchParams(params, key, value))
                                  == ReadQuery(params).(search := if value == "All" then "" else value, page := 1)
    ensures key == "category" ==> ReadQuery(UpdateSearchParams(params, key, value))
                                    == ReadQuery(params).(category := if value == "" then "All" else value, page := 1)
    ensures key == "sort" ==> ReadQuery(UpdateSearchParams(params, key, value))
                                == ReadQuery(params).(sortBy := if value == "" || value == "All" then "newest" else value, page := 1)
  {
  }

  /** Writing a page number into the URL and reading it back gives that page, the filters
      unchanged. */
  lemma UpdatePageThenRead(params: SearchParams, page: nat)
    requires WellFormedPage(params)
    ensures WellFormedPage(UpdateSearchParams(params, "page", NatToDecimal(page)))
    ensures ReadQuery(UpdateSearchParams(params, "page", NatToDecimal(page))) == ReadQuery(params).(page := page)
  {
  }

  // ---------------------------------------------------------------------------
  // The pipeline

  /** `filteredItems`: search, then category, then sort. The result holds exactly the
      items that match both the search and the category, each as often as in the input,
      in the order the sort asks for. */
  function FilteredItems(items: seq<ArchiveItem>, q: Query): (r: seq<ArchiveItem>)
    ensures |r| <= |items|
    ensures forall x :: x in r <==>
              x in items && MatchesQuery(x, Lower(q.search)) && (q.category == "All" || x.category == q.category)
    ensures forall x :: multiset(r)[x] ==
              if MatchesQuery(x, Lower(q.search)) && (q.category == "All" || x.category == q.category)
              then multiset(items)[x] else 0
    ensures q.sortBy == "newest" ==> forall i, j :: 0 <= i < j < |r| ==> r[i].date >= r[j].date
    ensures q.sortBy != "newest" ==> forall i, j :: 0 <= i < j < |r| ==> r[i].date <= r[j].date
  {
    var before := CategoryStage(SearchStage(items, q.search), q.category);
    var r := SortStage(before, q.sortBy);
    FilteredItemsSpec(items, q);
    StageCounts(items, q);
    SubseqLength(before, items);
    assert |r| == |before| by {
      assert |multiset(r)| == |multiset(before)|;
    }
    r
  }

  datatype View = View(items: seq<ArchiveItem>, totalCount: nat, totalPages: nat)

  /** What the page renders for a URL: the current page of the filtered, sorted items,
      their number and the number of pages. */
  function Browse(items: seq<ArchiveItem>, params: SearchParams): (v: View)
    requires WellFormedPage(params)
    ensures |v.items| <= ItemsPerPage
    ensures v.totalPages == TotalPages(v.totalCount)
    ensures v.totalCount <= |items|
    ensures v.totalCount == |FilteredItems(items, ReadQuery(params))|
    ensures v.items == PaginatedItems(FilteredItems(items, ReadQuery(params)), ReadQuery(params).page)
  {
    var q := ReadQuery(params);
    var filtered := FilteredItems(items, q);
    View(PaginatedItems(filtered, q.page), |filtered|, TotalPages(|filtered|))
  }

  /** The two filter stages keep every copy of an item that matches both the search and
      the category, and no copy of any other item. */
  lemma StageCounts(items: seq<ArchiveItem>, q: Query)
    ensures forall x :: multiset(CategoryStage(SearchStage(items, q.search), q.category))[x] ==
              if MatchesQuery(x, Lower(q.search)) && (q.category == "All" || x.category == q.category)
              then multiset(items)[x] else 0
  {
    var s1 := SearchStage(items, q.search);
    var s2 := CategoryStage(s1, q.category);
    forall x ensures multiset(s1)[x] == if MatchesQuery(x, Lower(q.search)) then multiset(items)[x] else 0 {
      if q.search == "" {
        if x in items {
          var i :| 0 <= i < |items| && items[i] == x;
        }
      } else {
        FilterCounts(items, MatchesSearch(Lower(q.search)));
      }
    }
    if q.category != "All" {
      FilterCounts(s1, InCategory(q.category));
    }
  }

  /** The filter stages keep exactly the items that match both the search and the category,
      in input order; the sort then permutes them. */
  lemma FilteredItemsSpec(items: seq<ArchiveItem>, q: Query)
    ensures Subseq(CategoryStage(SearchStage(items, q.search), q.category), items)
    ensures multiset(SortStage(CategoryStage(SearchStage(items, q.search), q.category), q.sortBy)) == multiset(CategoryStage(SearchStage(items, q.search), q.category))
    ensures forall x :: x in SortStage(CategoryStage(SearchStage(items, q.search), q.category), q.sortBy) <==>
              x in items && MatchesQuery(x, Lower(q.search)) && (q.category == "All" || x.category == q.category)
  {
    var s1 := SearchStage(items, q.search);
    var s2 := CategoryStage(s1, q.category);
    var r := SortStage(s2, q.sortBy);
    if q.search == "" {
      if q.category == "All" {
        assert s2 == items;
      } else {
        assert s2 == Filter(items, InCategory(q.category));
        FilterIsSubseq(items, InCategory(q.category));
      }
    } else if q.category == "All" {
      assert s2 == s1;
    } else {
      FilterFilter(items, MatchesSearch(Lower(q.search)), InCategory(q.category));
      FilterIsSubseq(items, Both(MatchesSearch(Lower(q.search)), InCategory(q.category)));
    }
    forall x
      ensures x in r <==> x in items && MatchesQuery(x, Lower(q.search)) && (q.category == "All" || x.category == q.category)
    {
      assert x in r <==> x in multiset(r);
      assert x in s2 <==> x in multiset(s2);
      if x in s2 {
        var i :| 0 <= i < |s2| && s2[i] == x;
        var j :| 0 <= j < |s1| && s1[j] == x;
      }
      if x in items && MatchesQuery(x, Lower(q.search)) && (q.category == "All" || x.category == q.category) {
        var i :| 0 <= i < |items| && items[i] == x;
        var j :| 0 <= j < |s1| && s1[j] == x;
      }
    }
  }
}
