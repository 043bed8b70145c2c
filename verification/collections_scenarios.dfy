/** The Collections pipeline on the page's own eight items: what a search for "yearbook",
    the "Documents" category and the "oldest" sort show. */
module CollectionsScenarios {
  import opened Seqs
  import opened Text
  import opened Collections

  /** Neither case of `c` occurs in `s`, so no lowercased query holding `c` matches. */
  lemma LacksLetter(s: string, q: string, c: char)
    requires IsLower(c) && c in q && c !in s && UpperChar(c) !in s
    ensures !Includes(Lower(s), q)
  {
    LowerAvoids(s, c);
    NotIncludesByChar(Lower(s), q, c);
  }

  /** An item none of whose texts holds the letter k, in either case, does not match "yearbook". */
  lemma NoYearbookWithoutK(item: ArchiveItem)
    requires LacksK(item.title) && LacksK(item.description)
    requires forall j :: 0 <= j < |item.subjects| ==> LacksK(item.subjects[j])
    ensures !MatchesQuery(item, "yearbook")
  {
    assert 'k' in "yearbook";
    LacksLetter(item.title, "yearbook", 'k');
    LacksLetter(item.description, "yearbook", 'k');
    forall j | 0 <= j < |item.subjects|
      ensures !Includes(Lower(item.subjects[j]), "yearbook")
    {
      LacksLetter(item.subjects[j], "yearbook", 'k');
    }
  }

  /** Both yearbooks carry "Yearbook" at position 14 of their titles. */
  lemma YearbooksMatch()
    ensures MatchesQuery(Item1, "yearbook") && MatchesQuery(Item5, "yearbook")
  {
    var t1 := Item1.title;
    assert t1[14..22] == "Yearbook";
    assert Lower(t1)[14..22] == Lower(t1[14..22]) == "yearbook";
    OccurrenceIncludes(Lower(t1), "yearbook", 14);
    var t5 := Item5.title;
    assert t5[14..22] == "Yearbook";
    assert Lower(t5)[14..22] == Lower(t5[14..22]) == "yearbook";
    OccurrenceIncludes(Lower(t5), "yearbook", 14);
  }

  /** Neither `k` nor `K` occurs in `s`. */
  predicate LacksK(s: string) {
    'k' !in s && 'K' !in s
  }

  lemma Description2LacksK()
    ensures LacksK(Description2)
  {
    assert LacksK("A curated collection of ");
    assert LacksK("photographs documenting the ");
    assert LacksK("institution's growth over 75 years.");
    assert Description2 == "A curated collection of " + "photographs documenting the " + "institution's growth over 75 years.";
  }

  lemma Title2LacksK()
    ensures LacksK(Item2.title)
  {
    assert LacksK("Campus Centennial ") && LacksK("Photo Collection");
    assert Item2.title == Title2;
  }

  lemma Subjects2LackK()
    ensures forall j :: 0 <= j < |Item2.subjects| ==> LacksK(Item2.subjects[j])
  {
    assert Item2.subjects == ["Campus", "History", "Centennial"];
  }

  lemma Item2NotYearbook()
    ensures !MatchesQuery(Item2, "yearbook")
  {
    Description2LacksK();
    Title2LacksK();
    Subjects2LackK();
    NoYearbookWithoutK(Item2);
  }

  lemma Description3LacksK()
    ensures LacksK(Description3)
  {
    assert LacksK("Latest volume featuring faculty ");
    assert LacksK("and student research papers ");
    assert LacksK("across various disciplines.");
    assert Description3 == "Latest volume featuring faculty " + "and student research papers " + "across various disciplines.";
  }

  lemma Title3LacksK()
    ensures LacksK(Item3.title)
  {
    assert LacksK("Research Journal ") && LacksK("Volume 15");
    assert Item3.title == Title3;
  }

  lemma Subjects3LackK()
    ensures forall j :: 0 <= j < |Item3.subjects| ==> LacksK(Item3.subjects[j])
  {
    assert Item3.subjects == ["Research", "Academic", "Faculty"];
  }

  lemma Item3NotYearbook()
    ensures !MatchesQuery(Item3, "yearbook")
  {
    Description3LacksK();
    Title3LacksK();
    Subjects3LackK();
    NoYearbookWithoutK(Item3);
  }

  lemma Description4LacksK()
    ensures LacksK(Description4)
  {
    assert LacksK("Original founding documents ");
    assert LacksK("and correspondence from ");
    assert LacksK("the institution's establishment.");
    assert Description4 == "Original founding documents " + "and correspondence from " + "the institution's establishment.";
  }

  lemma Title4LacksK()
    ensures LacksK(Item4.title)
  {
    assert LacksK("Founding Charter ") && LacksK("Documents");
    assert Item4.title == Title4;
  }

  lemma Subjects4LackK()
    ensures forall j :: 0 <= j < |Item4.subjects| ==> LacksK(Item4.subjects[j])
  {
    assert Item4.subjects == ["History", "Founding", "Charter"];
  }

  lemma Item4NotYearbook()
    ensures !MatchesQuery(Item4, "yearbook")
  {
    Description4LacksK();
    Title4LacksK();
    Subjects4LackK();
    NoYearbookWithoutK(Item4);
  }

  lemma Description6LacksK()
    ensures LacksK(Description6)
  {
    assert LacksK("Photos and memorabilia from ");
    assert LacksK("institutional sports ");
    assert LacksK("championships throughout the decades.");
    assert Description6 == "Photos and memorabilia from " + "institutional sports " + "championships throughout the decades.";
  }

  lemma Title6LacksK()
    ensures LacksK(Item6.title)
  {
    assert LacksK("Sports Championship ") && LacksK("Gallery");
    assert Item6.title == Title6;
  }

  lemma Subjects6LackK()
    ensures forall j :: 0 <= j < |Item6.subjects| ==> LacksK(Item6.subjects[j])
  {
    assert Item6.subjects == ["Sports", "Athletics", "Championships"];
  }

  lemma Item6NotYearbook()
    ensures !MatchesQuery(Item6, "yearbook")
  {
    Description6LacksK();
    Title6LacksK();
    Subjects6LackK();
    NoYearbookWithoutK(Item6);
  }

  lemma Description7LacksK()
    ensures LacksK(Description7)
  {
    assert LacksK("Digitized collection of student ");
    assert LacksK("newspapers from the 1980s decade.");
    assert Description7 == "Digitized collection of student " + "newspapers from the 1980s decade.";
  }

  lemma Title7LacksK()
    ensures LacksK(Item7.title)
  {
    assert LacksK("Student Newspaper ") && LacksK("Archives 1980-1990");
    assert Item7.title == Title7;
  }

  lemma Subjects7LackK()
    ensures forall j :: 0 <= j < |Item7.subjects| ==> LacksK(Item7.subjects[j])
  {
    assert Item7.subjects == ["Students", "Newspaper", "1980s"];
  }

  lemma Item7NotYearbook()
    ensures !MatchesQuery(Item7, "yearbook")
  {
    Description7LacksK();
    Title7LacksK();
    Subjects7LackK();
    NoYearbookWithoutK(Item7);
  }

  lemma Description8LacksK()
    ensures LacksK(Description8)
  {
    assert LacksK("Administrative correspondence ");
    assert LacksK("and meeting minutes from the ");
    assert LacksK("early institutional period.");
    assert Description8 == "Administrative correspondence " + "and meeting minutes from the " + "early institutional period.";
  }

  lemma Title8LacksK()
    ensures LacksK(Item8.title)
  {
    assert LacksK("Administrative ") && LacksK("Records 1960-1970");
    assert Item8.title == Title8;
  }

  lemma Subjects8LackK()
    ensures forall j :: 0 <= j < |Item8.subjects| ==> LacksK(Item8.subjects[j])
  {
    assert Item8.subjects == ["Administration", "Records", "1960s"];
  }

  lemma Item8NotYearbook()
    ensures !MatchesQuery(Item8, "yearbook")
  {
    Description8LacksK();
    Title8LacksK();
    Subjects8LackK();
    NoYearbookWithoutK(Item8);
  }

  /** A filter over four items followed by a tail, written out item by item. */
  lemma FilterFourThen<T>(a: T, b: T, c: T, d: T, t: seq<T>, p: T -> bool)
    ensures Filter([a, b, c, d] + t, p)
         == Keep(p, a) + (Keep(p, b) + (Keep(p, c) + (Keep(p, d) + Filter(t, p))))
  {
    var s3 := [d] + t;
    var s2 := [c] + s3;
    var s1 := [b] + s2;
    FilterCons(d, t, p);
    FilterCons(c, s3, p);
    FilterCons(b, s2, p);
    FilterCons(a, s1, p);
    assert [a, b, c, d] + t == [a] + s1;
  }

  /** A filter over eight items, written out item by item. */
  lemma FilterEight<T>(a: T, b: T, c: T, d: T, e: T, f: T, g: T, h: T, p: T -> bool)
    ensures Filter([a, b, c, d, e, f, g, h], p)
         == Keep(p, a) + (Keep(p, b) + (Keep(p, c) + (Keep(p, d) + (Keep(p, e) + (Keep(p, f)
            + (Keep(p, g) + Keep(p, h)))))))
  {
    var tail := Keep(p, e) + (Keep(p, f) + (Keep(p, g) + Keep(p, h)));
    assert Filter([e, f, g, h], p) == tail by {
      var empty: seq<T> := [];
      FilterFourThen(e, f, g, h, empty, p);
      assert [e, f, g, h] + empty == [e, f, g, h];
      assert Keep(p, h) + Filter(empty, p) == Keep(p, h);
    }
    assert Filter([a, b, c, d, e, f, g, h], p)
        == Keep(p, a) + (Keep(p, b) + (Keep(p, c) + (Keep(p, d) + Filter([e, f, g, h], p)))) by {
      FilterFourThen(a, b, c, d, [e, f, g, h], p);
      assert [a, b, c, d, e, f, g, h] == [a, b, c, d] + [e, f, g, h];
    }
  }

  lemma YearbookFilter()
    ensures Filter(MockItems, MatchesSearch("yearbook")) == [Item1, Item5]
  {
    var p := MatchesSearch("yearbook");
    YearbooksMatch();
    Item2NotYearbook();
    Item3NotYearbook();
    Item4NotYearbook();
    Item6NotYearbook();
    Item7NotYearbook();
    Item8NotYearbook();
    assert Keep(p, Item1) == [Item1] && Keep(p, Item5) == [Item5];
    assert Keep(p, Item2) == [] && Keep(p, Item3) == [] && Keep(p, Item4) == [];
    assert Keep(p, Item6) == [] && Keep(p, Item7) == [] && Keep(p, Item8) == [];
    FilterEight(Item1, Item2, Item3, Item4, Item5, Item6, Item7, Item8, p);
  }

  /** The search stage on "yearbook" keeps exactly items 1 and 5. */
  lemma YearbookSearchSelects()
    ensures SearchStage(MockItems, "yearbook") == [Item1, Item5]
  {
    LowerYearbook();
    SearchStageFilters(MockItems, "yearbook");
    YearbookFilter();
  }

  lemma LowerYearbook()
    ensures Lower("yearbook") == "yearbook"
  {
  }

  /** The 2023 yearbook is newer than the 2022 one, so "newest" keeps them in this order. */
  lemma YearbooksNewestFirst()
    ensures SortStage([Item1, Item5], "newest") == [Item1, Item5]
  {
    SortByDateIsTheSortedArrangement(true, [Item1, Item5], [Item1, Item5]);
  }

  /** Searching "yearbook" finds the 2023 and 2022 yearbooks (items 1 and 5), newest first. */
  lemma SearchYearbookScenario()
    ensures FilteredItems(MockItems, Query("yearbook", "All", "newest", 1)) == [Item1, Item5]
    ensures Item1.id == "1" && Item5.id == "5"
  {
    YearbookSearchSelects();
    YearbooksNewestFirst();
  }

  /** The category stage on "Documents" keeps exactly items 4 and 8. */
  lemma DocumentsSelected()
    ensures CategoryStage(MockItems, "Documents") == [Item4, Item8]
  {
    FilterEight(Item1, Item2, Item3, Item4, Item5, Item6, Item7, Item8, InCategory("Documents"));
  }

  lemma DocumentsNewestFirst()
    ensures SortStage([Item4, Item8], "newest") == [Item8, Item4]
  {
    assert multiset([Item8, Item4]) == multiset([Item4, Item8]);
    SortByDateIsTheSortedArrangement(true, [Item4, Item8], [Item8, Item4]);
  }

  /** The "Documents" category holds the founding charter (1950) and the administrative
      records (1970); the default sort shows the records first. */
  lemma DocumentsScenario()
    ensures FilteredItems(MockItems, Query("", "Documents", "newest", 1)) == [Item8, Item4]
    ensures Item4.id == "4" && Item8.id == "8"
  {
    DocumentsSelected();
    DocumentsNewestFirst();
  }

  /** The page's items from oldest to newest. */
  const OldestFirst: seq<ArchiveItem> := [Item4, Item8, Item7, Item5, Item6, Item3, Item2, Item1]

  lemma OldestFirstIsSorted()
    ensures SortedByKey(false, OldestFirst) && DistinctDates(OldestFirst)
  {
  }

  lemma OldestFirstRearrangesItems()
    ensures multiset(OldestFirst) == multiset(MockItems)
  {
    OldestFirstIsSorted();
    assert DistinctDates(MockItems);
    assert forall x :: x in OldestFirst <==> x in MockItems;
    SameItemsRearranged(OldestFirst, MockItems);
  }

  /** Sorting by "oldest" with no search and no category lists items 4, 8, 7, 5, 6, 3, 2, 1. */
  lemma OldestScenario()
    ensures FilteredItems(MockItems, Query("", "All", "oldest", 1)) == OldestFirst
  {
    OldestFirstIsSorted();
    OldestFirstRearrangesItems();
    SortByDateIsTheSortedArrangement(false, MockItems, OldestFirst);
  }

  /** Eight items make two pages: six on the first, the remaining two on the second. */
  lemma OldestPages()
    ensures TotalPages(|OldestFirst|) == 2
    ensures PaginatedItems(OldestFirst, 1) == OldestFirst[..6]
    ensures PaginatedItems(OldestFirst, 2) == [Item2, Item1]
    ensures PaginatedItems(OldestFirst, 3) == []
  {
  }
}
