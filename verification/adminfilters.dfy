/** The search boxes of the three administration tables. Each keeps the rows where the
    lowercased term occurs in the lowercased text of certain columns: title or category for
    materials, name or email for users, and the name alone for categories. */
module AdminFilters {
  import opened Seqs
  import opened Text
  import opened Catalog

  // ---------------------------------------------------------------------------
  // Materials: title or category

  predicate MaterialMatches(m: Material, term: string) {
    Includes(Lower(m.title), Lower(term)) || Includes(Lower(m.category), Lower(term))
  }

  function MaterialMatchesTerm(term: string): Material -> bool {
    (m: Material) => MaterialMatches(m, term)
  }

  /** `filteredMaterials`: the matching rows, in table order. */
  function FilterMaterials(ms: seq<Material>, term: string): (r: seq<Material>)
    ensures forall i :: 0 <= i < |r| ==> r[i] in ms && MaterialMatches(r[i], term)
    ensures forall i :: 0 <= i < |ms| && MaterialMatches(ms[i], term) ==> ms[i] in r
    ensures Subseq(r, ms)
    ensures forall x :: multiset(r)[x] == if MaterialMatches(x, term) then multiset(ms)[x] else 0
  {
    FilterIsSubseq(ms, MaterialMatchesTerm(term));
    FilterCounts(ms, MaterialMatchesTerm(term));
    Filter(ms, MaterialMatchesTerm(term))
  }

  /** An empty term is included in every title, so the whole table is shown. */
  lemma EmptyTermShowsAllMaterials(ms: seq<Material>)
    ensures FilterMaterials(ms, "") == ms
  {
    forall i | 0 <= i < |ms| ensures MaterialMatchesTerm("")(ms[i]) {
      IncludesEmpty(Lower(ms[i].title));
    }
    FilterKeepsAll(ms, MaterialMatchesTerm(""));
  }

  /** The term's case does not matter. */
  lemma MaterialFilterIgnoresCase(ms: seq<Material>, term: string)
    ensures FilterMaterials(ms, Lower(term)) == FilterMaterials(ms, term)
  {
    LowerIdempotent(term);
    FilterExt(ms, MaterialMatchesTerm(Lower(term)), MaterialMatchesTerm(term));
  }

  // ---------------------------------------------------------------------------
  // Users: name or email

  predicate UserMatches(u: User, term: string) {
    Includes(Lower(u.name), Lower(term)) || Includes(Lower(u.email), Lower(term))
  }

  function UserMatchesTerm(term: string): User -> bool {
    (u: User) => UserMatches(u, term)
  }

  /** `filteredUsers`: the matching rows, in table order. */
  function FilterUsers(us: seq<User>, term: string): (r: seq<User>)
    ensures forall i :: 0 <= i < |r| ==> r[i] in us && UserMatches(r[i], term)
    ensures forall i :: 0 <= i < |us| && UserMatches(us[i], term) ==> us[i] in r
    ensures Subseq(r, us)
    ensures forall x :: multiset(r)[x] == if UserMatches(x, term) then multiset(us)[x] else 0
  {
    FilterIsSubseq(us, UserMatchesTerm(term));
    FilterCounts(us, UserMatchesTerm(term));
    Filter(us, UserMatchesTerm(term))
  }

  lemma EmptyTermShowsAllUsers(us: seq<User>)
    ensures FilterUsers(us, "") == us
  {
    forall i | 0 <= i < |us| ensures UserMatchesTerm("")(us[i]) {
      IncludesEmpty(Lower(us[i].name));
    }
    FilterKeepsAll(us, UserMatchesTerm(""));
  }

  lemma UserFilterIgnoresCase(us: seq<User>, term: string)
    ensures FilterUsers(us, Lower(term)) == FilterUsers(us, term)
  {
    LowerIdempotent(term);
    FilterExt(us, UserMatchesTerm(Lower(term)), UserMatchesTerm(term));
  }

  // ---------------------------------------------------------------------------
  // Categories: name only

  predicate CategoryMatches(c: Category, term: string) {
    Includes(Lower(c.name), Lower(term))
  }

  function CategoryMatchesTerm(term: string): Category -> bool {
    (c: Category) => CategoryMatches(c, term)
  }

  /** `filteredCategories`: the rows whose name matches, in table order; the `items`
      description is not searched. */
  function FilterCategories(cs: seq<Category>, term: string): (r: seq<Category>)
    ensures forall i :: 0 <= i < |r| ==> r[i] in cs && CategoryMatches(r[i], term)
    ensures forall i :: 0 <= i < |cs| && CategoryMatches(cs[i], term) ==> cs[i] in r
    ensures Subseq(r, cs)
    ensures forall x :: multiset(r)[x] == if CategoryMatches(x, term) then multiset(cs)[x] else 0
  {
    FilterIsSubseq(cs, CategoryMatchesTerm(term));
    FilterCounts(cs, CategoryMatchesTerm(term));
    Filter(cs, CategoryMatchesTerm(term))
  }

  lemma EmptyTermShowsAllCategories(cs: seq<Category>)
    ensures FilterCategories(cs, "") == cs
  {
    forall i | 0 <= i < |cs| ensures CategoryMatchesTerm("")(cs[i]) {
      IncludesEmpty(Lower(cs[i].name));
    }
    FilterKeepsAll(cs, CategoryMatchesTerm(""));
  }

  lemma CategoryFilterIgnoresCase(cs: seq<Category>, term: string)
    ensures FilterCategories(cs, Lower(term)) == FilterCategories(cs, term)
  {
    LowerIdempotent(term);
    FilterExt(cs, CategoryMatchesTerm(Lower(term)), CategoryMatchesTerm(term));
  }

  /** Only the name is searched: the items text of a category does not make it match. */
  lemma ItemsTextNotSearched(c: Category, term: string)
    requires !Includes(Lower(c.name), Lower(term))
    ensures FilterCategories([c], term) == []
  {
    FilterSingleton(c, CategoryMatchesTerm(term));
  }

  /** The table with every row's items text replaced by `t`. */
  function SetItems(cs: seq<Category>, t: string): (r: seq<Category>)
    ensures |r| == |cs|
    ensures forall i :: 0 <= i < |cs| ==> r[i] == cs[i].(items := t)
  {
    if |cs| == 0 then [] else [cs[0].(items := t)] + SetItems(cs[1..], t)
  }

  /** Whether a row matches never depends on its items text. */
  lemma MatchIgnoresItems(c: Category, term: string, t: string)
    ensures CategoryMatches(c.(items := t), term) == CategoryMatches(c, term)
  {
  }

  /** Rewriting the items text of every row and then searching gives the same rows as
      searching first: the search never looks at that column. */
  lemma ItemsTextIrrelevant(cs: seq<Category>, term: string, t: string)
    ensures FilterCategories(SetItems(cs, t), term) == SetItems(FilterCategories(cs, term), t)
  {
    FilterSetItems(cs, CategoryMatchesTerm(term), term, t);
  }

  /** `ItemsTextIrrelevant` stated on the underlying `Filter`, by induction on the table. */
  lemma {:induction false} FilterSetItems(cs: seq<Category>, p: Category -> bool, term: string, t: string)
    requires p == CategoryMatchesTerm(term)
    ensures Filter(SetItems(cs, t), p) == SetItems(Filter(cs, p), t)
    decreases |cs|
  {
    if |cs| > 0 {
      var c, rest := cs[0], cs[1..];
      var d := c.(items := t);
      assert SetItems(cs, t) == [d] + SetItems(rest, t);
      assert Filter(cs, p) == (if p(c) then [c] else []) + Filter(rest, p);
      MatchIgnoresItems(c, term, t);
      assert p(d) == p(c);
      FilterSetItems(rest, p, term, t);
      FilterCons(d, SetItems(rest, t), p);
      var f := Filter(rest, p);
      if p(c) {
        assert ([c] + f)[0] == c && ([c] + f)[1..] == f;
        assert SetItems([c] + f, t) == [d] + SetItems(f, t);
      } else {
        assert Filter(cs, p) == f;
      }
    }
  }

  /** A lowercase letter of the term that a name lacks in both cases rules the name out. */
  lemma NameLacksLetter(c: Category, term: string, letter: char)
    requires Lower(term) == term && IsLower(letter) && letter in term
    requires letter !in c.name && UpperChar(letter) !in c.name
    ensures !CategoryMatchesTerm(term)(c)
  {
    LowerAvoids(c.name, letter);
    NotIncludesByChar(Lower(c.name), term, letter);
  }

  /** A filter rejecting each of five rows returns nothing. */
  lemma NoneOfFive<T>(xs: seq<T>, p: T -> bool)
    requires |xs| == 5 && !p(xs[0]) && !p(xs[1]) && !p(xs[2]) && !p(xs[3]) && !p(xs[4])
    ensures Filter(xs, p) == []
  {
    forall i | 0 <= i < |xs|
      ensures !p(xs[i])
    {
      assert i == 0 || i == 1 || i == 2 || i == 3 || i == 4;
    }
    FilterDropsAll(xs, p);
  }

  /** No seed category name contains "records": each lacks one of its letters. */
  lemma SeedName0LacksRecords()
    ensures !CategoryMatchesTerm("records")(InitialCategories[0])
  {
    assert InitialCategories[0].name == "Yearbooks";
    assert Lower("records") == "records" && 'c' in "records";
    NameLacksLetter(InitialCategories[0], "records", 'c');
  }

  lemma SeedName1LacksRecords()
    ensures !CategoryMatchesTerm("records")(InitialCategories[1])
  {
    assert InitialCategories[1].name == "Photographs";
    assert Lower("records") == "records" && 'c' in "records";
    NameLacksLetter(InitialCategories[1], "records", 'c');
  }

  lemma SeedName2LacksRecords()
    ensures !CategoryMatchesTerm("records")(InitialCategories[2])
  {
    assert InitialCategories[2].name == "Publications";
    assert Lower("records") == "records" && 'd' in "records";
    NameLacksLetter(InitialCategories[2], "records", 'd');
  }

  lemma SeedName3LacksRecords()
    ensures !CategoryMatchesTerm("records")(InitialCategories[3])
  {
    assert InitialCategories[3].name == "Documents";
    assert Lower("records") == "records" && 'r' in "records";
    NameLacksLetter(InitialCategories[3], "records", 'r');
  }

  lemma SeedName4LacksRecords()
    ensures !CategoryMatchesTerm("records")(InitialCategories[4])
  {
    assert InitialCategories[4].name == "Memorabilia";
    assert Lower("records") == "records" && 'c' in "records";
    NameLacksLetter(InitialCategories[4], "records", 'c');
  }

  /** "records" names the Documents category's items ("Administrative records, charters")
      but no category name, so the seed table shows nothing for it. */
  lemma RecordsFindsNoCategory()
    ensures FilterCategories(InitialCategories, "records") == []
  {
    SeedName0LacksRecords();
    SeedName1LacksRecords();
    SeedName2LacksRecords();
    SeedName3LacksRecords();
    SeedName4LacksRecords();
    NoneOfFive(InitialCategories, CategoryMatchesTerm("records"));
  }
}
