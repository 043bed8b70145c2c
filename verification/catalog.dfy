/** The catalog store: three in-memory lists (users, materials, categories), each with
    add / update / delete. Every operation is a pure function from the old list to the new
    one; ids are assigned as one more than the largest id present. */
module Catalog {
  import opened Wrappers
  import opened Seqs
  import opened Text
  import Storage

  // ---------------------------------------------------------------------------
  // Records

  datatype UserStatus = Active | Inactive

  datatype User = User(id: int, name: string, email: string, role: string,
                       status: UserStatus, joined: string)

  /** A user without its id, as passed to `addUser`. */
  datatype UserData = UserData(name: string, email: string, role: string,
                               status: UserStatus, joined: string)
  {
    function WithId(id: int): User {
      User(id, name, email, role, status, joined)
    }
  }

  /** A partial user without its id, as passed to `updateUser`; `None` marks a field
      the update leaves out. */
  datatype UserPatch = UserPatch(name: Option<string>, email: Option<string>, role: Option<string>,
                                 status: Option<UserStatus>, joined: Option<string>)

  datatype AccessLevel = Public | Restricted

  /** A material; its id is the decimal numeral of an integer. */
  datatype Material = Material(id: string, title: string, category: string, date: string,
                               accessLevel: AccessLevel, views: int)

  datatype MaterialData = MaterialData(title: string, category: string, date: string,
                                       accessLevel: AccessLevel, views: int)
  {
    function WithId(id: string): Material {
      Material(id, title, category, date, accessLevel, views)
    }
  }

  datatype MaterialPatch = MaterialPatch(title: Option<string>, category: Option<string>,
                                         date: Option<string>, accessLevel: Option<AccessLevel>,
                                         views: Option<int>)

  /** A category; `count` is informational and not kept in step with the materials. */
  datatype Category = Category(id: int, name: string, count: int, items: string, lastUpdated: string)

  datatype CategoryData = CategoryData(name: string, count: int, items: string, lastUpdated: string)
  {
    function WithId(id: int): Category {
      Category(id, name, count, items, lastUpdated)
    }
  }

  datatype CategoryPatch = CategoryPatch(name: Option<string>, count: Option<int>,
                                         items: Option<string>, lastUpdated: Option<string>)

  // ---------------------------------------------------------------------------
  // Seed data, used when storage holds nothing usable

  const InitialUsers: seq<User> := [
    User(1, "Admin User", "admin@gmail.com", "Admin", Active, "2023-01-10"),
    User(2, "Maria Santos", "maria@email.com", "Archivist", Active, "2023-05-15"),
    User(3, "Jose Garcia", "jose@email.com", "Researcher", Inactive, "2023-08-20"),
    User(4, "Ana Reyes", "ana@email.com", "Student", Active, "2023-10-05"),
    User(5, "Juan Dela Cruz", "juan@email.com", "Student", Active, "2023-11-12")
  ]

  const InitialMaterials: seq<Material> := [
    Material("1", "Class of 2023 Yearbook", "Yearbooks", "2023-12-15", Public, 245),
    Material("2", "Campus Centennial Photo Collection", "Photographs", "2023-11-20", Public, 120),
    Material("3", "Research Journal Volume 15", "Publications", "2023-10-01", Public, 89),
    Material("4", "Founding Charter Documents", "Documents", "1950-01-15", Restricted, 34),
    Material("5", "Class of 2022 Yearbook", "Yearbooks", "2022-12-15", Public, 156),
    Material("6", "Sports Championship Gallery", "Photographs", "2023-08-10", Public, 92)
  ]

  const InitialCategories: seq<Category> := [
    Category(1, "Yearbooks", 45, "Graduation photos, student lists", "2023-12-15"),
    Category(2, "Photographs", 1250, "Campus events, historical landmarks", "2023-11-20"),
    Category(3, "Publications", 85, "Research journals, newsletters", "2023-10-01"),
    Category(4, "Documents", 320, "Administrative records, charters", "2023-09-15"),
    Category(5, "Memorabilia", 120, "Institutional artifacts, awards", "2023-08-10")
  ]

  // ---------------------------------------------------------------------------
  // Id assignment

  /** `Math.max(...xs)` on a non-empty list. */
  function MaxOf(xs: seq<int>): (m: int)
    requires |xs| > 0
    ensures m in xs
    ensures forall i :: 0 <= i < |xs| ==> xs[i] <= m
  {
    if |xs| == 1 then xs[0]
    else
      var rest := MaxOf(xs[1..]);
      if xs[0] >= rest then xs[0] else rest
  }

  /** The id an add assigns: one more than the largest id present, or 1 for an empty list. */
  function NextId(ids: seq<int>): (r: int)
    ensures |ids| == 0 ==> r == 1
    ensures |ids| > 0 ==> r - 1 in ids
    ensures forall i :: 0 <= i < |ids| ==> ids[i] < r
  {
    if |ids| > 0 then MaxOf(ids) + 1 else 1
  }

  // ---------------------------------------------------------------------------
  // Users

  function UserIds(us: seq<User>): seq<int> {
    seq(|us|, i requires 0 <= i < |us| => us[i].id)
  }

  predicate UserIdsDiffer(a: User, b: User) {
    a.id != b.id
  }

  /** No two users share an id. */
  ghost predicate DistinctUserIds(us: seq<User>) {
    Pairwise(us, UserIdsDiffer)
  }

  function HasUserId(id: int): User -> bool {
    (u: User) => u.id == id
  }

  function NotUserId(id: int): User -> bool {
    (u: User) => u.id != id
  }

  /** `{ ...u, ...data }`: supplied fields override, the id is kept. */
  function MergeUser(u: User, p: UserPatch): User {
    User(u.id, p.name.GetOr(u.name), p.email.GetOr(u.email), p.role.GetOr(u.role),
         p.status.GetOr(u.status), p.joined.GetOr(u.joined))
  }

  function PatchUser(p: UserPatch): User -> User {
    (u: User) => MergeUser(u, p)
  }

  /** `addUser`: appends the new user with id max+1 (1 when the list is empty),
      leaving the existing users in place. */
  function AddUser(us: seq<User>, data: UserData): (r: seq<User>)
    ensures |r| == |us| + 1
    ensures r[..|us|] == us
    ensures r[|us|] == data.WithId(r[|us|].id)
    ensures forall i :: 0 <= i < |us| ==> us[i].id < r[|us|].id
    ensures |us| == 0 ==> r[|us|].id == 1
    ensures |us| > 0 ==> exists i :: 0 <= i < |us| && r[|us|].id == us[i].id + 1
  {
    var ids := UserIds(us);
    var id := NextId(ids);
    assert forall i :: 0 <= i < |us| ==> ids[i] == us[i].id;
    assert |us| > 0 ==> exists i :: 0 <= i < |us| && id - 1 == ids[i];
    us + [data.WithId(id)]
  }

  /** `updateUser`: the users with the given id get the supplied fields, every other
      user and every other field is unchanged. */
  function UpdateUser(us: seq<User>, id: int, p: UserPatch): (r: seq<User>)
    ensures |r| == |us|
    ensures forall i :: 0 <= i < |us| && us[i].id != id ==> r[i] == us[i]
    ensures forall i :: 0 <= i < |us| && us[i].id == id ==>
              && r[i].id == id
              && r[i].name == (if p.name.Some? then p.name.value else us[i].name)
              && r[i].email == (if p.email.Some? then p.email.value else us[i].email)
              && r[i].role == (if p.role.Some? then p.role.value else us[i].role)
              && r[i].status == (if p.status.Some? then p.status.value else us[i].status)
              && r[i].joined == (if p.joined.Some? then p.joined.value else us[i].joined)
  {
    MapWhere(us, HasUserId(id), PatchUser(p))
  }

  /** `deleteUser`: drops every user with the given id and keeps the others. */
  function DeleteUser(us: seq<User>, id: int): (r: seq<User>)
    ensures forall i :: 0 <= i < |r| ==> r[i].id != id && r[i] in us
    ensures forall i :: 0 <= i < |us| && us[i].id != id ==> us[i] in r
    ensures forall x :: multiset(r)[x] == if x.id != id then multiset(us)[x] else 0
  {
    FilterCounts(us, NotUserId(id));
    Filter(us, NotUserId(id))
  }

  /** Adding a user keeps the ids pairwise distinct. */
  lemma AddUserKeepsIdsDistinct(us: seq<User>, data: UserData)
    requires DistinctUserIds(us)
    ensures DistinctUserIds(AddUser(us, data))
  {
    var r := AddUser(us, data);
    forall i, j | 0 <= i < j < |r|
      ensures UserIdsDiffer(r[i], r[j])
    {
      if j == |us| {
        assert r[i] == us[i];
      } else {
        assert r[i] == us[i] && r[j] == us[j];
      }
    }
  }

  /** Update on an absent id is a silent no-op; updating twice with the same patch is
      updating once; ids never change, so distinct ids stay distinct. */
  lemma UpdateUserFrame(us: seq<User>, id: int, p: UserPatch)
    ensures id !in UserIds(us) ==> UpdateUser(us, id, p) == us
    ensures UpdateUser(UpdateUser(us, id, p), id, p) == UpdateUser(us, id, p)
    ensures UserIds(UpdateUser(us, id, p)) == UserIds(us)
    ensures DistinctUserIds(us) ==> DistinctUserIds(UpdateUser(us, id, p))
  {
    if id !in UserIds(us) {
      assert forall i :: 0 <= i < |us| ==> us[i].id != id by {
        forall i | 0 <= i < |us| ensures us[i].id != id {
          assert UserIds(us)[i] == us[i].id;
        }
      }
      MapWhereNoneSelected(us, HasUserId(id), PatchUser(p));
    }
    MapWhereIdempotent(us, HasUserId(id), PatchUser(p));
    var r := UpdateUser(us, id, p);
    if DistinctUserIds(us) {
      forall i, j | 0 <= i < j < |r|
        ensures UserIdsDiffer(r[i], r[j])
      {
        assert r[i].id == us[i].id && r[j].id == us[j].id;
        assert UserIdsDiffer(us[i], us[j]);
      }
    }
  }

  /** Delete keeps the survivors in order, is idempotent, is a no-op on an absent id,
      and keeps distinct ids distinct. */
  lemma DeleteUserFrame(us: seq<User>, id: int)
    ensures Subseq(DeleteUser(us, id), us)
    ensures DeleteUser(DeleteUser(us, id), id) == DeleteUser(us, id)
    ensures id !in UserIds(us) ==> DeleteUser(us, id) == us
    ensures DistinctUserIds(us) ==> DistinctUserIds(DeleteUser(us, id))
  {
    FilterIsSubseq(us, NotUserId(id));
    FilterIdempotent(us, NotUserId(id));
    if id !in UserIds(us) {
      forall i | 0 <= i < |us| ensures NotUserId(id)(us[i]) {
        assert UserIds(us)[i] == us[i].id;
      }
      FilterKeepsAll(us, NotUserId(id));
    }
    if DistinctUserIds(us) {
      FilterPairwise(us, NotUserId(id), UserIdsDiffer);
    }
  }

  // ---------------------------------------------------------------------------
  // Materials

  /** Every material id is a decimal numeral, so `parseInt` reads it exactly. */
  ghost predicate NumericMaterialIds(ms: seq<Material>) {
    forall i :: 0 <= i < |ms| ==> IsDecimal(ms[i].id)
  }

  /** `ms.map(m => parseInt(m.id))`. */
  function MaterialIdValues(ms: seq<Material>): (vs: seq<int>)
    requires NumericMaterialIds(ms)
    ensures |vs| == |ms|
    ensures forall i :: 0 <= i < |ms| ==> vs[i] == DecimalValue(ms[i].id) >= 0
  {
    seq(|ms|, i requires 0 <= i < |ms| && NumericMaterialIds(ms) => DecimalValue(ms[i].id) as int)
  }

  predicate MaterialIdsDiffer(a: Material, b: Material) {
    a.id != b.id
  }

  ghost predicate DistinctMaterialIds(ms: seq<Material>) {
    Pairwise(ms, MaterialIdsDiffer)
  }

  function HasMaterialId(id: string): Material -> bool {
    (m: Material) => m.id == id
  }

  function NotMaterialId(id: string): Material -> bool {
    (m: Material) => m.id != id
  }

  function MergeMaterial(m: Material, p: MaterialPatch): Material {
    Material(m.id, p.title.GetOr(m.title), p.category.GetOr(m.category), p.date.GetOr(m.date),
             p.accessLevel.GetOr(m.accessLevel), p.views.GetOr(m.views))
  }

  function PatchMaterial(p: MaterialPatch): Material -> Material {
    (m: Material) => MergeMaterial(m, p)
  }

  /** The id `addMaterial` assigns: the numeral of (largest parsed id) + 1, or "1". */
  function NextMaterialId(ms: seq<Material>): (id: string)
    requires NumericMaterialIds(ms)
    ensures IsDecimal(id)
    ensures id[0] != '0'
    ensures |ms| == 0 ==> id == "1"
    ensures forall i :: 0 <= i < |ms| ==> DecimalValue(ms[i].id) < DecimalValue(id)
    ensures |ms| > 0 ==> exists i :: 0 <= i < |ms| && DecimalValue(id) == DecimalValue(ms[i].id) + 1
  {
    var vs := MaterialIdValues(ms);
    var n := NextId(vs);
    assert |ms| > 0 ==> exists i :: 0 <= i < |ms| && n - 1 == vs[i];
    assert n >= 1;
    NatToDecimal(n)
  }

  /** `addMaterial`: appends the new material under a fresh numeric id. */
  function AddMaterial(ms: seq<Material>, data: MaterialData): (r: seq<Material>)
    requires NumericMaterialIds(ms)
    ensures |r| == |ms| + 1
    ensures r[..|ms|] == ms
    ensures r[|ms|] == data.WithId(r[|ms|].id)
    ensures r[|ms|].id == NextMaterialId(ms)
    ensures IsDecimal(r[|ms|].id)
    ensures forall i :: 0 <= i < |ms| ==> ms[i].id != r[|ms|].id
    ensures NumericMaterialIds(r)
  {
    var id := NextMaterialId(ms);
    ms + [data.WithId(id)]
  }

  /** `updateMaterial`: shallow merge on the materials with the given id. */
  function UpdateMaterial(ms: seq<Material>, id: string, p: MaterialPatch): (r: seq<Material>)
    ensures |r| == |ms|
    ensures forall i :: 0 <= i < |ms| && ms[i].id != id ==> r[i] == ms[i]
    ensures forall i :: 0 <= i < |ms| && ms[i].id == id ==>
              && r[i].id == id
              && r[i].title == (if p.title.Some? then p.title.value else ms[i].title)
              && r[i].category == (if p.category.Some? then p.category.value else ms[i].category)
              && r[i].date == (if p.date.Some? then p.date.value else ms[i].date)
              && r[i].accessLevel == (if p.accessLevel.Some? then p.accessLevel.value else ms[i].accessLevel)
              && r[i].views == (if p.views.Some? then p.views.value else ms[i].views)
  {
    MapWhere(ms, HasMaterialId(id), PatchMaterial(p))
  }

  /** `deleteMaterial`: drops every material with the given id. */
  function DeleteMaterial(ms: seq<Material>, id: string): (r: seq<Material>)
    ensures forall i :: 0 <= i < |r| ==> r[i].id != id && r[i] in ms
    ensures forall i :: 0 <= i < |ms| && ms[i].id != id ==> ms[i] in r
    ensures forall x :: multiset(r)[x] == if x.id != id then multiset(ms)[x] else 0
  {
    FilterCounts(ms, NotMaterialId(id));
    Filter(ms, NotMaterialId(id))
  }

  lemma AddMaterialKeepsIdsDistinct(ms: seq<Material>, data: MaterialData)
    requires NumericMaterialIds(ms)
    requires DistinctMaterialIds(ms)
    ensures DistinctMaterialIds(AddMaterial(ms, data))
  {
    var r := AddMaterial(ms, data);
    forall i, j | 0 <= i < j < |r|
      ensures MaterialIdsDiffer(r[i], r[j])
    {
      if j == |ms| {
        assert r[i] == ms[i];
      } else {
        assert r[i] == ms[i] && r[j] == ms[j];
      }
    }
  }

  lemma UpdateMaterialFrame(ms: seq<Material>, id: string, p: MaterialPatch)
    ensures (forall i :: 0 <= i < |ms| ==> ms[i].id != id) ==> UpdateMaterial(ms, id, p) == ms
    ensures UpdateMaterial(UpdateMaterial(ms, id, p), id, p) == UpdateMaterial(ms, id, p)
    ensures forall i :: 0 <= i < |ms| ==> UpdateMaterial(ms, id, p)[i].id == ms[i].id
    ensures DistinctMaterialIds(ms) ==> DistinctMaterialIds(UpdateMaterial(ms, id, p))
    ensures NumericMaterialIds(ms) ==> NumericMaterialIds(UpdateMaterial(ms, id, p))
  {
    if forall i :: 0 <= i < |ms| ==> ms[i].id != id {
      MapWhereNoneSelected(ms, HasMaterialId(id), PatchMaterial(p));
    }
    MapWhereIdempotent(ms, HasMaterialId(id), PatchMaterial(p));
    var r := UpdateMaterial(ms, id, p);
    if DistinctMaterialIds(ms) {
      forall i, j | 0 <= i < j < |r|
        ensures MaterialIdsDiffer(r[i], r[j])
      {
        assert MaterialIdsDiffer(ms[i], ms[j]);
      }
    }
  }

  lemma DeleteMaterialFrame(ms: seq<Material>, id: string)
    ensures Subseq(DeleteMaterial(ms, id), ms)
    ensures DeleteMaterial(DeleteMaterial(ms, id), id) == DeleteMaterial(ms, id)
    ensures (forall i :: 0 <= i < |ms| ==> ms[i].id != id) ==> DeleteMaterial(ms, id) == ms
    ensures DistinctMaterialIds(ms) ==> DistinctMaterialIds(DeleteMaterial(ms, id))
  {
    FilterIsSubseq(ms, NotMaterialId(id));
    FilterIdempotent(ms, NotMaterialId(id));
    if forall i :: 0 <= i < |ms| ==> ms[i].id != id {
      FilterKeepsAll(ms, NotMaterialId(id));
    }
    if DistinctMaterialIds(ms) {
      FilterPairwise(ms, NotMaterialId(id), MaterialIdsDiffer);
    }
  }

  // ---------------------------------------------------------------------------
  // Categories

  function CategoryIds(cs: seq<Category>): seq<int> {
    seq(|cs|, i requires 0 <= i < |cs| => cs[i].id)
  }

  predicate CategoryIdsDiffer(a: Category, b: Category) {
    a.id != b.id
  }

  ghost predicate DistinctCategoryIds(cs: seq<Category>) {
    Pairwise(cs, CategoryIdsDiffer)
  }

  function HasCategoryId(id: int): Category -> bool {
    (c: Category) => c.id == id
  }

  function NotCategoryId(id: int): Category -> bool {
    (c: Category) => c.id != id
  }

  function MergeCategory(c: Category, p: CategoryPatch): Category {
    Category(c.id, p.name.GetOr(c.name), p.count.GetOr(c.count), p.items.GetOr(c.items),
             p.lastUpdated.GetOr(c.lastUpdated))
  }

  function PatchCategory(p: CategoryPatch): Category -> Category {
    (c: Category) => MergeCategory(c, p)
  }

  /** `addCategory`: appends the new category with id max+1 (1 when the list is empty). */
  function AddCategory(cs: seq<Category>, data: CategoryData): (r: seq<Category>)
    ensures |r| == |cs| + 1
    ensures r[..|cs|] == cs
    ensures r[|cs|] == data.WithId(r[|cs|].id)
    ensures forall i :: 0 <= i < |cs| ==> cs[i].id < r[|cs|].id
    ensures |cs| == 0 ==> r[|cs|].id == 1
    ensures |cs| > 0 ==> exists i :: 0 <= i < |cs| && r[|cs|].id == cs[i].id + 1
  {
    var ids := CategoryIds(cs);
    var id := NextId(ids);
    assert forall i :: 0 <= i < |cs| ==> ids[i] == cs[i].id;
    assert |cs| > 0 ==> exists i :: 0 <= i < |cs| && id - 1 == ids[i];
    cs + [data.WithId(id)]
  }

  /** `updateCategory`: shallow merge on the categories with the given id. */
  function UpdateCategory(cs: seq<Category>, id: int, p: CategoryPatch): (r: seq<Category>)
    ensures |r| == |cs|
    ensures forall i :: 0 <= i < |cs| && cs[i].id != id ==> r[i] == cs[i]
    ensures forall i :: 0 <= i < |cs| && cs[i].id == id ==>
              && r[i].id == id
              && r[i].name == (if p.name.Some? then p.name.value else cs[i].name)
              && r[i].count == (if p.count.Some? then p.count.value else cs[i].count)
              && r[i].items == (if p.items.Some? then p.items.value else cs[i].items)
              && r[i].lastUpdated == (if p.lastUpdated.Some? then p.lastUpdated.value else cs[i].lastUpdated)
  {
    MapWhere(cs, HasCategoryId(id), PatchCategory(p))
  }

  /** `deleteCategory`: drops every category with the given id. */
  function DeleteCategory(cs: seq<Category>, id: int): (r: seq<Category>)
    ensures forall i :: 0 <= i < |r| ==> r[i].id != id && r[i] in cs
    ensures forall i :: 0 <= i < |cs| && cs[i].id != id ==> cs[i] in r
    ensures forall x :: multiset(r)[x] == if x.id != id then multiset(cs)[x] else 0
  {
    FilterCounts(cs, NotCategoryId(id));
    Filter(cs, NotCategoryId(id))
  }

  lemma AddCategoryKeepsIdsDistinct(cs: seq<Category>, data: CategoryData)
    requires DistinctCategoryIds(cs)
    ensures DistinctCategoryIds(AddCategory(cs, data))
  {
    var r := AddCategory(cs, data);
    forall i, j | 0 <= i < j < |r|
      ensures CategoryIdsDiffer(r[i], r[j])
    {
      if j == |cs| {
        assert r[i] == cs[i];
      } else {
        assert r[i] == cs[i] && r[j] == cs[j];
      }
    }
  }

  lemma UpdateCategoryFrame(cs: seq<Category>, id: int, p: CategoryPatch)
    ensures id !in CategoryIds(cs) ==> UpdateCategory(cs, id, p) == cs
    ensures UpdateCategory(UpdateCategory(cs, id, p), id, p) == UpdateCategory(cs, id, p)
    ensures CategoryIds(UpdateCategory(cs, id, p)) == CategoryIds(cs)
    ensures DistinctCategoryIds(cs) ==> DistinctCategoryIds(UpdateCategory(cs, id, p))
  {
    if id !in CategoryIds(cs) {
      forall i | 0 <= i < |cs| ensures cs[i].id != id {
        assert CategoryIds(cs)[i] == cs[i].id;
      }
      MapWhereNoneSelected(cs, HasCategoryId(id), PatchCategory(p));
    }
    MapWhereIdempotent(cs, HasCategoryId(id), PatchCategory(p));
    var r := UpdateCategory(cs, id, p);
    if DistinctCategoryIds(cs) {
      forall i, j | 0 <= i < j < |r|
        ensures CategoryIdsDiffer(r[i], r[j])
      {
        assert CategoryIdsDiffer(cs[i], cs[j]);
      }
    }
  }

  lemma DeleteCategoryFrame(cs: seq<Category>, id: int)
    ensures Subseq(DeleteCategory(cs, id), cs)
    ensures DeleteCategory(DeleteCategory(cs, id), id) == DeleteCategory(cs, id)
    ensures id !in CategoryIds(cs) ==> DeleteCategory(cs, id) == cs
    ensures DistinctCategoryIds(cs) ==> DistinctCategoryIds(DeleteCategory(cs, id))
  {
    FilterIsSubseq(cs, NotCategoryId(id));
    FilterIdempotent(cs, NotCategoryId(id));
    if id !in CategoryIds(cs) {
      forall i | 0 <= i < |cs| ensures NotCategoryId(id)(cs[i]) {
        assert CategoryIds(cs)[i] == cs[i].id;
      }
      FilterKeepsAll(cs, NotCategoryId(id));
    }
    if DistinctCategoryIds(cs) {
      FilterPairwise(cs, NotCategoryId(id), CategoryIdsDiffer);
    }
  }

  // ---------------------------------------------------------------------------
  // The store as a whole

  datatype CatalogState = CatalogState(users: seq<User>, materials: seq<Material>,
                                       categories: seq<Category>)

  /** The provider's initial state: each list loaded from storage, or its seed list. */
  function LoadCatalog(storage: Storage.Storage,
                       parseUsers: string -> Option<seq<User>>,
                       parseMaterials: string -> Option<seq<Material>>,
                       parseCategories: string -> Option<seq<Category>>): (s: CatalogState)
    ensures Storage.UsersKey in storage && storage[Storage.UsersKey] != "" && parseUsers(storage[Storage.UsersKey]).Some?
            ==> s.users == parseUsers(storage[Storage.UsersKey]).value
    ensures !(Storage.UsersKey in storage && storage[Storage.UsersKey] != "" && parseUsers(storage[Storage.UsersKey]).Some?)
            ==> s.users == InitialUsers
    ensures Storage.MaterialsKey in storage && storage[Storage.MaterialsKey] != "" && parseMaterials(storage[Storage.MaterialsKey]).Some?
            ==> s.materials == parseMaterials(storage[Storage.MaterialsKey]).value
    ensures !(Storage.MaterialsKey in storage && storage[Storage.MaterialsKey] != "" && parseMaterials(storage[Storage.MaterialsKey]).Some?)
            ==> s.materials == InitialMaterials
    ensures Storage.CategoriesKey in storage && storage[Storage.CategoriesKey] != "" && parseCategories(storage[Storage.CategoriesKey]).Some?
            ==> s.categories == parseCategories(storage[Storage.CategoriesKey]).value
    ensures !(Storage.CategoriesKey in storage && storage[Storage.CategoriesKey] != "" && parseCategories(storage[Storage.CategoriesKey]).Some?)
            ==> s.categories == InitialCategories
  {
    CatalogState(
      Storage.LoadFromStorage(storage, Storage.UsersKey, parseUsers, InitialUsers),
      Storage.LoadFromStorage(storage, Storage.MaterialsKey, parseMaterials, InitialMaterials),
      Storage.LoadFromStorage(storage, Storage.CategoriesKey, parseCategories, InitialCategories))
  }

  /** The provider's persistence effects: each list is written, serialised, under its key. */
  function PersistCatalog(storage: Storage.Storage, s: CatalogState,
                          showUsers: seq<User> -> string,
                          showMaterials: seq<Material> -> string,
                          showCategories: seq<Category> -> string): (r: Storage.Storage)
    ensures Storage.UsersKey in r && r[Storage.UsersKey] == showUsers(s.users)
    ensures Storage.MaterialsKey in r && r[Storage.MaterialsKey] == showMaterials(s.materials)
    ensures Storage.CategoriesKey in r && r[Storage.CategoriesKey] == showCategories(s.categories)
    ensures forall k :: k in storage && k != Storage.UsersKey && k != Storage.MaterialsKey && k != Storage.CategoriesKey
              ==> k in r && r[k] == storage[k]
    ensures forall k :: k in r ==> k == Storage.UsersKey || k == Storage.MaterialsKey || k == Storage.CategoriesKey || k in storage
  {
    var r1 := Storage.Save(storage, Storage.UsersKey, showUsers, s.users);
    var r2 := Storage.Save(r1, Storage.MaterialsKey, showMaterials, s.materials);
    Storage.Save(r2, Storage.CategoriesKey, showCategories, s.categories)
  }

  /** A reload restores the persisted catalog, whenever the codecs round-trip the lists and
      serialise them to non-empty text. */
  lemma PersistThenLoad(storage: Storage.Storage, s: CatalogState,
                        showUsers: seq<User> -> string, parseUsers: string -> Option<seq<User>>,
                        showMaterials: seq<Material> -> string, parseMaterials: string -> Option<seq<Material>>,
                        showCategories: seq<Category> -> string, parseCategories: string -> Option<seq<Category>>)
    requires parseUsers(showUsers(s.users)) == Some(s.users) && showUsers(s.users) != ""
    requires parseMaterials(showMaterials(s.materials)) == Some(s.materials) && showMaterials(s.materials) != ""
    requires parseCategories(showCategories(s.categories)) == Some(s.categories) && showCategories(s.categories) != ""
    ensures LoadCatalog(PersistCatalog(storage, s, showUsers, showMaterials, showCategories),
                        parseUsers, parseMaterials, parseCategories) == s
  {
  }

  /** The seed lists satisfy the id invariants the operations preserve. */
  lemma SeedIdsDistinct()
    ensures DistinctUserIds(InitialUsers)
    ensures NumericMaterialIds(InitialMaterials) && DistinctMaterialIds(InitialMaterials)
    ensures DistinctCategoryIds(InitialCategories)
  {
    SeedUserIds();
    SeedMaterialIds();
    SeedCategoryIds();
  }

  lemma SeedUserIds()
    ensures DistinctUserIds(InitialUsers)
  {
    assert forall i :: 0 <= i < |InitialUsers| ==> InitialUsers[i].id == i + 1;
  }

  lemma SeedMaterialIds()
    ensures NumericMaterialIds(InitialMaterials) && DistinctMaterialIds(InitialMaterials)
  {
    assert forall i :: 0 <= i < |InitialMaterials| ==> IsDecimal(InitialMaterials[i].id) by {
      forall i | 0 <= i < |InitialMaterials| ensures IsDecimal(InitialMaterials[i].id) {
        assert |InitialMaterials[i].id| == 1;
      }
    }
  }

  lemma SeedCategoryIds()
    ensures DistinctCategoryIds(InitialCategories)
  {
    assert forall i :: 0 <= i < |InitialCategories| ==> InitialCategories[i].id == i + 1;
  }
}
