/** The signed-in session kept by the authentication provider: the record built at login,
    logout, the "is authenticated" flag and the saved-items toggle. The session is mirrored
    in browser storage under one key; serialisation is supplied by the caller. */
module Auth {
  import opened Wrappers
  import opened Seqs
  import opened Text
  import Storage

  datatype Role = Admin | Student | Researcher

  /** The session user. `avatar` and `savedItems` are optional fields of the stored record. */
  datatype SessionUser = SessionUser(id: string, name: string, email: string, role: Role,
                                     avatar: Option<string>, savedItems: Option<seq<string>>)

  /** The provider's state: the signed-in user, if any, and the storage it mirrors into. */
  datatype AuthState = AuthState(user: Option<SessionUser>, storage: Storage.Storage)

  const SessionKey: string := "iarchive_user"
  const LoginUserId: string := "u123"
  const AvatarBase: string := "https://api.dicebear.com/7.x/avataaars/svg?seed="

  // ---------------------------------------------------------------------------
  // The login record

  /** `email.split("@")[0]`: the text before the first '@', or the whole text when it has
      none. */
  function LocalPart(email: string): (r: string)
    ensures r <= email
    ensures '@' !in r
    ensures |r| < |email| ==> email[|r|] == '@'
  {
    if |email| == 0 || email[0] == '@' then ""
    else [email[0]] + LocalPart(email[1..])
  }

  /** `s.charAt(0).toUpperCase() + s.slice(1)`: only the case of the first character may
      change, and it is no longer a lowercase letter. */
  function Capitalize(s: string): (r: string)
    ensures |r| == |s|
    ensures Lower(r) == Lower(s)
    ensures |s| > 0 ==> !IsLower(r[0]) && r[1..] == s[1..]
  {
    if |s| == 0 then "" else [UpperChar(s[0])] + s[1..]
  }

  /** The record `login(email, role)` creates: the fixed id, the given email and role, the
      display name taken from the local part of the email, an avatar seeded by the email
      and an empty saved list. */
  function NewUser(email: string, role: Role): (u: SessionUser)
    ensures u.id == LoginUserId && u.email == email && u.role == role
    ensures u.savedItems == Some([])
    ensures u.avatar == Some(AvatarBase + email)
    ensures |u.name| == |LocalPart(email)|
    ensures |u.name| > 0 ==> u.name[0] == UpperChar(LocalPart(email)[0]) && u.name[1..] == LocalPart(email)[1..]
    ensures Lower(u.name) == Lower(LocalPart(email))
    ensures '@' !in u.name
    ensures '@' in email ==> |u.name| < |email|
  {
    SessionUser(LoginUserId, Capitalize(LocalPart(email)), email, role,
                Some(AvatarBase + email), Some([]))
  }

  /** `login`: the new record becomes the session and is written to storage. */
  function Login(st: AuthState, email: string, role: Role, serialize: SessionUser -> string): (r: AuthState)
    ensures r.user == Some(NewUser(email, role))
    ensures IsAuthenticated(r)
    ensures SessionKey in r.storage && r.storage[SessionKey] == serialize(NewUser(email, role))
    ensures forall k :: k in st.storage && k != SessionKey ==> k in r.storage && r.storage[k] == st.storage[k]
    ensures forall k :: k in r.storage ==> k == SessionKey || k in st.storage
  {
    var u := NewUser(email, role);
    AuthState(Some(u), Storage.Save(st.storage, SessionKey, serialize, u))
  }

  /** `logout`: no session, and the stored copy is removed. */
  function Logout(st: AuthState): (r: AuthState)
    ensures !IsAuthenticated(r)
    ensures SessionKey !in r.storage
    ensures forall k :: k in st.storage && k != SessionKey ==> k in r.storage && r.storage[k] == st.storage[k]
    ensures forall k :: k in r.storage ==> k in st.storage
  {
    AuthState(None, st.storage - {SessionKey})
  }

  /** `isAuthenticated: !!user`. */
  predicate IsAuthenticated(st: AuthState) {
    st.user.Some?
  }

  /** The provider's start-up effect: a non-empty stored record becomes the session. `parse`
      returns `None` where `JSON.parse` yields `null` (the stored text "null"). */
  function Restore(storage: Storage.Storage, parse: string -> Option<SessionUser>): (r: AuthState)
    ensures r.storage == storage
    ensures IsAuthenticated(r) <==> SessionKey in storage && storage[SessionKey] != "" && parse(storage[SessionKey]).Some?
    ensures IsAuthenticated(r) ==> r.user == parse(storage[SessionKey])
  {
    if SessionKey in storage && storage[SessionKey] != "" then AuthState(parse(storage[SessionKey]), storage)
    else AuthState(None, storage)
  }

  /** A session survives a reload: restoring from what login stored gives the same user,
      and restoring after logout gives no user. */
  lemma LoginSurvivesReload(st: AuthState, email: string, role: Role,
                            serialize: SessionUser -> string, parse: string -> Option<SessionUser>)
    requires parse(serialize(NewUser(email, role))) == Some(NewUser(email, role))
    requires serialize(NewUser(email, role)) != ""
    ensures Restore(Login(st, email, role, serialize).storage, parse).user == Login(st, email, role, serialize).user
    ensures !IsAuthenticated(Restore(Logout(Login(st, email, role, serialize)).storage, parse))
  {
  }

  /** Which operations change the "authenticated" flag: login sets it, logout clears it,
      and toggling a saved item leaves it as it was. */
  lemma AuthenticationFollowsSession(st: AuthState, email: string, role: Role, itemId: string,
                                     serialize: SessionUser -> string)
    ensures IsAuthenticated(Login(st, email, role, serialize))
    ensures !IsAuthenticated(Logout(st))
    ensures IsAuthenticated(ToggleSave(st, itemId, serialize)) <==> IsAuthenticated(st)
  {
  }

  /** The local part ends at the first '@'. */
  lemma {:induction false} LocalPartAt(email: string, i: nat)
    requires i < |email| && email[i] == '@' && '@' !in email[..i]
    ensures LocalPart(email) == email[..i]
    decreases i
  {
    if i > 0 {
      assert email[0] != '@' by { assert email[..i][0] == email[0]; }
      assert email[1..][..i - 1] == email[..i][1..];
      LocalPartAt(email[1..], i - 1);
      assert email[..i] == [email[0]] + email[1..][..i - 1];
    }
  }

  lemma SampleLocalPart()
    ensures LocalPart("maria@email.com") == "maria"
  {
    var email := "maria@email.com";
    assert email[..5] == "maria";
    LocalPartAt(email, 5);
  }

  lemma SampleCapitalized()
    ensures Capitalize("maria") == "Maria"
  {
    assert UpperChar('m') == 'M';
    assert "maria"[1..] == "aria";
  }

  /** The name shown for a sample address. */
  lemma LoginNameExample()
    ensures NewUser("maria@email.com", Student).name == "Maria"
  {
    SampleLocalPart();
    SampleCapitalized();
  }

  // ---------------------------------------------------------------------------
  // Saved items

  function NotItem(itemId: string): string -> bool {
    (x: string) => x != itemId
  }

  function Differ(): (string, string) -> bool {
    (a: string, b: string) => a != b
  }

  /** No item id occurs twice. */
  ghost predicate DistinctItems(s: seq<string>) {
    Pairwise(s, Differ())
  }

  /** The saved-list step of `toggleSave`: a saved item is removed (every occurrence), an
      unsaved one is appended at the end. */
  function ToggleSaved(saved: seq<string>, itemId: string): (r: seq<string>)
    ensures itemId in r <==> itemId !in saved
    ensures forall i :: 0 <= i < |saved| && saved[i] != itemId ==> saved[i] in r
    ensures forall i :: 0 <= i < |r| && r[i] != itemId ==> r[i] in saved
    ensures itemId !in saved ==> r == saved + [itemId]
    ensures itemId in saved ==> Subseq(r, saved) && |r| < |saved|
    ensures itemId in saved ==> multiset(r) == multiset(saved)[itemId := 0]
  {
    if itemId in saved then
      var r := Filter(saved, NotItem(itemId));
      FilterOutMultiset(saved, itemId);
      FilterIsSubseq(saved, NotItem(itemId));
      FilterShrinks(saved, NotItem(itemId));
      r
    else saved + [itemId]
  }

  /** A filter that rejects some element is strictly shorter than its input. */
  lemma {:induction false} FilterShrinks<T>(xs: seq<T>, p: T -> bool)
    requires exists i :: 0 <= i < |xs| && !p(xs[i])
    ensures |Filter(xs, p)| < |xs|
    decreases |xs|
  {
    if p(xs[0]) {
      var i :| 0 <= i < |xs| && !p(xs[i]);
      assert xs[1..][i - 1] == xs[i];
      FilterShrinks(xs[1..], p);
    }
  }

  /** `user.savedItems || []`. */
  function SavedOrEmpty(u: SessionUser): seq<string> {
    u.savedItems.GetOr([])
  }

  /** `toggleSave(itemId)`: without a session nothing happens; otherwise only the saved list
      changes, and the updated record is written to storage. */
  function ToggleSave(st: AuthState, itemId: string, serialize: SessionUser -> string): (r: AuthState)
    ensures st.user.None? ==> r == st
    ensures st.user.Some? ==> r.user.Some?
    ensures st.user.Some? ==> r.user.value.(savedItems := st.user.value.savedItems) == st.user.value
    ensures st.user.Some? ==> r.user.value.savedItems == Some(ToggleSaved(SavedOrEmpty(st.user.value), itemId))
    ensures st.user.Some? ==> SessionKey in r.storage && r.storage[SessionKey] == serialize(r.user.value)
    ensures forall k :: k in st.storage && k != SessionKey ==> k in r.storage && r.storage[k] == st.storage[k]
    ensures forall k :: k in r.storage ==> k == SessionKey || k in st.storage
  {
    match st.user
    case None => st
    case Some(u) =>
      var updated := u.(savedItems := Some(ToggleSaved(SavedOrEmpty(u), itemId)));
      AuthState(Some(updated), Storage.Save(st.storage, SessionKey, serialize, updated))
  }

  /** Toggling an unsaved item twice restores the saved list. */
  lemma ToggleTwiceUnsaved(saved: seq<string>, itemId: string)
    requires itemId !in saved
    ensures ToggleSaved(ToggleSaved(saved, itemId), itemId) == saved
  {
    var p := NotItem(itemId);
    FilterConcat(saved, [itemId], p);
    FilterSingleton(itemId, p);
    FilterKeepsAll(saved, p);
  }

  /** Toggling a saved item twice moves it to the end: the other items keep their order and,
      in a list without repeats, the result is a rearrangement of the original. */
  lemma ToggleTwiceSaved(saved: seq<string>, itemId: string)
    requires itemId in saved
    ensures ToggleSaved(ToggleSaved(saved, itemId), itemId) == Filter(saved, NotItem(itemId)) + [itemId]
    ensures DistinctItems(saved) ==> multiset(ToggleSaved(ToggleSaved(saved, itemId), itemId)) == multiset(saved)
  {
    var rest := Filter(saved, NotItem(itemId));
    assert itemId !in rest;
    FilterOutMultiset(saved, itemId);
    if DistinctItems(saved) {
      DistinctOccursOnce(saved, itemId);
      assert multiset(rest + [itemId]) == multiset(saved)[itemId := 0] + multiset{itemId};
    }
  }

  /** Filtering "a" out of ["a", "b"] leaves ["b"]. */
  lemma RemoveFirstOfTwo()
    ensures Filter(["a", "b"], NotItem("a")) == ["b"]
  {
    var ab: seq<string> := ["a", "b"];
    var p := NotItem("a");
    assert ab == ["a"] + ["b"];
    FilterCons("a", ["b"], p);
    FilterSingleton("b", p);
  }

  /** So toggling twice is not the identity: with "a" saved before "b", toggling "a" twice
      puts it after "b". */
  lemma ToggleTwiceReorders()
    ensures ToggleSaved(ToggleSaved(["a", "b"], "a"), "a") == ["b", "a"]
  {
    var ab: seq<string> := ["a", "b"];
    RemoveFirstOfTwo();
    assert ToggleSaved(ab, "a") == ["b"] by {
      assert "a" in ab by { assert ab[0] == "a"; }
    }
    assert ToggleSaved(["b"], "a") == ["b", "a"] by {
      assert "a" !in ["b"];
    }
  }

  /** Filtering out one value removes exactly its occurrences from the multiset. */
  lemma {:induction false} FilterOutMultiset(xs: seq<string>, x: string)
    ensures multiset(Filter(xs, NotItem(x))) == multiset(xs)[x := 0]
    decreases |xs|
  {
    if |xs| > 0 {
      FilterOutMultiset(xs[1..], x);
      assert xs == [xs[0]] + xs[1..];
      assert multiset(xs) == multiset{xs[0]} + multiset(xs[1..]);
    }
  }

  /** In a list without repeats, a present item occurs exactly once. */
  lemma {:induction false} DistinctOccursOnce(xs: seq<string>, x: string)
    requires DistinctItems(xs) && x in xs
    ensures multiset(xs)[x] == 1
    decreases |xs|
  {
    assert xs == [xs[0]] + xs[1..];
    assert multiset(xs) == multiset{xs[0]} + multiset(xs[1..]);
    assert DistinctItems(xs[1..]) by {
      forall i, j | 0 <= i < j < |xs[1..]|
        ensures Differ()(xs[1..][i], xs[1..][j])
      {
        assert xs[1..][i] == xs[i + 1] && xs[1..][j] == xs[j + 1];
      }
    }
    if xs[0] == x {
      forall k | 0 <= k < |xs[1..]|
        ensures xs[1..][k] != x
      {
        assert xs[1..][k] == xs[k + 1];
        assert Differ()(xs[0], xs[k + 1]);
      }
      assert x !in multiset(xs[1..]);
    } else {
      DistinctOccursOnce(xs[1..], x);
    }
  }

  /** Toggling keeps the saved list free of repeats. */
  lemma ToggleKeepsDistinct(saved: seq<string>, itemId: string)
    requires DistinctItems(saved)
    ensures DistinctItems(ToggleSaved(saved, itemId))
  {
    if itemId in saved {
      FilterPairwise(saved, NotItem(itemId), Differ());
    } else {
      var r := saved + [itemId];
      forall i, j | 0 <= i < j < |r|
        ensures Differ()(r[i], r[j])
      {
        if j == |saved| {
          assert r[i] == saved[i];
        } else {
          assert r[i] == saved[i] && r[j] == saved[j];
        }
      }
    }
  }
}
