/** Alias safety: what the capture tables promise once identities are canonical addresses. */
module CaptureIdentity {
  import opened Models
  import opened CanonicalUrl
  import opened CanonicalIdentity
  import opened Captures
  import opened CaptureStore
  import CreateOnce
  import Url

  lemma EmptyIsItself()
    ensures CanonicalizeArchiveURL("") == ""
  {
    Url.CutNone("", '#');
    Url.CutNone("", ':');
  }

  lemma IdentityNonempty(url: string)
    requires url != ""
    ensures CanonicalizeArchiveURL(url) != ""
  {
  }

  /** A row a lookup reaches has the identity looked up, outside the two families where the lookup is too wide. */
  lemma ReachesIsIdentity(u: string, r: string)
    requires Reaches(CanonicalizeArchiveURL, u, r) && u != "" && !ReadsDifferentlyTwice(u)
    ensures CanonicalizeArchiveURL(r) == CanonicalizeArchiveURL(u)
  {
    IdentityNonempty(u);
    CanonicalTwice(u);
  }

  /** In every reachable state an alias and its target are spellings of one identity. */
  lemma AliasSharesIdentity(t: Tables, k: nat)
    requires Ok(t, CanonicalizeArchiveURL) && k < |t.captures| && t.captures[k].aliasOf.Some?
    ensures var a := t.captures[k].aliasOf.value;
            && a < |t.captures| && t.captures[a].aliasOf.None?
            && (forall i :: 0 <= i < |t.items| ==> t.items[i].captureID != k)
            && t.captures[k].urlID < |t.urls| && t.captures[a].urlID < |t.urls|
            && var u := t.urls[t.captures[k].urlID].original;
               u != "" && !ReadsDifferentlyTwice(u) ==>
                 CanonicalizeArchiveURL(t.urls[t.captures[a].urlID].original) == CanonicalizeArchiveURL(u)
  {
    assert AliasOk(t.urls, t.captures, CanonicalizeArchiveURL, k);
    var u := t.urls[t.captures[k].urlID].original;
    if u != "" && !ReadsDifferentlyTwice(u) {
      ReachesIsIdentity(u, t.urls[t.captures[t.captures[k].aliasOf.value].urlID].original);
    }
  }

  /** Capture k of valid tables is an alias for the spelling u. */
  ghost predicate IsAlias(t: Tables, id: Canonicalizer, k: nat, u: string) {
    Ok(t, id) && k < |t.captures| && t.captures[k].aliasOf.Some? && Spelling(t, k) == u
  }

  /** What a capture was submitted as. */
  function Spelling(t: Tables, k: nat): string {
    if k < |t.captures| && t.captures[k].urlID < |t.urls| then t.urls[t.captures[k].urlID].original else ""
  }

  ghost predicate AliasesShare(u: string) {
    forall t, k: nat :: IsAlias(t, CanonicalizeArchiveURL, k, u) ==>
      CanonicalizeArchiveURL(Spelling(t, t.captures[k].aliasOf.value)) == CanonicalizeArchiveURL(u)
  }

  /** Two captures, the second an alias of the first. */
  function Pair(first: UrlRow, second: UrlRow): Tables {
    Tables([first, second], [Capture(0, "a", 0, None), Capture(1, "b", 0, Some(0))], [])
  }

  lemma PairIsAlias(first: UrlRow, second: UrlRow, id: Canonicalizer)
    requires first.original != second.original && Reaches(id, second.original, first.original)
    requires CanonicalOk(first, id) && CanonicalOk(second, id)
    ensures var t := Pair(first, second);
            IsAlias(t, id, 1, second.original) && t.captures[1].aliasOf == Some(0) && Spelling(t, 0) == first.original
  {
    var t := Pair(first, second);
    assert t.captures[0].shortID[0] != t.captures[1].shortID[0];
    assert AliasOk(t.urls, t.captures, id, 0) && AliasOk(t.urls, t.captures, id, 1);
  }

  /** The exclusion is needed: for each excluded address some valid tables hold an alias into another identity. */
  lemma AliasesShareExactly(u: string)
    ensures AliasesShare(u) <==> u != "" && !ReadsDifferentlyTwice(u)
  {
    if u == "" {
      EmptyIsItself();
      IdentityNonempty("x");
      PairIsAlias(UrlRow("x", None), UrlRow(u, None), CanonicalizeArchiveURL);
    } else if ReadsDifferentlyTwice(u) {
      CanonicalTwice(u);
      PairIsAlias(UrlRow(CanonicalizeArchiveURL(u), None), UrlRow(u, None), CanonicalizeArchiveURL);
    } else {
      forall t, k: nat | IsAlias(t, CanonicalizeArchiveURL, k, u)
        ensures CanonicalizeArchiveURL(Spelling(t, t.captures[k].aliasOf.value)) == CanonicalizeArchiveURL(u)
      {
        AliasSharesIdentity(t, k);
      }
    }
  }

  // ----- The folding family, by two submissions

  /** A submission's pending items cover its own types. */
  lemma OwnTypesCovered(r: Request, exact: Option<nat>)
    requires IsExact([], r.url, exact)
    ensures CoversAll(Inserted(Tables([], [], []), r, exact, None).items, 0, r.types)
  {
    var items := PendingItems(0, r.types, r.now);
    assert [] + items == items;
    forall i | 0 <= i < |r.types| ensures HasUnfailed(items, 0, r.types[i]) {
      CreateOnce.PendingByType([], 0, r.types, r.now, i);
      assert FAILED[0] != PENDING[0];
    }
  }

  /** After one submission, a second whose identity is the first one's address can only become its alias. */
  lemma OnlyTarget(first: Request, second: Request, exact: Option<nat>, since: int, reusable: Option<nat>, listed: seq<nat>)
    requires IsExact([], first.url, exact)
    requires second.canonical == first.url && second.types == first.types && first.now > since
    ensures var t := Inserted(Tables([], [], []), first, exact, None);
            && RowsFor(t, second) == {0}
            && (Reuses(t, {0}, second.types, since, reusable, listed) ==> reusable == Some(0))
  {
    var t := Inserted(Tables([], [], []), first, exact, None);
    OwnTypesCovered(first, exact);
    assert t.urls[0].original == second.canonical;
    assert RowsFor(t, second) == {0};
    assert Recent(t, {0}, since, 0);
    assert forall k: nat :: Recent(t, {0}, since, k) ==> k == 0;
    assert Reuses(t, {0}, second.types, since, reusable, listed) && listed != [] ==> listed[0] in listed && listed[0] == 0;
  }

  /** What the second leaves. */
  lemma SecondInserted(first: Request, second: Request, exact1: Option<nat>, exact2: Option<nat>)
    requires IsExact([], first.url, exact1)
    requires IsExact(Inserted(Tables([], [], []), first, exact1, None).urls, second.url, exact2)
    ensures var t := Inserted(Inserted(Tables([], [], []), first, exact1, None), second, exact2, Some(0));
            |t.captures| == 2 && t.captures[1].aliasOf == Some(0) && Spelling(t, 0) == first.url && Spelling(t, 1) == second.url
  {
    EnsuredLaw([], first.url, first.canonical, exact1);
    EnsuredLaw(Inserted(Tables([], [], []), first, exact1, None).urls, second.url, second.canonical, exact2);
  }

  /** An ordinary submission to an empty store. */
  method SubmitFirst(store: Store, r: Request, window: int) returns (ghost exact: Option<nat>)
    requires store.Valid() && store.State() == Tables([], [], []) && r.canonical == store.canonicalize(r.url)
    modifies store
    ensures store.Valid() && store.faults >= old(store.faults)
    ensures store.faults == old(store.faults) ==>
              IsExact([], r.url, exact) && store.State() == Inserted(Tables([], [], []), r, exact, None)
  {
    var q;
    ghost var listed;
    q, exact, listed := store.CreateCapture(r, false, window);
  }

  /** The next one, of an address whose identity is the first one's address. */
  method SubmitSecond(store: Store, ghost first: Request, second: Request, ghost exact1: Option<nat>, window: int,
                      ghost started: bool)
    requires store.Valid() && window > 0
    requires started ==> IsExact([], first.url, exact1)
    requires started ==> store.State() == Inserted(Tables([], [], []), first, exact1, None)
    requires second.canonical == first.url == store.canonicalize(second.url) && second.shortID != first.shortID
    requires second.types == first.types && second.now == first.now
    modifies store
    ensures store.Valid() && store.faults >= old(store.faults)
    ensures started && store.faults == old(store.faults) ==>
              var t := store.State();
              |t.captures| == 2 && t.captures[1].aliasOf == Some(0)
              && Spelling(t, 0) == first.url && Spelling(t, 1) == second.url
  {
    if started { OnlyTarget(first, second, exact1, second.now - window, None, []); }
    var q;
    ghost var exact2, listed;
    q, exact2, listed := store.CreateCapture(second, false, window);
    if started && store.faults == old(store.faults) {
      OnlyTarget(first, second, exact1, second.now - window, q.aliasOf, listed);
      SecondInserted(first, second, exact1, exact2);
    }
  }

  /** Two ordinary submissions to an empty store: an address, and one that it is the identity of. */
  method SubmitBoth(canonicalize: Canonicalizer, u: string, types: seq<string>, now: int, window: int)
    returns (store: Store, ghost clean: bool)
    requires window > 0
    ensures store.canonicalize == canonicalize
    ensures clean ==> IsAlias(store.State(), canonicalize, 1, u) && store.captures[1].aliasOf == Some(0)
    ensures clean ==> Spelling(store.State(), 0) == canonicalize(u)
  {
    store := new Store(canonicalize);
    var c := canonicalize(u);
    var first, second := Request(c, canonicalize(c), types, now, "a"), Request(u, c, types, now, "b");
    assert first.shortID[0] != second.shortID[0];
    ghost var faults := store.faults;
    ghost var exact := SubmitFirst(store, first, window);
    SubmitSecond(store, first, second, exact, window, store.faults == faults);
    clean := store.faults == faults;
  }

  /**
   * Two submissions reach it: the canonical text of an address, then the address itself. The second becomes an alias of
   * the first, and they share an identity exactly outside the folding family.
   */
  method SubmitCanonicalFirst(u: string, types: seq<string>, now: int, window: int) returns (store: Store, ghost clean: bool)
    requires window > 0
    ensures clean ==> IsAlias(store.State(), CanonicalizeArchiveURL, 1, u) && store.captures[1].aliasOf == Some(0)
    ensures clean ==> (CanonicalizeArchiveURL(Spelling(store.State(), 0)) == CanonicalizeArchiveURL(u)
                       <==> !ReadsDifferentlyTwice(u))
  {
    store, clean := SubmitBoth(CanonicalizeArchiveURL, u, types, now, window);
    CanonicalTwice(u);
  }

  ghost predicate FindsOnlyIts(u: string) {
    forall row :: CanonicalOk(row, CanonicalizeArchiveURL) && Matches(row, u, CanonicalizeArchiveURL(u)) ==>
      CanonicalizeArchiveURL(row.original) == CanonicalizeArchiveURL(u)
  }

  lemma TooWideWhenEmpty()
    ensures !FindsOnlyIts("")
  {
    EmptyIsItself();
    IdentityNonempty("x");
    var row := UrlRow("x", Some(""));
    assert CanonicalOk(row, CanonicalizeArchiveURL) && Matches(row, "", "");
  }

  lemma TooWideWhenFolded(u: string)
    requires ReadsDifferentlyTwice(u)
    ensures !FindsOnlyIts(u)
  {
    CanonicalTwice(u);
    var row := UrlRow(CanonicalizeArchiveURL(u), None);
    assert CanonicalOk(row, CanonicalizeArchiveURL) && Matches(row, u, CanonicalizeArchiveURL(u));
  }

  /** The lookup finds rows of the identity only, whatever the table holds, exactly outside these two families. */
  lemma LookupIsExact(u: string)
    ensures FindsOnlyIts(u) <==> u != "" && !ReadsDifferentlyTwice(u)
  {
    if u == "" {
      TooWideWhenEmpty();
    } else if ReadsDifferentlyTwice(u) {
      TooWideWhenFolded(u);
    } else {
      forall row | CanonicalOk(row, CanonicalizeArchiveURL) && Matches(row, u, CanonicalizeArchiveURL(u))
        ensures CanonicalizeArchiveURL(row.original) == CanonicalizeArchiveURL(u)
      {
        MatchReaches(row, u, CanonicalizeArchiveURL);
        ReachesIsIdentity(u, row.original);
      }
    }
  }

  /** An identity that stands for itself, as find-or-create's callers share. */
  lemma IdentityStands(url: string)
    requires url != "" && !ReadsDifferentlyTwice(url)
    ensures var id := CanonicalizeArchiveURL(url); id != "" && CanonicalizeArchiveURL(id) == id
  {
    IdentityNonempty(url);
    CanonicalTwice(url);
  }
}
