/** The capture tables, and the transactions that find, join, alias and create captures. */
module Captures {
  import opened Models
  import opened Completeness

  /** CanonicalizeArchiveURL, or any other way to give addresses identities. */
  type Canonicalizer = string -> string

  /** An archived_urls row; the column is null on rows older than it. */
  datatype UrlRow = UrlRow(original: string, canonical: Option<string>)

  datatype Capture = Capture(urlID: nat, shortID: string, timestamp: int, aliasOf: Option<nat>)

  /** Row ids are positions; no row is ever deleted. */
  datatype Tables = Tables(urls: seq<UrlRow>, captures: seq<Capture>, items: seq<Item>)

  function Column(c: Option<string>): string {
    if c.None? then "" else c.value
  }

  // ----- What every reachable state keeps

  predicate CanonicalOk(row: UrlRow, id: Canonicalizer) {
    Column(row.canonical) == "" || row.canonical == Some(id(row.original))
  }

  /** r is a row a lookup for u can reach: the same identity, or u's identity written out, or u has none. */
  predicate Reaches(id: Canonicalizer, u: string, r: string) {
    id(r) == id(u) || r == id(u) || id(u) == ""
  }

  predicate UrlsOk(urls: seq<UrlRow>, id: Canonicalizer) {
    && (forall i :: 0 <= i < |urls| ==> CanonicalOk(urls[i], id))
    && (forall i, j :: 0 <= i < j < |urls| ==> urls[i].original != urls[j].original)
  }

  predicate AliasOk(urls: seq<UrlRow>, captures: seq<Capture>, id: Canonicalizer, k: nat)
    requires k < |captures|
  {
    captures[k].urlID < |urls| &&
    match captures[k].aliasOf
    case None => true
    case Some(a) =>
      a < k && captures[a].aliasOf.None? && captures[a].urlID < |urls|
      && Reaches(id, urls[captures[k].urlID].original, urls[captures[a].urlID].original)
  }

  predicate CapturesOk(urls: seq<UrlRow>, captures: seq<Capture>, id: Canonicalizer) {
    && (forall k :: 0 <= k < |captures| ==> AliasOk(urls, captures, id, k))
    && (forall j, k :: 0 <= j < k < |captures| ==> captures[j].shortID != captures[k].shortID)
  }

  /** Only captures that are not aliases own items. */
  predicate ItemsOk(captures: seq<Capture>, items: seq<Item>) {
    forall i :: 0 <= i < |items| ==> items[i].captureID < |captures| && captures[items[i].captureID].aliasOf.None?
  }

  predicate Ok(t: Tables, id: Canonicalizer) {
    UrlsOk(t.urls, id) && CapturesOk(t.urls, t.captures, id) && ItemsOk(t.captures, t.items)
  }

  // ----- Rows of an identity

  predicate Matches(row: UrlRow, url: string, canonical: string) {
    row.canonical == Some(canonical) || row.original == url || row.original == canonical
  }

  function MatchingRows(urls: seq<UrlRow>, url: string, canonical: string): set<nat> {
    set i: nat | i < |urls| && Matches(urls[i], url, canonical)
  }

  predicate IsExact(urls: seq<UrlRow>, url: string, exact: Option<nat>) {
    match exact
    case None => forall i :: 0 <= i < |urls| ==> urls[i].original != url
    case Some(i) => i < |urls| && urls[i].original == url
  }

  /** Every row a lookup finds belongs to the identity, as far as the canonicalizer goes. */
  lemma MatchReaches(row: UrlRow, url: string, id: Canonicalizer)
    requires CanonicalOk(row, id) && Matches(row, url, id(url))
    ensures Reaches(id, url, row.original)
  {
  }

  method LoadIdentityRows(urls: seq<UrlRow>, url: string, canonical: string) returns (rows: seq<nat>, exact: Option<nat>)
    ensures forall i :: i in rows <==> i in MatchingRows(urls, url, canonical)
    ensures forall i, j :: 0 <= i < j < |rows| ==> rows[i] < rows[j]
    ensures IsExact(urls, url, exact)
  {
    rows := [];
    for i := 0 to |urls|
      invariant forall k :: k in rows <==> 0 <= k < i && Matches(urls[k], url, canonical)
      invariant forall k, l :: 0 <= k < l < |rows| ==> rows[k] < rows[l]
      invariant forall k :: 0 <= k < |rows| ==> rows[k] < i
    {
      if Matches(urls[i], url, canonical) {
        rows := rows + [i];
      }
    }
    for i := 0 to |rows|
      invariant forall k :: 0 <= k < i ==> urls[rows[k]].original != url
    {
      if urls[rows[i]].original == url {
        return rows, Some(rows[i]);
      }
    }
    return rows, None;
  }

  /** The url table once this spelling has a healed row, and that row. */
  function Ensured(urls: seq<UrlRow>, url: string, canonical: string, exact: Option<nat>): (seq<UrlRow>, nat)
    requires IsExact(urls, url, exact)
  {
    match exact
    case None => (urls + [UrlRow(url, Some(canonical))], |urls|)
    case Some(i) =>
      if Column(urls[i].canonical) != canonical then (urls[i := urls[i].(canonical := Some(canonical))], i) else (urls, i)
  }

  /** The row spells the address untouched and carries its identity; no other row changes. */
  lemma EnsuredLaw(urls: seq<UrlRow>, url: string, canonical: string, exact: Option<nat>)
    requires IsExact(urls, url, exact)
    ensures var (after, i) := Ensured(urls, url, canonical, exact);
            && |urls| <= |after| && i < |after| && after[i].original == url && Column(after[i].canonical) == canonical
            && (forall k :: 0 <= k < |urls| ==> after[k].original == urls[k].original)
            && (forall k :: 0 <= k < |after| && k != i ==> k < |urls| && after[k] == urls[k])
  {
  }

  lemma EnsuredKeepsUrls(urls: seq<UrlRow>, url: string, id: Canonicalizer, exact: Option<nat>)
    requires UrlsOk(urls, id) && IsExact(urls, url, exact)
    ensures UrlsOk(Ensured(urls, url, id(url), exact).0, id)
  {
    EnsuredLaw(urls, url, id(url), exact);
  }

  method EnsureArchivedURL(urls: seq<UrlRow>, url: string, canonical: string, exact: Option<nat>)
    returns (after: seq<UrlRow>, row: nat)
    requires IsExact(urls, url, exact)
    ensures |urls| <= |after| <= |urls| + 1 && row < |after|
    ensures after[row].original == url && Column(after[row].canonical) == canonical
    ensures forall k :: 0 <= k < |urls| ==> after[k].original == urls[k].original
    ensures forall k :: 0 <= k < |after| && k != row ==> k < |urls| && after[k] == urls[k]
    ensures if exact.Some? then row == exact.value && |after| == |urls| else row == |urls|
    ensures (after, row) == Ensured(urls, url, canonical, exact)
  {
    after := urls;
    match exact
    case Some(i) =>
      if Column(urls[i].canonical) != canonical {
        after := after[i := urls[i].(canonical := Some(canonical))];
      }
      row := i;
    case None =>
      after := after + [UrlRow(url, Some(canonical))];
      row := |urls|;
  }

  // ----- New captures

  function PendingItems(capture: nat, types: seq<string>, now: int): seq<Item> {
    if types == [] then []
    else PendingItems(capture, types[..|types| - 1], now) + [Item(capture, types[|types| - 1], PENDING, now, "", "", "", "")]
  }

  lemma {:induction false} PendingItemsLaw(capture: nat, types: seq<string>, now: int)
    ensures |PendingItems(capture, types, now)| == |types|
    ensures forall i :: 0 <= i < |types| ==>
              PendingItems(capture, types, now)[i] == Item(capture, types[i], PENDING, now, "", "", "", "")
  {
    if types != [] { PendingItemsLaw(capture, types[..|types| - 1], now); }
  }

  /** What a caller asks for. */
  datatype Request = Request(url: string, canonical: string, types: seq<string>, now: int, shortID: string)

  predicate FreshShortID(captures: seq<Capture>, shortID: string) {
    forall k :: 0 <= k < |captures| ==> captures[k].shortID != shortID
  }

  /** The tables with one more capture: an alias without items, or a capture with one pending item per type. */
  function Inserted(t: Tables, r: Request, exact: Option<nat>, aliasOf: Option<nat>): Tables
    requires IsExact(t.urls, r.url, exact)
  {
    var (urls, row) := Ensured(t.urls, r.url, r.canonical, exact);
    Tables(urls,
           t.captures + [Capture(row, r.shortID, r.now, aliasOf)],
           t.items + (if aliasOf.None? then PendingItems(|t.captures|, r.types, r.now) else []))
  }

  /** An alias's target is an existing capture of the identity that is no alias itself. */
  predicate AliasTarget(t: Tables, rows: set<nat>, a: nat) {
    a < |t.captures| && t.captures[a].aliasOf.None? && t.captures[a].urlID in rows
  }

  lemma InsertKeepsCaptures(t: Tables, r: Request, id: Canonicalizer, exact: Option<nat>, aliasOf: Option<nat>)
    requires Ok(t, id) && IsExact(t.urls, r.url, exact) && r.canonical == id(r.url) && FreshShortID(t.captures, r.shortID)
    requires aliasOf.Some? ==> AliasTarget(t, MatchingRows(t.urls, r.url, r.canonical), aliasOf.value)
    ensures CapturesOk(Inserted(t, r, exact, aliasOf).urls, Inserted(t, r, exact, aliasOf).captures, id)
  {
    var after := Inserted(t, r, exact, aliasOf);
    var n := |t.captures|;
    EnsuredLaw(t.urls, r.url, r.canonical, exact);
    if aliasOf.Some? { MatchReaches(t.urls[t.captures[aliasOf.value].urlID], r.url, id); }
    assert AliasOk(after.urls, after.captures, id, n);
    forall k | 0 <= k < n ensures AliasOk(after.urls, after.captures, id, k) {
      assert AliasOk(t.urls, t.captures, id, k);
    }
  }

  lemma InsertKeepsItems(t: Tables, r: Request, exact: Option<nat>, aliasOf: Option<nat>)
    requires ItemsOk(t.captures, t.items) && IsExact(t.urls, r.url, exact)
    ensures ItemsOk(Inserted(t, r, exact, aliasOf).captures, Inserted(t, r, exact, aliasOf).items)
  {
    PendingItemsLaw(|t.captures|, r.types, r.now);
  }

  /** Creating a capture, alias or not, keeps every reachable state's promises. */
  lemma InsertKeepsOk(t: Tables, r: Request, id: Canonicalizer, exact: Option<nat>, aliasOf: Option<nat>)
    requires Ok(t, id) && IsExact(t.urls, r.url, exact) && r.canonical == id(r.url) && FreshShortID(t.captures, r.shortID)
    requires aliasOf.Some? ==> AliasTarget(t, MatchingRows(t.urls, r.url, r.canonical), aliasOf.value)
    ensures Ok(Inserted(t, r, exact, aliasOf), id)
  {
    EnsuredKeepsUrls(t.urls, r.url, id, exact);
    InsertKeepsCaptures(t, r, id, exact, aliasOf);
    InsertKeepsItems(t, r, exact, aliasOf);
  }

  // ----- How far a capture is with the types a request needs

  /** An item per normalized type; a later row wins. */
  function ByType(items: seq<Item>, capture: nat): map<string, Item> {
    if items == [] then map[]
    else
      var last := items[|items| - 1];
      var typed := ByType(items[..|items| - 1], capture);
      if last.captureID == capture then typed[NormalizeArchiveType(last.typ) := last] else typed
  }

  /** Row i is an item of the capture under this type, in any spelling. */
  predicate OfType(items: seq<Item>, capture: nat, typ: string, i: nat)
    requires i < |items|
  {
    items[i].captureID == capture && ArchiveTypesEqual(items[i].typ, typ)
  }

  /** The capture's last item row of this type, or that it has none. */
  ghost predicate IsLastOf(items: seq<Item>, capture: nat, typ: string, found: Option<Item>) {
    match found
    case None => forall i :: 0 <= i < |items| ==> !OfType(items, capture, typ, i)
    case Some(item) =>
      exists i :: 0 <= i < |items| && OfType(items, capture, typ, i) && items[i] == item
                  && forall j :: i < j < |items| ==> !OfType(items, capture, typ, j)
  }

  datatype Criteria = Criteria(types: seq<string>, requireCompleteSocial: bool)

  /** How far an item is, for the statuses that can still come to something. */
  datatype Progress = Queueing | Working | Finished

  function ProgressOf(status: string): Option<Progress> {
    if status == COMPLETED then Some(Finished)
    else if status == PROCESSING then Some(Working)
    else if status == PENDING then Some(Queueing)
    else None
  }

  datatype Standing = Standing(status: Progress, completedAt: int)

  /** The item of one required type, if the capture has one. */
  function ItemFor(typed: map<string, Item>, typ: string): Option<Item> {
    var t := NormalizeArchiveType(typ);
    if t in typed then Some(typed[t]) else None
  }

  lemma {:induction false} ItemForLaw(items: seq<Item>, capture: nat, typ: string)
    ensures IsLastOf(items, capture, typ, ItemFor(ByType(items, capture), typ))
  {
    if items != [] {
      var n := |items| - 1;
      var before := items[..n];
      ItemForLaw(before, capture, typ);
      forall i | 0 <= i < n ensures OfType(before, capture, typ, i) <==> OfType(items, capture, typ, i) {}
      if OfType(items, capture, typ, n) {
        assert ItemFor(ByType(items, capture), typ) == Some(items[n]);
      }
    }
  }

  function Required(typed: map<string, Item>, types: seq<string>): seq<Option<Item>> {
    seq(|types|, i requires 0 <= i < |types| => ItemFor(typed, types[i]))
  }

  predicate HasStatus(found: Option<Item>, status: string) {
    found.Some? && found.value.status == status
  }

  /** The item can answer for its type now or later. */
  predicate CanAnswer(found: Option<Item>, requireCompleteSocial: bool) {
    || HasStatus(found, PENDING) || HasStatus(found, PROCESSING)
    || (HasStatus(found, COMPLETED) && (requireCompleteSocial ==> CompletedSocialItemIsReusable(found.value)))
  }

  /** The statuses by name, all different. */
  lemma StatusNames()
    ensures PENDING == "pending" && PROCESSING == "processing" && COMPLETED == "completed" && FAILED == "failed"
    ensures PENDING != PROCESSING && PENDING != COMPLETED && PROCESSING != COMPLETED
    ensures FAILED != PENDING && FAILED != PROCESSING && FAILED != COMPLETED
  {
    assert PENDING[1] == 'e' && PROCESSING[1] == 'r' && COMPLETED[1] == 'o' && FAILED[1] == 'a';
  }

  /** One more required item; None when it can never be used. */
  function WithItem(s: Standing, found: Option<Item>, requireCompleteSocial: bool): Option<Standing> {
    match found
    case None => None
    case Some(item) =>
      match ProgressOf(item.status)
      case None => None
      case Some(Finished) =>
        if requireCompleteSocial && !CompletedSocialItemIsReusable(item) then None
        else Some(s.(completedAt := if item.updatedAt > s.completedAt then item.updatedAt else s.completedAt))
      case Some(Working) => Some(s.(status := Working))
      case Some(Queueing) => Some(if s.status != Working then s.(status := Queueing) else s)
  }

  function StandingOf(found: seq<Option<Item>>, requireCompleteSocial: bool): Option<Standing> {
    if found == [] then Some(Standing(Finished, 0))
    else
      match StandingOf(found[..|found| - 1], requireCompleteSocial)
      case None => None
      case Some(s) => WithItem(s, found[|found| - 1], requireCompleteSocial)
  }

  /** A capture stands for a request exactly when it has a usable item of every required type. */
  lemma {:induction false} StandingExists(found: seq<Option<Item>>, requireCompleteSocial: bool)
    ensures StandingOf(found, requireCompleteSocial).Some?
            <==> forall i :: 0 <= i < |found| ==> CanAnswer(found[i], requireCompleteSocial)
  {
    StatusNames();
    if found != [] {
      var before := found[..|found| - 1];
      StandingExists(before, requireCompleteSocial);
      assert forall i :: 0 <= i < |before| ==> before[i] == found[i];
    }
  }

  /** It is complete when every item is, processing when one is, and pending otherwise. */
  lemma {:induction false} StandingStatus(found: seq<Option<Item>>, requireCompleteSocial: bool)
    requires StandingOf(found, requireCompleteSocial).Some?
    ensures var p := StandingOf(found, requireCompleteSocial).value.status;
            && (p == Finished <==> forall i :: 0 <= i < |found| ==> HasStatus(found[i], COMPLETED))
            && (p == Working <==> exists i :: 0 <= i < |found| && HasStatus(found[i], PROCESSING))
  {
    StatusNames();
    if found != [] {
      var before := found[..|found| - 1];
      StandingStatus(before, requireCompleteSocial);
      assert forall i :: 0 <= i < |before| ==> before[i] == found[i];
    }
  }

  /** The completion time is the latest one among the completed items; zero stands for none. */
  lemma {:induction false} StandingTime(found: seq<Option<Item>>, requireCompleteSocial: bool)
    requires StandingOf(found, requireCompleteSocial).Some?
    ensures var at := StandingOf(found, requireCompleteSocial).value.completedAt;
            && at >= 0
            && (forall i :: 0 <= i < |found| && HasStatus(found[i], COMPLETED) ==> found[i].value.updatedAt <= at)
            && (at > 0 ==> exists i :: 0 <= i < |found| && HasStatus(found[i], COMPLETED) && found[i].value.updatedAt == at)
  {
    StatusNames();
    if found != [] {
      var before, last := found[..|found| - 1], |found| - 1;
      StandingTime(before, requireCompleteSocial);
      assert forall i :: 0 <= i < |before| ==> before[i] == found[i];
      var at := StandingOf(before, requireCompleteSocial).value.completedAt;
      if at > 0 {
        var i :| 0 <= i < |before| && HasStatus(before[i], COMPLETED) && before[i].value.updatedAt == at;
        assert HasStatus(found[i], COMPLETED) && found[i].value.updatedAt == at;
      }
    }
  }

  lemma StandingStep(found: seq<Option<Item>>, requireCompleteSocial: bool, i: nat)
    requires i < |found| && StandingOf(found[..i], requireCompleteSocial).Some?
    ensures StandingOf(found[..i + 1], requireCompleteSocial)
            == WithItem(StandingOf(found[..i], requireCompleteSocial).value, found[i], requireCompleteSocial)
  {
    assert found[..i + 1][..i] == found[..i];
  }

  lemma {:induction false} NeverStands(found: seq<Option<Item>>, requireCompleteSocial: bool, i: nat)
    requires i <= |found| && StandingOf(found[..i], requireCompleteSocial) == None
    ensures StandingOf(found, requireCompleteSocial) == None
    decreases |found| - i
  {
    if i == |found| {
      assert found[..i] == found;
    } else {
      assert found[..i + 1][..i] == found[..i];
      NeverStands(found, requireCompleteSocial, i + 1);
    }
  }

  function Stands(items: seq<Item>, capture: nat, c: Criteria): Option<Standing> {
    StandingOf(Required(ByType(items, capture), c.types), c.requireCompleteSocial)
  }

  /** The capture's item of one of the types a request needs. */
  function ItemOf(items: seq<Item>, capture: nat, typ: string): Option<Item> {
    ItemFor(ByType(items, capture), typ)
  }

  /** Every required type has an item that is done, or may still be. */
  predicate AllCanAnswer(items: seq<Item>, capture: nat, c: Criteria) {
    forall i :: 0 <= i < |c.types| ==> CanAnswer(ItemOf(items, capture, c.types[i]), c.requireCompleteSocial)
  }

  predicate AllCompleted(items: seq<Item>, capture: nat, c: Criteria) {
    forall i :: 0 <= i < |c.types| ==> HasStatus(ItemOf(items, capture, c.types[i]), COMPLETED)
  }

  predicate SomeProcessing(items: seq<Item>, capture: nat, c: Criteria) {
    exists i :: 0 <= i < |c.types| && HasStatus(ItemOf(items, capture, c.types[i]), PROCESSING)
  }

  /** What a standing says about the statuses of the items. */
  predicate IsStanding(items: seq<Item>, capture: nat, c: Criteria, status: Progress) {
    && AllCanAnswer(items, capture, c)
    && (status == Finished <==> AllCompleted(items, capture, c))
    && (status == Working <==> SomeProcessing(items, capture, c))
  }

  lemma StandsLaw(items: seq<Item>, capture: nat, c: Criteria)
    ensures Stands(items, capture, c).Some? <==> AllCanAnswer(items, capture, c)
    ensures Stands(items, capture, c).Some? ==> IsStanding(items, capture, c, Stands(items, capture, c).value.status)
  {
    var found := Required(ByType(items, capture), c.types);
    assert forall i :: 0 <= i < |c.types| ==> found[i] == ItemOf(items, capture, c.types[i]);
    StandingExists(found, c.requireCompleteSocial);
    if Stands(items, capture, c).Some? { StandingStatus(found, c.requireCompleteSocial); }
  }

  method GroupByType(items: seq<Item>, capture: nat) returns (typed: map<string, Item>)
    ensures typed == ByType(items, capture)
  {
    typed := map[];
    for i := 0 to |items|
      invariant typed == ByType(items[..i], capture)
    {
      assert items[..i + 1][..i] == items[..i];
      if items[i].captureID == capture {
        typed := typed[NormalizeArchiveType(items[i].typ) := items[i]];
      }
    }
    assert items[..|items|] == items;
  }

  method CaptureStatusForTypes(items: seq<Item>, capture: nat, c: Criteria) returns (standing: Option<Standing>)
    ensures standing == Stands(items, capture, c)
    ensures standing.Some? <==> AllCanAnswer(items, capture, c)
    ensures standing.Some? ==> IsStanding(items, capture, c, standing.value.status)
  {
    var typed := GroupByType(items, capture);
    ghost var found := Required(typed, c.types);
    var s := Standing(Finished, 0);
    for i := 0 to |c.types|
      invariant Some(s) == StandingOf(found[..i], c.requireCompleteSocial)
    {
      var item := ItemFor(typed, c.types[i]);
      StandingStep(found, c.requireCompleteSocial, i);
      var next := WithItem(s, item, c.requireCompleteSocial);
      if next == None {
        NeverStands(found, c.requireCompleteSocial, i + 1);
        StandsLaw(items, capture, c);
        return None;
      }
      s := next.value;
    }
    assert found[..|c.types|] == found;
    StandsLaw(items, capture, c);
    standing := Some(s);
  }

  // ----- Choosing a capture for find-or-create

  /** The captures a lookup considers: on a row of the identity, and no alias. */
  predicate OnRows(t: Tables, rows: set<nat>, k: nat) {
    k < |t.captures| && t.captures[k].urlID in rows && t.captures[k].aliasOf.None?
  }

  predicate IsCandidate(t: Tables, rows: set<nat>, c: Criteria, k: nat) {
    OnRows(t, rows, k) && Stands(t.items, k, c).Some?
  }

  /** No candidate below n is a better choice than k: completed beats in progress, later beats earlier. */
  ghost predicate Best(t: Tables, rows: set<nat>, c: Criteria, k: nat, n: nat) {
    && IsCandidate(t, rows, c, k)
    && forall j: nat :: j < n && IsCandidate(t, rows, c, j) ==> NotBetter(t, c, j, k)
  }

  predicate NotBetter(t: Tables, c: Criteria, j: nat, k: nat)
    requires j < |t.captures| && k < |t.captures|
    requires Stands(t.items, j, c).Some? && Stands(t.items, k, c).Some?
  {
    var sj, sk := Stands(t.items, j, c).value, Stands(t.items, k, c).value;
    if sk.status == Finished then sj.status == Finished ==> sj.completedAt <= sk.completedAt
    else sj.status != Finished && t.captures[j].timestamp <= t.captures[k].timestamp
  }

  ghost predicate NoneBelow(t: Tables, rows: set<nat>, c: Criteria, n: nat) {
    forall j: nat :: j < n ==> !IsCandidate(t, rows, c, j)
  }

  /** The newest of the completed (or of the unfinished) candidates below n. */
  ghost predicate NewestOf(t: Tables, rows: set<nat>, c: Criteria, completed: bool, n: nat, newest: Option<nat>) {
    match newest
    case None => forall j: nat :: j < n && IsCandidate(t, rows, c, j) ==> !Has(t, c, j, completed)
    case Some(k) =>
      k < n && IsCandidate(t, rows, c, k) && Has(t, c, k, completed)
      && forall j: nat :: j < n && IsCandidate(t, rows, c, j) && Has(t, c, j, completed) ==> NotBetter(t, c, j, k)
  }

  predicate Has(t: Tables, c: Criteria, k: nat, completed: bool) {
    Stands(t.items, k, c).Some? && (completed <==> Stands(t.items, k, c).value.status == Finished)
  }

  lemma ChooseNewest(t: Tables, rows: set<nat>, c: Criteria, done: Option<nat>, running: Option<nat>)
    requires NewestOf(t, rows, c, true, |t.captures|, done) && NewestOf(t, rows, c, false, |t.captures|, running)
    ensures done.Some? ==> Best(t, rows, c, done.value, |t.captures|)
    ensures done.None? && running.Some? ==> Best(t, rows, c, running.value, |t.captures|)
    ensures done.None? && running.None? ==> NoneBelow(t, rows, c, |t.captures|)
  {
    forall j: nat | j < |t.captures| && IsCandidate(t, rows, c, j) ensures Has(t, c, j, true) || Has(t, c, j, false) {}
  }

  /** The newest after one more capture: i, if it is a candidate of this kind and newer. */
  lemma NextNewestOf(t: Tables, rows: set<nat>, c: Criteria, completed: bool, i: nat, newest: Option<nat>, next: Option<nat>)
    requires i < |t.captures| && NewestOf(t, rows, c, completed, i, newest)
    requires next == newest || next == Some(i)
    requires !(IsCandidate(t, rows, c, i) && Has(t, c, i, completed)) ==> next == newest
    requires IsCandidate(t, rows, c, i) && Has(t, c, i, completed) ==>
               if next == newest then newest.Some? && NotBetter(t, c, i, newest.value)
               else newest.None? || NotBetter(t, c, newest.value, i)
    ensures NewestOf(t, rows, c, completed, i + 1, next)
  {
  }

  /** Candidates by the statuses of their items. */
  lemma CandidatesLaw(t: Tables, rows: set<nat>, c: Criteria)
    ensures forall k: nat :: IsCandidate(t, rows, c, k) <==> OnRows(t, rows, k) && AllCanAnswer(t.items, k, c)
    ensures forall k: nat :: IsCandidate(t, rows, c, k) ==> IsStanding(t.items, k, c, Stands(t.items, k, c).value.status)
  {
    forall k: nat
      ensures IsCandidate(t, rows, c, k) <==> OnRows(t, rows, k) && AllCanAnswer(t.items, k, c)
      ensures IsCandidate(t, rows, c, k) ==> IsStanding(t.items, k, c, Stands(t.items, k, c).value.status)
    {
      StandsLaw(t.items, k, c);
    }
  }

  method FindFindOrCreateCandidate(t: Tables, rows: set<nat>, c: Criteria) returns (found: Option<(nat, Progress)>)
    ensures found.None? ==> NoneBelow(t, rows, c, |t.captures|)
    ensures found.Some? ==> Best(t, rows, c, found.value.0, |t.captures|)
    ensures found.Some? ==> found.value.1 == Stands(t.items, found.value.0, c).value.status
    ensures found.Some? ==> IsStanding(t.items, found.value.0, c, found.value.1)
    ensures found.None? ==> forall k: nat :: OnRows(t, rows, k) ==> !AllCanAnswer(t.items, k, c)
    ensures found.Some? && found.value.1 != Finished ==>
              forall k: nat :: OnRows(t, rows, k) && AllCanAnswer(t.items, k, c) ==> !AllCompleted(t.items, k, c)
  {
    var done: Option<nat>, running: Option<nat> := None, None;
    var doneAt := 0;
    for i := 0 to |t.captures|
      invariant NewestOf(t, rows, c, true, i, done)
      invariant NewestOf(t, rows, c, false, i, running)
      invariant done.Some? ==> doneAt == Stands(t.items, done.value, c).value.completedAt
    {
      ghost var done0, running0 := done, running;
      if t.captures[i].urlID in rows && t.captures[i].aliasOf.None? {
        var standing := CaptureStatusForTypes(t.items, i, c);
        if standing.Some? {
          if standing.value.status == Finished {
            if done.None? || standing.value.completedAt > doneAt {
              done, doneAt := Some(i), standing.value.completedAt;
            }
          } else if running.None? || t.captures[i].timestamp > t.captures[running.value].timestamp {
            running := Some(i);
          }
        }
      }
      NextNewestOf(t, rows, c, true, i, done0, done);
      NextNewestOf(t, rows, c, false, i, running0, running);
    }
    ChooseNewest(t, rows, c, done, running);
    CandidatesLaw(t, rows, c);
    if done.Some? {
      return Some((done.value, Finished));
    }
    if running.Some? {
      var standing := CaptureStatusForTypes(t.items, running.value, c);
      return Some((running.value, standing.value.status));
    }
    return None;
  }

  // ----- Choosing a capture to alias

  predicate HasUnfailed(items: seq<Item>, capture: nat, typ: string) {
    var item := ItemOf(items, capture, typ);
    item.Some? && item.value.status != FAILED
  }

  /** Every requested type has an item that has not failed. */
  predicate CoversAll(items: seq<Item>, capture: nat, types: seq<string>) {
    forall i :: 0 <= i < |types| ==> HasUnfailed(items, capture, types[i])
  }

  method CaptureCoversTypes(items: seq<Item>, capture: nat, types: seq<string>) returns (covers: bool)
    ensures covers == CoversAll(items, capture, types)
  {
    var typed := GroupByType(items, capture);
    for i := 0 to |types|
      invariant forall k :: 0 <= k < i ==> HasUnfailed(items, capture, types[k])
    {
      var t := NormalizeArchiveType(types[i]);
      if t !in typed || typed[t].status == FAILED {
        return false;
      }
    }
    return true;
  }

  const REUSE_CANDIDATES := 10

  predicate Recent(t: Tables, rows: set<nat>, since: int, k: nat) {
    OnRows(t, rows, k) && t.captures[k].timestamp > since
  }

  /** The recent captures, newest first, cut off at ten: nothing left out is newer than anything listed. */
  ghost predicate NewestFirst(t: Tables, rows: set<nat>, since: int, listed: seq<nat>) {
    && (forall i :: 0 <= i < |listed| ==> Recent(t, rows, since, listed[i]))
    && (forall i, j :: 0 <= i < j < |listed| ==>
          listed[i] != listed[j] && t.captures[listed[j]].timestamp <= t.captures[listed[i]].timestamp)
    && (forall k: nat, i :: 0 <= i < |listed| && Recent(t, rows, since, k) && k !in listed ==>
          t.captures[k].timestamp <= t.captures[listed[i]].timestamp)
  }

  /** The newest recent capture that is not listed yet. */
  method NextNewest(t: Tables, rows: set<nat>, since: int, listed: seq<nat>) returns (next: Option<nat>)
    ensures next.None? ==> forall k: nat :: Recent(t, rows, since, k) ==> k in listed
    ensures next.Some? ==> Recent(t, rows, since, next.value) && next.value !in listed
    ensures next.Some? ==> forall k: nat :: Recent(t, rows, since, k) && k !in listed ==>
              t.captures[k].timestamp <= t.captures[next.value].timestamp
  {
    next := None;
    for i := 0 to |t.captures|
      invariant next.None? ==> forall k: nat :: k < i && Recent(t, rows, since, k) ==> k in listed
      invariant next.Some? ==> Recent(t, rows, since, next.value) && next.value !in listed
      invariant next.Some? ==> forall k: nat :: k < i && Recent(t, rows, since, k) && k !in listed ==>
                  t.captures[k].timestamp <= t.captures[next.value].timestamp
    {
      if Recent(t, rows, since, i) && i !in listed
         && (next.None? || t.captures[i].timestamp > t.captures[next.value].timestamp) {
        next := Some(i);
      }
    }
  }

  method ListNewest(t: Tables, rows: set<nat>, since: int) returns (listed: seq<nat>)
    ensures NewestFirst(t, rows, since, listed) && |listed| <= REUSE_CANDIDATES
    ensures |listed| < REUSE_CANDIDATES ==> forall k: nat :: Recent(t, rows, since, k) ==> k in listed
  {
    listed := [];
    while |listed| < REUSE_CANDIDATES
      invariant |listed| <= REUSE_CANDIDATES
      invariant NewestFirst(t, rows, since, listed)
      decreases REUSE_CANDIDATES - |listed|
    {
      var next := NextNewest(t, rows, since, listed);
      if next.None? {
        return;
      }
      listed := listed + [next.value];
    }
  }

  /** The newest listed capture that covers the types; nothing when aliasing is off or the lookup fails. */
  method FindReusableCapture(t: Tables, rows: set<nat>, types: seq<string>, now: int, window: int, lookupFails: bool)
    returns (reusable: Option<nat>, ghost listed: seq<nat>)
    ensures rows == {} || window <= 0 || lookupFails ==> reusable == None && listed == []
    ensures rows != {} && window > 0 && !lookupFails ==> Reuses(t, rows, types, now - window, reusable, listed)
    ensures reusable.Some? ==> Recent(t, rows, now - window, reusable.value) && CoversAll(t.items, reusable.value, types)
  {
    listed := [];
    if rows == {} || window <= 0 || lookupFails {
      return None, listed;
    }
    var candidates := ListNewest(t, rows, now - window);
    listed := candidates;
    for i := 0 to |candidates|
      invariant forall k :: 0 <= k < i ==> !CoversAll(t.items, candidates[k], types)
    {
      var covers := CaptureCoversTypes(t.items, candidates[i], types);
      if covers {
        return Some(candidates[i]), listed;
      }
    }
    return None, listed;
  }

  /** The ten newest recent captures are listed, and the choice is the newest of them that covers the types. */
  ghost predicate Reuses(t: Tables, rows: set<nat>, types: seq<string>, since: int, reusable: Option<nat>, listed: seq<nat>) {
    && NewestFirst(t, rows, since, listed) && |listed| <= REUSE_CANDIDATES
    && (|listed| < REUSE_CANDIDATES ==> forall k: nat :: Recent(t, rows, since, k) ==> k in listed)
    && match reusable
       case None => forall k :: k in listed ==> !CoversAll(t.items, k, types)
       case Some(a) =>
         a in listed && CoversAll(t.items, a, types)
         && forall k :: k in listed && CoversAll(t.items, k, types) ==> t.captures[k].timestamp <= t.captures[a].timestamp
  }
}
