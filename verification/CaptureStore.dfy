/** The capture tables as the running server changes them, one transaction at a time. */
module CaptureStore {
  import opened Models
  import opened Completeness
  import opened Captures

  // ----- findOrCreateCriteriaFor

  predicate IsMediaType(typ: string) {
    ArchiveTypesEqual(typ, GALLERY_DL) || ArchiveTypesEqual(typ, YT_DLP)
  }

  /** The names that are kept, in order. */
  function Filtered(names: seq<string>, keep: string -> bool): seq<string> {
    if names == [] then []
    else
      var last := names[|names| - 1];
      Filtered(names[..|names| - 1], keep) + (if keep(last) then [last] else [])
  }

  lemma {:induction false} FilteredLaw(names: seq<string>, keep: string -> bool, name: string)
    ensures name in Filtered(names, keep) <==> name in names && keep(name)
  {
    if names != [] {
      var before, last := names[..|names| - 1], names[|names| - 1];
      FilteredLaw(before, keep, name);
      assert names == before + [last];
    }
  }

  function MediaTypes(types: seq<string>): seq<string> {
    Filtered(types, IsMediaType)
  }

  /** A default request for a social post is settled by its complete media item; every other request is strict. */
  function CriteriaOf(types: seq<string>, relaxed: bool): Criteria {
    if relaxed && MediaTypes(types) != [] then Criteria(MediaTypes(types), true) else Criteria(types, false)
  }

  /** Exactly the requested types that name a media archiver. */
  lemma MediaTypesLaw(types: seq<string>, typ: string)
    ensures typ in MediaTypes(types) <==> typ in types && IsMediaType(typ)
  {
    FilteredLaw(types, IsMediaType, typ);
  }

  method FindOrCreateCriteriaFor(types: seq<string>, defaultTypes: bool, socialPost: bool) returns (c: Criteria)
    ensures c == CriteriaOf(types, defaultTypes && socialPost)
  {
    if !defaultTypes || !socialPost {
      return Criteria(types, false);
    }
    var mediaTypes := [];
    for i := 0 to |types|
      invariant mediaTypes == MediaTypes(types[..i])
    {
      assert types[..i + 1][..i] == types[..i];
      if ArchiveTypesEqual(types[i], GALLERY_DL) || ArchiveTypesEqual(types[i], YT_DLP) {
        mediaTypes := mediaTypes + [types[i]];
      }
    }
    assert types[..|types|] == types;
    return if |mediaTypes| == 0 then Criteria(types, false) else Criteria(mediaTypes, true);
  }

  /** A capture whose media item stored only part of a post never settles a default request for the post. */
  lemma PartialNeverSettles(items: seq<Item>, capture: nat, types: seq<string>, typ: string)
    requires typ in types && IsMediaType(typ)
    requires var found := ItemFor(ByType(items, capture), typ);
             found.Some? && NormalizeCompletenessState(found.value.completeness) != COMPLETE
    ensures var found := ItemFor(ByType(items, capture), typ);
            var s := Stands(items, capture, CriteriaOf(types, true));
            && (s.Some? ==> s.value.status != Finished)
            && (HasStatus(found, COMPLETED) ==> s.None?)
  {
    var c := CriteriaOf(types, true);
    MediaTypesLaw(types, typ);
    var i :| 0 <= i < |c.types| && c.types[i] == typ;
    var found := Required(ByType(items, capture), c.types);
    NotUsable(found, i);
  }

  lemma NotUsable(found: seq<Option<Item>>, i: nat)
    requires i < |found| && found[i].Some? && NormalizeCompletenessState(found[i].value.completeness) != COMPLETE
    ensures StandingOf(found, true).Some? ==> StandingOf(found, true).value.status != Finished
    ensures HasStatus(found[i], COMPLETED) ==> StandingOf(found, true).None?
  {
    StandingExists(found, true);
    assert !(HasStatus(found[i], COMPLETED) && CanAnswer(found[i], true));
    if StandingOf(found, true).Some? { StandingStatus(found, true); }
  }

  // ----- What find-or-create may answer

  datatype Answer =
    | Found(shortID: string)
    | InProgress(shortID: string, status: Progress)
    | Created(shortID: string)
    | Failed

  datatype Queued = Queued(aliasOf: Option<nat>, createdItems: nat) | QueueFailed

  /** What reading the tables settles: the capture to answer with, or that one must be created. */
  datatype Decision = Join(capture: nat, status: Progress) | Create(exact: Option<nat>)

  function RowsFor(t: Tables, r: Request): set<nat> {
    MatchingRows(t.urls, r.url, r.canonical)
  }

  ghost predicate Decides(t: Tables, r: Request, c: Criteria, d: Decision) {
    match d
    case Join(k, status) => Best(t, RowsFor(t, r), c, k, |t.captures|) && status == Stands(t.items, k, c).value.status
    case Create(exact) => NoneBelow(t, RowsFor(t, r), c, |t.captures|) && IsExact(t.urls, r.url, exact)
  }

  function AnswerOf(t: Tables, r: Request, d: Decision): Answer
    requires d.Join? ==> d.capture < |t.captures|
  {
    match d
    case Join(k, status) =>
      if status == Finished then Found(t.captures[k].shortID) else InProgress(t.captures[k].shortID, status)
    case Create(_) => Created(r.shortID)
  }

  function Effect(t: Tables, r: Request, d: Decision): Tables
    requires d.Create? ==> IsExact(t.urls, r.url, d.exact)
  {
    if d.Join? then t else Inserted(t, r, d.exact, None)
  }

  /** No capture of the identity has every required item completed and usable. */
  ghost predicate NoneReady(t: Tables, rows: set<nat>, c: Criteria) {
    forall k: nat :: OnRows(t, rows, k) && AllCanAnswer(t.items, k, c) ==> !AllCompleted(t.items, k, c)
  }

  /** A decision by the statuses of the items. */
  lemma DecisionLaw(t: Tables, r: Request, c: Criteria, d: Decision)
    requires Decides(t, r, c, d)
    ensures d.Join? ==> OnRows(t, RowsFor(t, r), d.capture) && IsStanding(t.items, d.capture, c, d.status)
    ensures (d.Join? && d.status != Finished) || d.Create? ==> NoneReady(t, RowsFor(t, r), c)
    ensures d.Create? ==> forall k: nat :: OnRows(t, RowsFor(t, r), k) ==> !AllCanAnswer(t.items, k, c)
  {
    CandidatesLaw(t, RowsFor(t, r), c);
    if d.Join? {
      forall k: nat | OnRows(t, RowsFor(t, r), k) && AllCanAnswer(t.items, k, c)
        ensures NotBetter(t, c, k, d.capture)
      {
        assert IsCandidate(t, RowsFor(t, r), c, k);
      }
    }
  }

  method ReadDecision(t: Tables, r: Request, c: Criteria) returns (d: Decision)
    ensures Decides(t, r, c, d)
  {
    var rows, exact := LoadIdentityRows(t.urls, r.url, r.canonical);
    var ids := set i | i in rows;
    assert ids == RowsFor(t, r);
    if |rows| > 0 {
      var found := FindFindOrCreateCandidate(t, ids, c);
      if found.Some? {
        return Join(found.value.0, found.value.1);
      }
    } else {
      forall k: nat | k < |t.captures| ensures !IsCandidate(t, ids, c, k) {
        assert rows == [];
      }
    }
    return Create(exact);
  }

  class Store {
    const canonicalize: Canonicalizer
    var urls: seq<UrlRow>
    var captures: seq<Capture>
    var items: seq<Item>
    /** How often a statement has failed by itself. */
    ghost var faults: nat

    method Fails() returns (b: bool)
      modifies this`faults
      ensures faults == old(faults) + (if b then 1 else 0)
    {
      b := *;
      if b {
        faults := faults + 1;
      }
    }

    constructor (canonicalize: Canonicalizer)
      ensures this.canonicalize == canonicalize && Valid() && State() == Tables([], [], [])
    {
      this.canonicalize := canonicalize;
      urls, captures, items := [], [], [];
    }

    function State(): Tables
      reads this
    {
      Tables(urls, captures, items)
    }

    predicate Valid()
      reads this
    {
      Ok(State(), canonicalize)
    }

    /** The new capture's row, the capture and its items, as one commit. */
    method Insert(r: Request, exact: Option<nat>, aliasOf: Option<nat>) returns (ok: bool)
      requires Valid() && IsExact(urls, r.url, exact) && r.canonical == canonicalize(r.url)
      requires aliasOf.Some? ==> AliasTarget(State(), RowsFor(State(), r), aliasOf.value)
      modifies this
      ensures Valid()
      ensures State() == if ok then Inserted(old(State()), r, exact, aliasOf) else old(State())
      ensures faults >= old(faults) && (ok <==> faults == old(faults) && FreshShortID(old(captures), r.shortID))
    {
      var statementFails := Fails();
      if statementFails || exists k :: 0 <= k < |captures| && captures[k].shortID == r.shortID {
        return false;
      }
      var after, row := EnsureArchivedURL(urls, r.url, r.canonical, exact);
      var capture := |captures|;
      var created := [];
      if aliasOf.None? {
        for i := 0 to |r.types|
          invariant created == PendingItems(capture, r.types[..i], r.now)
        {
          assert r.types[..i + 1][..i] == r.types[..i];
          created := created + [Item(capture, r.types[i], PENDING, r.now, "", "", "", "")];
        }
        assert r.types[..|r.types|] == r.types;
      }
      InsertKeepsOk(State(), r, canonicalize, exact, aliasOf);
      urls, captures, items := after, captures + [Capture(row, r.shortID, r.now, aliasOf)], items + created;
      return true;
    }

    /** The capture the new one may be an alias of. */
    method FindAlias(ids: set<nat>, r: Request, force: bool, window: int) returns (aliasOf: Option<nat>, ghost listed: seq<nat>)
      requires Valid() && ids == RowsFor(State(), r)
      modifies this`faults
      ensures faults >= old(faults)
      ensures force || window <= 0 ==> aliasOf == None
      ensures !force && window > 0 && ids != {} && faults == old(faults) ==>
                Reuses(State(), ids, r.types, r.now - window, aliasOf, listed)
      ensures aliasOf.Some? ==> Reuses(State(), ids, r.types, r.now - window, aliasOf, listed)
      ensures aliasOf.Some? ==> AliasTarget(State(), ids, aliasOf.value)
    {
      aliasOf, listed := None, [];
      if !force {
        var lookupFails := Fails();
        aliasOf, listed := FindReusableCapture(State(), ids, r.types, r.now, window, lookupFails);
      }
    }

    /** createCapture: an alias of the newest recent capture that covers the types, or a capture of its own. */
    method CreateCapture(r: Request, force: bool, window: int)
      returns (q: Queued, ghost exact: Option<nat>, ghost listed: seq<nat>)
      requires Valid() && r.canonical == canonicalize(r.url)
      modifies this
      ensures Valid() && faults >= old(faults)
      ensures q.QueueFailed? ==> State() == old(State())
      ensures q.QueueFailed? ==> faults > old(faults) || !FreshShortID(old(captures), r.shortID)
      ensures q.Queued? ==> IsExact(old(urls), r.url, exact)
      ensures q.Queued? ==> State() == Inserted(old(State()), r, exact, q.aliasOf)
      ensures q.Queued? ==> q.createdItems == if q.aliasOf.Some? then 0 else |r.types|
      ensures q.Queued? && (force || window <= 0) ==> q.aliasOf == None
      ensures q.Queued? && !force && window > 0 && RowsFor(old(State()), r) != {} && faults == old(faults) ==>
                Reuses(old(State()), RowsFor(old(State()), r), r.types, r.now - window, q.aliasOf, listed)
      ensures q.Queued? && q.aliasOf.Some? ==>
                Reuses(old(State()), RowsFor(old(State()), r), r.types, r.now - window, q.aliasOf, listed)
    {
      var rows, found := LoadIdentityRows(urls, r.url, r.canonical);
      exact := found;
      var ids := set i | i in rows;
      assert ids == RowsFor(State(), r);
      var aliasOf;
      aliasOf, listed := FindAlias(ids, r, force, window);
      var ok := Insert(r, found, aliasOf);
      q := if ok then Queued(aliasOf, if aliasOf.Some? then 0 else |r.types|) else QueueFailed;
    }

    /** FindOrCreateCapture's transaction. */
    method FindOrCreateCapture(r: Request, c: Criteria) returns (answer: Answer, ghost d: Decision)
      requires Valid() && r.canonical == canonicalize(r.url)
      modifies this
      ensures Valid()
      ensures answer.Failed? ==> State() == old(State())
      ensures answer.Failed? ==> faults > old(faults) || !FreshShortID(old(captures), r.shortID)
      ensures !answer.Failed? ==> Decides(old(State()), r, c, d)
      ensures !answer.Failed? ==> answer == AnswerOf(old(State()), r, d) && State() == Effect(old(State()), r, d)
      ensures answer.Found? ==> d.Join? && OnRows(old(State()), RowsFor(old(State()), r), d.capture)
      ensures answer.Found? ==> AllCompleted(old(items), d.capture, c) && AllCanAnswer(old(items), d.capture, c)
      ensures answer.InProgress? ==> d.Join? && OnRows(old(State()), RowsFor(old(State()), r), d.capture)
      ensures answer.InProgress? ==> IsStanding(old(items), d.capture, c, answer.status) && answer.status != Finished
      ensures answer.InProgress? || answer.Created? ==> NoneReady(old(State()), RowsFor(old(State()), r), c)
      ensures answer.Created? ==> forall k: nat :: OnRows(old(State()), RowsFor(old(State()), r), k) ==> !AllCanAnswer(old(items), k, c)
    {
      d := Create(None);
      var readFails := Fails();
      if readFails {
        return Failed, d;
      }
      var decision := ReadDecision(State(), r, c);
      d := decision;
      DecisionLaw(State(), r, c, d);
      match decision
      case Join(k, status) =>
        answer := if status == Finished then Found(captures[k].shortID) else InProgress(captures[k].shortID, status);
      case Create(exact) =>
        var ok := Insert(r, exact, None);
        answer := if ok then Created(r.shortID) else Failed;
    }

    // ----- backfillCanonicalURLs

    /** Rows past the cursor with no identity yet, in id order, at most a batch of them. Row i has id i + 1. */
    method SelectUnset(lastID: nat, limit: nat) returns (batch: seq<nat>)
      requires lastID <= |urls|
      ensures |batch| <= limit
      ensures forall k :: 0 <= k < |batch| ==> lastID <= batch[k] < |urls| && Unset(urls[batch[k]])
      ensures forall k, l :: 0 <= k < l < |batch| ==> batch[k] < batch[l]
      ensures batch == [] && limit > 0 ==> forall i :: lastID <= i < |urls| ==> !Unset(urls[i])
      ensures batch != [] ==> forall i :: lastID <= i <= batch[|batch| - 1] && Unset(urls[i]) ==> i in batch
    {
      batch := [];
      var i := lastID;
      while i < |urls| && |batch| < limit
        invariant lastID <= i <= |urls| && |batch| <= limit
        invariant forall k :: 0 <= k < |batch| ==> lastID <= batch[k] < i && Unset(urls[batch[k]])
        invariant forall k, l :: 0 <= k < l < |batch| ==> batch[k] < batch[l]
        invariant forall j :: lastID <= j < i && Unset(urls[j]) ==> j in batch
      {
        if Unset(urls[i]) {
          batch := batch + [i];
        }
        i := i + 1;
      }
    }

    /** The identities of a batch of rows, or none of them when a statement fails. */
    method WriteBatch(batch: seq<nat>) returns (ok: bool)
      requires Valid()
      requires forall k :: 0 <= k < |batch| ==> batch[k] < |urls|
      modifies this`urls, this`faults
      ensures Valid() && |urls| == |old(urls)| && faults == old(faults) + (if ok then 0 else 1)
      ensures forall i :: 0 <= i < |urls| ==> urls[i] == if ok && i in batch then Healed(old(urls)[i], canonicalize) else old(urls)[i]
    {
      var fails := Fails();
      if fails {
        return false;
      }
      var after := urls;
      for k := 0 to |batch|
        invariant urls == old(urls) && |after| == |urls| && faults == old(faults)
        invariant forall i :: 0 <= i < |after| ==> after[i] == if i in batch[..k] then Healed(urls[i], canonicalize) else urls[i]
      {
        after := after[batch[k] := Healed(after[batch[k]], canonicalize)];
        assert batch[..k + 1] == batch[..k] + [batch[k]];
      }
      assert batch[..|batch|] == batch;
      HealedOk(urls, after, captures, canonicalize);
      urls := after;
      return true;
    }

    /** The startup loop: ends on every table, and on success no row is left without its identity. */
    method BackfillCanonicalURLs(batchSize: nat) returns (ok: bool, ghost cursor: nat)
      requires Valid() && batchSize > 0
      modifies this`urls, this`faults
      ensures Valid() && cursor <= |urls| == |old(urls)| && (ok <==> faults == old(faults)) && faults >= old(faults)
      ensures HealedBelow(old(urls), urls, cursor, canonicalize) && (ok ==> cursor == |urls|)
    {
      var lastID: nat := 0;
      cursor := 0;
      while true
        invariant Valid() && lastID <= |urls| == |old(urls)| && faults == old(faults)
        invariant HealedBelow(old(urls), urls, lastID, canonicalize)
        decreases |urls| - lastID
      {
        cursor := lastID;
        var selectFails := Fails();
        if selectFails {
          return false, cursor;
        }
        var batch := SelectUnset(lastID, batchSize);
        if |batch| == 0 {
          NothingToHeal(old(urls), urls, lastID, canonicalize);
          cursor := |urls|;
          return true, cursor;
        }
        ghost var before := urls;
        ok := WriteBatch(batch);
        if !ok {
          assert urls == before;
          return false, cursor;
        }
        BatchHeals(old(urls), before, urls, lastID, batch, canonicalize);
        lastID := batch[|batch| - 1] + 1;
      }
    }

    // ----- BackfillMissingMediaItems

    predicate HasItem(capture: nat, typ: string)
      reads this
    {
      exists i :: 0 <= i < |items| && items[i].captureID == capture && items[i].typ == typ
    }

    /** A capture the media backfill may give an item. */
    predicate LacksItem(capture: nat, typ: string)
      reads this
    {
      capture < |captures| && captures[capture].aliasOf.None? && !HasItem(capture, typ)
    }

    method SelectLacking(typ: string) returns (lacking: seq<nat>)
      ensures forall k :: k in lacking <==> LacksItem(k, typ)
      ensures forall i, j :: 0 <= i < j < |lacking| ==> lacking[i] < lacking[j]
    {
      lacking := [];
      for k := 0 to |captures|
        invariant forall i :: 0 <= i < |lacking| ==> lacking[i] < k
        invariant forall i, j :: 0 <= i < j < |lacking| ==> lacking[i] < lacking[j]
        invariant forall i: nat :: i in lacking <==> i < k && LacksItem(i, typ)
      {
        if LacksItem(k, typ) {
          lacking := lacking + [k];
        }
      }
    }

    predicate Wants(capture: nat, wanted: set<string>)
      reads this
    {
      capture < |captures| && captures[capture].urlID < |urls| && urls[captures[capture].urlID].original in wanted
    }

    /** The items from n on are new pending ones of the type, one each for captures that want it. */
    predicate AllBackfilled(n: nat, typ: string, wanted: set<string>, now: int)
      reads this
    {
      && (forall i :: n <= i < |items| ==>
            items[i] == Item(items[i].captureID, typ, PENDING, now, "", "", "", "") && Wants(items[i].captureID, wanted))
      && (forall i, j :: n <= i < j < |items| ==> items[i].captureID != items[j].captureID)
    }

    /** Pending items for the captures whose address wants this type, never for an alias and never a second one. */
    method BackfillMissingMediaItems(typ: string, wanted: set<string>, limit: nat, dryRun: bool, now: int)
      returns (listed: seq<nat>)
      requires Valid()
      modifies this
      ensures Valid() && urls == old(urls) && captures == old(captures)
      ensures |old(items)| <= |items| && items[..|old(items)|] == old(items) && (dryRun ==> items == old(items))
      ensures AllBackfilled(|old(items)|, typ, wanted, now)
      ensures forall i :: |old(items)| <= i < |items| ==> var k := items[i].captureID; old(LacksItem(k, typ))
      ensures limit > 0 ==> |listed| <= limit
      ensures forall k :: k in listed ==> old(LacksItem(k, typ)) && (dryRun || HasItem(k, typ))
      ensures limit == 0 && faults == old(faults) ==> forall k :: old(LacksItem(k, typ)) && Wants(k, wanted) ==> k in listed
      ensures faults >= old(faults)
    {
      var lacking := SelectLacking(typ);
      assert forall k: nat :: k in lacking <==> old(LacksItem(k, typ));
      assert forall i :: 0 <= i < |lacking| ==> lacking[i] in lacking;
      listed := BackfillAll(lacking, typ, wanted, limit, dryRun, now);
    }

    /** The same for captures already selected. */
    method BackfillAll(lacking: seq<nat>, typ: string, wanted: set<string>, limit: nat, dryRun: bool, now: int)
      returns (listed: seq<nat>)
      requires Valid() && forall i :: 0 <= i < |lacking| ==> lacking[i] < |captures| && captures[lacking[i]].aliasOf.None?
      requires Increasing(lacking)
      modifies this`items, this`faults
      ensures Valid() && |old(items)| <= |items| && items[..|old(items)|] == old(items) && (dryRun ==> items == old(items))
      ensures AllBackfilled(|old(items)|, typ, wanted, now)
      ensures forall i :: |old(items)| <= i < |items| ==> items[i].captureID in lacking
      ensures limit > 0 ==> |listed| <= limit
      ensures forall k :: k in listed ==> k in lacking && (dryRun || HasItem(k, typ))
      ensures limit == 0 && faults == old(faults) ==> forall k :: k in lacking && Wants(k, wanted) ==> k in listed
      ensures faults >= old(faults)
    {
      ghost var wants := set k: nat | k < |captures| && Wants(k, wanted);
      ghost var added, n;
      listed, added, n := BackfillEach(lacking, typ, wanted, limit, dryRun, now, wants);
      BackfilledLaw(lacking, n, wants, dryRun, added, listed, faults == old(faults));
      AddedItems(old(items), added, typ, now);
      forall k | k in added ensures HasItem(k, typ) {
        AddedHasItem(old(items), added, typ, now, k);
      }
    }

    /** The loop over the captures that lack the item; added are those that got one. */
    method BackfillEach(lacking: seq<nat>, typ: string, wanted: set<string>, limit: nat, dryRun: bool, now: int,
                        ghost wants: set<nat>)
      returns (listed: seq<nat>, ghost added: seq<nat>, ghost n: nat)
      requires Valid() && forall i :: 0 <= i < |lacking| ==> lacking[i] < |captures| && captures[lacking[i]].aliasOf.None?
      requires Increasing(lacking) && forall k :: k in wants <==> Wants(k, wanted)
      modifies this`items, this`faults
      ensures Valid() && items == old(items) + NewItems(added, typ, now) && faults >= old(faults)
      ensures Backfilled(lacking, n, wants, dryRun, added, listed, faults == old(faults))
      ensures limit > 0 ==> |listed| <= limit
      ensures limit == 0 ==> n == |lacking|
    {
      listed, added, n := [], [], 0;
      var turn := 0;
      while turn < |lacking| && !(limit > 0 && |listed| >= limit)
        invariant n == turn && Valid() && faults >= old(faults)
        invariant items == old(items) + NewItems(added, typ, now)
        invariant Backfilled(lacking, turn, wants, dryRun, added, listed, faults == old(faults))
        invariant limit > 0 ==> |listed| <= limit
        decreases |lacking| - turn
      {
        ghost var clean := faults == old(faults);
        var queued, created := BackfillOne(lacking[turn], typ, wanted, dryRun, now);
        NewItemNext(added, lacking[turn], typ, now, old(items));
        BackfilledNext(lacking, turn, wants, dryRun, added, listed, clean, queued, created, faults == old(faults));
        if created {
          added := added + [lacking[turn]];
        }
        if queued {
          listed := listed + [lacking[turn]];
        }
        turn := turn + 1;
        n := turn;
      }
    }

    /** One candidate's turn; a failed insert of the item or of its job goes unlisted. */
    method BackfillOne(k: nat, typ: string, wanted: set<string>, dryRun: bool, now: int) returns (queued: bool, created: bool)
      requires Valid() && k < |captures| && captures[k].aliasOf.None?
      modifies this`items, this`faults
      ensures Valid() && faults >= old(faults) && (Wants(k, wanted) && faults == old(faults) ==> queued)
      ensures items == old(items) + (if created then [Item(k, typ, PENDING, now, "", "", "", "")] else [])
      ensures created ==> !dryRun && Wants(k, wanted)
      ensures queued ==> dryRun || created
    {
      assert AliasOk(urls, captures, canonicalize, k);
      if urls[captures[k].urlID].original !in wanted {
        return false, false;
      }
      if dryRun {
        return true, false;
      }
      var createFails := Fails();
      if createFails {
        return false, false;
      }
      items := items + [Item(k, typ, PENDING, now, "", "", "", "")];
      var enqueueFails := Fails();
      return !enqueueFails, true;
    }
  }

  /** After the turns of the first n: those that got an item are some of them, in order, and wanted it. */
  ghost predicate AddedOk(lacking: seq<nat>, n: nat, wants: set<nat>, dryRun: bool, added: seq<nat>) {
    && n <= |lacking| && Increasing(added) && (dryRun ==> added == [])
    && (forall i :: 0 <= i < |added| ==> added[i] in lacking && added[i] in wants)
    && (forall i, m :: 0 <= i < |added| && n <= m < |lacking| ==> added[i] < lacking[m])
  }

  /** Who is listed: none that got no item, except in a dry run, and all that want it unless something failed. */
  ghost predicate ListedOk(lacking: seq<nat>, n: nat, wants: set<nat>, dryRun: bool, added: seq<nat>, listed: seq<nat>,
                           clean: bool)
    requires n <= |lacking|
  {
    && (forall i :: 0 <= i < |listed| ==> listed[i] in lacking && (dryRun || listed[i] in added))
    && (clean ==> forall m :: 0 <= m < n && lacking[m] in wants ==> lacking[m] in listed)
  }

  ghost predicate Backfilled(lacking: seq<nat>, n: nat, wants: set<nat>, dryRun: bool, added: seq<nat>, listed: seq<nat>,
                             clean: bool)
  {
    AddedOk(lacking, n, wants, dryRun, added) && ListedOk(lacking, n, wants, dryRun, added, listed, clean)
  }

  lemma AddedNext(lacking: seq<nat>, n: nat, wants: set<nat>, dryRun: bool, added: seq<nat>, created: bool)
    requires Increasing(lacking) && n < |lacking| && AddedOk(lacking, n, wants, dryRun, added)
    requires created ==> !dryRun && lacking[n] in wants
    ensures AddedOk(lacking, n + 1, wants, dryRun, if created then added + [lacking[n]] else added)
  {
    assert lacking[n] in lacking;
  }

  lemma ListedNext(lacking: seq<nat>, n: nat, wants: set<nat>, dryRun: bool, added: seq<nat>, listed: seq<nat>,
                   clean: bool, queued: bool, created: bool, clean2: bool)
    requires n < |lacking| && ListedOk(lacking, n, wants, dryRun, added, listed, clean)
    requires queued ==> dryRun || created
    requires clean2 ==> clean && (lacking[n] in wants ==> queued)
    ensures ListedOk(lacking, n + 1, wants, dryRun, if created then added + [lacking[n]] else added,
                     if queued then listed + [lacking[n]] else listed, clean2)
  {
    var k := lacking[n];
    var added2, listed2 := if created then added + [k] else added, if queued then listed + [k] else listed;
    forall i | 0 <= i < |listed2| ensures listed2[i] in lacking && (dryRun || listed2[i] in added2) {
      assert i < |listed| ==> listed2[i] == listed[i];
    }
    if clean2 {
      forall m | 0 <= m < n + 1 && lacking[m] in wants ensures lacking[m] in listed2 {
        if m < n { assert lacking[m] in listed; }
      }
    }
  }

  lemma BackfilledNext(lacking: seq<nat>, n: nat, wants: set<nat>, dryRun: bool, added: seq<nat>, listed: seq<nat>,
                       clean: bool, queued: bool, created: bool, clean2: bool)
    requires Increasing(lacking) && n < |lacking| && Backfilled(lacking, n, wants, dryRun, added, listed, clean)
    requires created ==> !dryRun && lacking[n] in wants
    requires queued ==> dryRun || created
    requires clean2 ==> clean && (lacking[n] in wants ==> queued)
    ensures Backfilled(lacking, n + 1, wants, dryRun, if created then added + [lacking[n]] else added,
                       if queued then listed + [lacking[n]] else listed, clean2)
  {
    AddedNext(lacking, n, wants, dryRun, added, created);
    ListedNext(lacking, n, wants, dryRun, added, listed, clean, queued, created, clean2);
  }

  lemma BackfilledLaw(lacking: seq<nat>, n: nat, wants: set<nat>, dryRun: bool, added: seq<nat>, listed: seq<nat>, clean: bool)
    requires Backfilled(lacking, n, wants, dryRun, added, listed, clean)
    ensures Increasing(added) && (dryRun ==> added == [])
    ensures forall k :: k in added ==> k in lacking && k in wants
    ensures forall k :: k in listed ==> k in lacking && (dryRun || k in added)
    ensures clean && n == |lacking| ==> forall k :: k in lacking && k in wants ==> k in listed
  {
  }

  /** One pending item of the type for each capture. */
  function NewItems(captures: seq<nat>, typ: string, now: int): seq<Item> {
    if captures == [] then []
    else
      NewItems(captures[..|captures| - 1], typ, now) + [Item(captures[|captures| - 1], typ, PENDING, now, "", "", "", "")]
  }

  lemma {:induction false} NewItemsLaw(captures: seq<nat>, typ: string, now: int)
    ensures |NewItems(captures, typ, now)| == |captures|
    ensures forall i :: 0 <= i < |captures| ==>
              NewItems(captures, typ, now)[i] == Item(captures[i], typ, PENDING, now, "", "", "", "")
  {
    if captures != [] { NewItemsLaw(captures[..|captures| - 1], typ, now); }
  }

  /** The table with the new items behind the old ones. */
  lemma AddedItems(before: seq<Item>, captures: seq<nat>, typ: string, now: int)
    requires Increasing(captures)
    ensures var items := before + NewItems(captures, typ, now);
            && |before| <= |items| && items[..|before|] == before
            && (forall i :: |before| <= i < |items| ==>
                  items[i].captureID in captures && items[i] == Item(items[i].captureID, typ, PENDING, now, "", "", "", ""))
            && (forall i, j :: |before| <= i < j < |items| ==> items[i].captureID != items[j].captureID)
  {
    NewItemsLaw(captures, typ, now);
  }

  lemma AddedHasItem(before: seq<Item>, captures: seq<nat>, typ: string, now: int, k: nat)
    requires k in captures
    ensures var items := before + NewItems(captures, typ, now);
            exists i :: 0 <= i < |items| && items[i].captureID == k && items[i].typ == typ
  {
    NewItemsLaw(captures, typ, now);
    var i :| 0 <= i < |captures| && captures[i] == k;
    assert (before + NewItems(captures, typ, now))[|before| + i].captureID == k;
  }

  lemma NewItemNext(captures: seq<nat>, k: nat, typ: string, now: int, before: seq<Item>)
    ensures before + NewItems(captures + [k], typ, now)
            == before + NewItems(captures, typ, now) + [Item(k, typ, PENDING, now, "", "", "", "")]
  {
    assert (captures + [k])[..|captures|] == captures;
  }

  predicate Unset(row: UrlRow) {
    Column(row.canonical) == ""
  }

  function Healed(row: UrlRow, id: Canonicalizer): UrlRow {
    UrlRow(row.original, Some(id(row.original)))
  }

  /** The rows below the cursor are healed where they lacked an identity, and no other row has changed. */
  ghost predicate HealedBelow(before: seq<UrlRow>, after: seq<UrlRow>, lastID: nat, id: Canonicalizer)
    requires lastID <= |after| == |before|
  {
    && (forall i :: 0 <= i < lastID ==> after[i] == if Unset(before[i]) then Healed(before[i], id) else before[i])
    && (forall i :: lastID <= i < |after| ==> after[i] == before[i])
  }

  /** A batch that holds every row to heal from the cursor to its own end moves the cursor past it. */
  lemma BatchHeals(before: seq<UrlRow>, middle: seq<UrlRow>, after: seq<UrlRow>, lastID: nat, batch: seq<nat>, id: Canonicalizer)
    requires lastID <= |before| == |middle| == |after| && HealedBelow(before, middle, lastID, id)
    requires batch != [] && forall k :: 0 <= k < |batch| ==> lastID <= batch[k] < |middle| && Unset(middle[batch[k]])
    requires forall k, l :: 0 <= k < l < |batch| ==> batch[k] < batch[l]
    requires forall i :: lastID <= i <= batch[|batch| - 1] && Unset(middle[i]) ==> i in batch
    requires forall i :: 0 <= i < |middle| ==> after[i] == if i in batch then Healed(middle[i], id) else middle[i]
    ensures HealedBelow(before, after, batch[|batch| - 1] + 1, id)
  {
    var last := batch[|batch| - 1];
    forall i | 0 <= i <= last ensures after[i] == if Unset(before[i]) then Healed(before[i], id) else before[i] {
    }
    forall i | last < i < |after| ensures after[i] == before[i] {
    }
  }

  lemma NothingToHeal(before: seq<UrlRow>, after: seq<UrlRow>, lastID: nat, id: Canonicalizer)
    requires lastID <= |before| == |after| && HealedBelow(before, after, lastID, id)
    requires forall i :: lastID <= i < |after| ==> !Unset(after[i])
    ensures HealedBelow(before, after, |after|, id)
  {
  }

  /** Filling in identities keeps the url rows and every alias in order. */
  lemma HealedOk(urls: seq<UrlRow>, after: seq<UrlRow>, captures: seq<Capture>, id: Canonicalizer)
    requires UrlsOk(urls, id) && CapturesOk(urls, captures, id) && |after| == |urls|
    requires forall i :: 0 <= i < |urls| ==> after[i].original == urls[i].original
    requires forall i :: 0 <= i < |urls| ==> after[i] == urls[i] || after[i].canonical == Some(id(urls[i].original))
    ensures UrlsOk(after, id) && CapturesOk(after, captures, id)
  {
    forall k | 0 <= k < |captures| ensures AliasOk(after, captures, id, k) {
      assert AliasOk(urls, captures, id, k);
    }
  }
}
