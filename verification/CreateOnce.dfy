/** Concurrent find-or-create calls for spellings of one identity create one capture between them. */
module CreateOnce {
  import opened Models
  import opened Captures
  import opened CaptureStore
  import opened CaptureLock

  // ----- How an insertion changes what a lookup finds

  /** The lookup for r finds no reusable capture, or exactly this one. */
  ghost predicate Finds(t: Tables, r: Request, c: Criteria, only: Option<nat>) {
    forall j: nat :: j < |t.captures| ==> (IsCandidate(t, RowsFor(t, r), c, j) <==> only == Some(j))
  }

  lemma {:induction false} ItemsOfOthers(items: seq<Item>, more: seq<Item>, k: nat)
    requires forall i :: 0 <= i < |more| ==> more[i].captureID != k
    ensures ByType(items + more, k) == ByType(items, k)
  {
    if more == [] {
      assert items + more == items;
    } else {
      var n := |more| - 1;
      assert (items + more)[..|items + more| - 1] == items + more[..n];
      ItemsOfOthers(items, more[..n], k);
    }
  }

  lemma InsertKeepsStanding(t: Tables, r: Request, exact: Option<nat>, c: Criteria, j: nat)
    requires IsExact(t.urls, r.url, exact) && j < |t.captures|
    ensures Stands(Inserted(t, r, exact, None).items, j, c) == Stands(t.items, j, c)
  {
    PendingItemsLaw(|t.captures|, r.types, r.now);
    ItemsOfOthers(t.items, PendingItems(|t.captures|, r.types, r.now), j);
  }

  lemma ByTypeLast(items: seq<Item>, last: Item, k: nat)
    requires last.captureID == k
    ensures ByType(items + [last], k) == ByType(items, k)[NormalizeArchiveType(last.typ) := last]
  {
    assert (items + [last])[..|items|] == items;
  }

  lemma {:induction false} PendingByType(items: seq<Item>, k: nat, types: seq<string>, now: int, i: nat)
    requires i < |types|
    ensures HasStatus(ItemFor(ByType(items + PendingItems(k, types, now), k), types[i]), PENDING)
  {
    var n := |types| - 1;
    var last := Item(k, types[n], PENDING, now, "", "", "", "");
    var before := items + PendingItems(k, types[..n], now);
    assert items + PendingItems(k, types, now) == before + [last];
    ByTypeLast(before, last, k);
    if i < n { PendingByType(items, k, types[..n], now, i); }
  }

  lemma PendingIsQueueing()
    ensures ProgressOf(PENDING) == Some(Queueing)
  {
    assert PENDING[1] == 'e' && COMPLETED[1] == 'o' && PROCESSING[1] == 'r';
  }

  lemma {:induction false} AllPending(found: seq<Option<Item>>, requireCompleteSocial: bool)
    requires forall i :: 0 <= i < |found| ==> HasStatus(found[i], PENDING)
    ensures StandingOf(found, requireCompleteSocial) == Some(Standing(if found == [] then Finished else Queueing, 0))
  {
    if found != [] {
      var n := |found| - 1;
      assert HasStatus(found[n], PENDING);
      PendingIsQueueing();
      assert forall i :: 0 <= i < n ==> found[..n][i] == found[i];
      AllPending(found[..n], requireCompleteSocial);
    }
  }

  /** A new capture stands as pending for every request its types answer. */
  lemma NewStandsPending(t: Tables, r: Request, exact: Option<nat>, c: Criteria)
    requires IsExact(t.urls, r.url, exact)
    requires c.types != [] && forall i :: 0 <= i < |c.types| ==> c.types[i] in r.types
    ensures Stands(Inserted(t, r, exact, None).items, |t.captures|, c) == Some(Standing(Queueing, 0))
  {
    var n := |t.captures|;
    var typed := ByType(t.items + PendingItems(n, r.types, r.now), n);
    forall i | 0 <= i < |c.types| ensures HasStatus(ItemFor(typed, c.types[i]), PENDING) {
      assert c.types[i] in r.types;
      var k :| 0 <= k < |r.types| && r.types[k] == c.types[i];
      PendingByType(t.items, n, r.types, r.now, k);
    }
    AllPending(Required(typed, c.types), c.requireCompleteSocial);
  }

  /** One of two requests, each with its identity. */
  predicate Identified(r: Request, id: Canonicalizer) {
    r.canonical == id(r.url)
  }

  /** Rows a lookup finds have its identity, when the identity is not empty and stands for itself. */
  lemma MatchedRow(row: UrlRow, r: Request, id: Canonicalizer)
    requires CanonicalOk(row, id) && Identified(r, id) && r.canonical != "" && id(r.canonical) == r.canonical
    requires Matches(row, r.url, r.canonical)
    ensures id(row.original) == r.canonical
  {
  }

  /** Which rows a lookup for q finds after r's row is ensured, when r has another identity: the same ones. */
  lemma OtherRows(urls: seq<UrlRow>, r: Request, exact: Option<nat>, q: Request, id: Canonicalizer)
    requires UrlsOk(urls, id) && IsExact(urls, r.url, exact) && Identified(r, id) && Identified(q, id)
    requires q.canonical != "" && id(q.canonical) == q.canonical && r.canonical != q.canonical
    ensures MatchingRows(Ensured(urls, r.url, r.canonical, exact).0, q.url, q.canonical) == MatchingRows(urls, q.url, q.canonical)
    ensures Ensured(urls, r.url, r.canonical, exact).1 !in MatchingRows(urls, q.url, q.canonical)
  {
    var (after, x) := Ensured(urls, r.url, r.canonical, exact);
    EnsuredLaw(urls, r.url, r.canonical, exact);
    EnsuredKeepsUrls(urls, r.url, id, exact);
    if Matches(after[x], q.url, q.canonical) { MatchedRow(after[x], q, id); }
    if x < |urls| && Matches(urls[x], q.url, q.canonical) { MatchedRow(urls[x], q, id); }
    forall i: nat | i < |after| && i != x ensures i < |urls| && after[i] == urls[i] {}
  }

  /** Creating a capture of another identity changes nothing a lookup finds. */
  lemma OtherInsert(t: Tables, r: Request, exact: Option<nat>, q: Request, c: Criteria, only: Option<nat>, id: Canonicalizer)
    requires Ok(t, id) && IsExact(t.urls, r.url, exact) && Identified(r, id) && Identified(q, id)
    requires q.canonical != "" && id(q.canonical) == q.canonical && r.canonical != q.canonical
    requires Finds(t, q, c, only) && (only.Some? ==> only.value < |t.captures|)
    ensures Finds(Inserted(t, r, exact, None), q, c, only)
  {
    var after := Inserted(t, r, exact, None);
    OtherRows(t.urls, r, exact, q, id);
    forall j: nat | j < |after.captures| ensures IsCandidate(after, RowsFor(after, q), c, j) <==> only == Some(j) {
      if j < |t.captures| {
        InsertKeepsStanding(t, r, exact, c, j);
        assert IsCandidate(after, RowsFor(after, q), c, j) <==> IsCandidate(t, RowsFor(t, q), c, j);
      }
    }
  }

  lemma OwnRows(urls: seq<UrlRow>, r: Request, exact: Option<nat>, q: Request, i: nat)
    requires IsExact(urls, r.url, exact) && q.canonical == r.canonical != ""
    ensures var (after, x) := Ensured(urls, r.url, r.canonical, exact);
            && x in MatchingRows(after, q.url, q.canonical)
            && (i < |urls| && i in MatchingRows(after, q.url, q.canonical) ==>
                  i in MatchingRows(urls, q.url, q.canonical) || (i == x && i in MatchingRows(urls, r.url, r.canonical)))
  {
    EnsuredLaw(urls, r.url, r.canonical, exact);
  }

  /** Creating a capture of the identity makes it the one thing every lookup of the identity finds. */
  lemma OwnInsert(t: Tables, r: Request, exact: Option<nat>, q: Request, c: Criteria, id: Canonicalizer)
    requires Ok(t, id) && IsExact(t.urls, r.url, exact) && q.canonical == r.canonical != ""
    requires c.types != [] && forall i :: 0 <= i < |c.types| ==> c.types[i] in r.types
    requires Finds(t, r, c, None) && Finds(t, q, c, None)
    ensures Finds(Inserted(t, r, exact, None), q, c, Some(|t.captures|))
  {
    var after, n := Inserted(t, r, exact, None), |t.captures|;
    NewStandsPending(t, r, exact, c);
    OwnRows(t.urls, r, exact, q, 0);
    forall j: nat | j < n ensures !IsCandidate(after, RowsFor(after, q), c, j) {
      InsertKeepsStanding(t, r, exact, c, j);
      assert AliasOk(t.urls, t.captures, id, j);
      OwnRows(t.urls, r, exact, q, t.captures[j].urlID);
      assert !IsCandidate(t, RowsFor(t, q), c, j) && !IsCandidate(t, RowsFor(t, r), c, j);
    }
    assert IsCandidate(after, RowsFor(after, q), c, n);
  }

  // ----- Interleavings

  /** The callers are find-or-create calls; those of this identity ask for the same types. */
  predicate Team(u: Setup, id: Canonicalizer, canon: string, c: Criteria) {
    && ValidSetup(u) && canon != "" && id(canon) == canon && c.types != []
    && (forall i :: 0 <= i < |u.calls| ==> Identified(u.calls[i].request, id))
    && (forall i :: 0 <= i < |u.calls| && Member(u, canon, i) ==> Asks(u.calls[i], c))
  }

  predicate Member(u: Setup, canon: string, i: nat)
    requires i < |u.calls|
  {
    u.calls[i].request.canonical == canon
  }

  predicate Asks(call: Call, c: Criteria) {
    call.criteria == c && forall i :: 0 <= i < |c.types| ==> c.types[i] in call.request.types
  }

  /** A step of the transaction reads and writes what FindOrCreateCapture does. */
  ghost predicate Honest(t: Tables, call: Call, pc: PC, choice: Choice) {
    && (pc.Critical? && choice.Read? ==> Decides(t, call.request, call.criteria, choice.decision))
    && (pc.Decided? && choice.Commit? ==>
          CanCommit(t, call.request, pc.decision)
          && choice.t == Effect(t, call.request, pc.decision)
          && choice.answer == AnswerOf(t, call.request, pc.decision))
  }

  /** Commits only what is still possible: the unique indexes on addresses and short ids hold. */
  predicate CanCommit(t: Tables, r: Request, d: Decision) {
    match d
    case Join(k, _) => k < |t.captures|
    case Create(exact) => IsExact(t.urls, r.url, exact) && FreshShortID(t.captures, r.shortID)
  }

  /** Who created the identity's capture, and which it is. */
  datatype Winner = Nobody | Winner(caller: nat, capture: nat)

  predicate Won(w: Winner, i: nat) {
    w.Winner? && w.caller == i
  }

  function AnswerFor(answers: map<nat, Answer>, i: nat): Option<Answer> {
    if i in answers then Some(answers[i]) else None
  }

  ghost predicate MemberOk(t: Tables, r: Request, c: Criteria, w: Winner, won: bool, answer: Option<Answer>, pc: PC) {
    match w
    case Nobody =>
      && Finds(t, r, c, None)
      && (answer.Some? ==> answer.value.Failed?)
      && (pc.Decided? ==> pc.decision.Create?)
    case Winner(_, k) =>
      && k < |t.captures| && Finds(t, r, c, Some(k))
      && (pc.Decided? ==> pc.decision == Join(k, Queueing))
      && (answer.Some? ==>
            if won then answer.value == Created(t.captures[k].shortID)
            else answer.value.Failed? || answer.value == InProgress(t.captures[k].shortID, Queueing))
  }

  ghost predicate WinnerOk(u: Setup, s: Sys, canon: string, c: Criteria, w: Winner) {
    w.Winner? ==>
      && w.caller < |u.calls| && Member(u, canon, w.caller) && w.caller in s.answers
      && w.capture < |s.t.captures| && Stands(s.t.items, w.capture, c) == Some(Standing(Queueing, 0))
  }

  ghost predicate MemberAt(u: Setup, s: Sys, canon: string, c: Criteria, w: Winner, i: nat)
    requires i < |u.calls| == |s.pcs| && Member(u, canon, i)
  {
    MemberOk(s.t, u.calls[i].request, c, w, Won(w, i), AnswerFor(s.answers, i), s.pcs[i])
  }

  ghost predicate Settled(u: Setup, s: Sys, canon: string, c: Criteria, w: Winner)
    requires |s.pcs| == |u.calls|
  {
    && WinnerOk(u, s, canon, c, w)
    && forall i :: 0 <= i < |u.calls| && Member(u, canon, i) ==> MemberAt(u, s, canon, c, w, i)
  }

  predicate Past(pc: PC) {
    pc.Ended? || pc.Unlocked? || pc.Leaving? || pc.Discounted? || pc.Closing? || pc.Done?
  }

  predicate AnswersOk(pcs: seq<PC>, answers: map<nat, Answer>) {
    forall i :: 0 <= i < |pcs| ==> (i in answers <==> Past(pcs[i]))
  }

  ghost predicate OnceOk(u: Setup, s: Sys, id: Canonicalizer, canon: string, c: Criteria, w: Winner) {
    LockOk(u, s) && Ok(s.t, id) && AnswersOk(s.pcs, s.answers) && Settled(u, s, canon, c, w)
  }

  lemma StepAnswers(u: Setup, s: Sys, m: nat, choice: Choice)
    requires Shaped(u, s) && m < |u.calls| && CanStep(u, s, m, choice) && AnswersOk(s.pcs, s.answers)
    ensures var s2 := After(u, s, m, choice); AnswersOk(s2.pcs, s2.answers)
  {
  }

  /** Creating keeps the tables in order. */
  lemma StepTables(u: Setup, s: Sys, id: Canonicalizer, m: nat, choice: Choice)
    requires Shaped(u, s) && m < |u.calls| && CanStep(u, s, m, choice) && Ok(s.t, id)
    requires Identified(u.calls[m].request, id) && Honest(s.t, u.calls[m], s.pcs[m], choice)
    ensures Ok(After(u, s, m, choice).t, id)
  {
    if s.pcs[m].Decided? && choice.Commit? && s.pcs[m].decision.Create? {
      InsertKeepsOk(s.t, u.calls[m].request, id, s.pcs[m].decision.exact, None);
    }
  }

  /** A caller that does not commit: the tables stay, and it alone learns something. */
  lemma StepQuietly(u: Setup, s: Sys, canon: string, c: Criteria, w: Winner, m: nat, choice: Choice)
    requires Shaped(u, s) && AnswersOk(s.pcs, s.answers) && Settled(u, s, canon, c, w)
    requires m < |u.calls| && CanStep(u, s, m, choice) && Honest(s.t, u.calls[m], s.pcs[m], choice)
    requires Member(u, canon, m) ==> u.calls[m].criteria == c
    requires !(s.pcs[m].Decided? && choice.Commit?)
    ensures Settled(u, After(u, s, m, choice), canon, c, w)
  {
    var s2 := After(u, s, m, choice);
    forall i | 0 <= i < |u.calls| && Member(u, canon, i)
      ensures MemberAt(u, s2, canon, c, w, i)
    {
      assert MemberAt(u, s, canon, c, w, i);
      if i == m && s.pcs[m].Critical? && choice.Read? { ReadSees(s.t, u.calls[m].request, c, w, choice.decision); }
    }
  }

  /** A reading comes to the one capture there is, or to creating one. */
  lemma ReadSees(t: Tables, r: Request, c: Criteria, w: Winner, d: Decision)
    requires Decides(t, r, c, d) && (w.Winner? ==> w.capture < |t.captures|)
    requires Finds(t, r, c, if w.Winner? then Some(w.capture) else None)
    requires w.Winner? ==> Stands(t.items, w.capture, c) == Some(Standing(Queueing, 0))
    ensures if w.Winner? then d == Join(w.capture, Queueing) else d.Create?
  {
  }

  /** Joining answers with the capture there is. */
  lemma StepJoins(u: Setup, s: Sys, canon: string, c: Criteria, w: Winner, m: nat, choice: Choice)
    requires Shaped(u, s) && AnswersOk(s.pcs, s.answers) && Settled(u, s, canon, c, w)
    requires m < |u.calls| && CanStep(u, s, m, choice) && Honest(s.t, u.calls[m], s.pcs[m], choice)
    requires s.pcs[m].Decided? && choice.Commit? && s.pcs[m].decision.Join?
    ensures Settled(u, After(u, s, m, choice), canon, c, w)
  {
    var s2 := After(u, s, m, choice);
    forall i | 0 <= i < |u.calls| && Member(u, canon, i)
      ensures MemberAt(u, s2, canon, c, w, i)
    {
      assert MemberAt(u, s, canon, c, w, i);
    }
  }

  /** Another identity's capture is created. */
  lemma StepElsewhere(u: Setup, s: Sys, id: Canonicalizer, canon: string, c: Criteria, w: Winner, m: nat, choice: Choice)
    requires Shaped(u, s) && Ok(s.t, id) && AnswersOk(s.pcs, s.answers) && Settled(u, s, canon, c, w)
    requires m < |u.calls| && CanStep(u, s, m, choice) && Honest(s.t, u.calls[m], s.pcs[m], choice)
    requires s.pcs[m].Decided? && choice.Commit? && s.pcs[m].decision.Create? && !Member(u, canon, m)
    requires canon != "" && id(canon) == canon && forall i :: 0 <= i < |u.calls| ==> Identified(u.calls[i].request, id)
    ensures Settled(u, After(u, s, m, choice), canon, c, w)
  {
    var s2, r, exact := After(u, s, m, choice), u.calls[m].request, s.pcs[m].decision.exact;
    if w.Winner? { InsertKeepsStanding(s.t, r, exact, c, w.capture); }
    forall i | 0 <= i < |u.calls| && Member(u, canon, i)
      ensures MemberAt(u, s2, canon, c, w, i)
    {
      assert MemberAt(u, s, canon, c, w, i);
      OtherInsert(s.t, r, exact, u.calls[i].request, c, if w.Winner? then Some(w.capture) else None, id);
    }
  }

  /** The identity's capture is created: nobody else of the identity is inside a transaction to create a second. */
  lemma StepCreates(u: Setup, s: Sys, id: Canonicalizer, canon: string, c: Criteria, w: Winner, m: nat, choice: Choice)
    requires Shaped(u, s) && Ok(s.t, id) && AnswersOk(s.pcs, s.answers) && Settled(u, s, canon, c, w)
    requires m < |u.calls| && CanStep(u, s, m, choice) && Honest(s.t, u.calls[m], s.pcs[m], choice)
    requires s.pcs[m].Decided? && choice.Commit? && s.pcs[m].decision.Create? && Member(u, canon, m) && Asks(u.calls[m], c)
    requires canon != "" && c.types != []
    requires forall i :: 0 <= i < |u.calls| && i != m && Member(u, canon, i) ==> !InTransaction(s.pcs[i])
    ensures w.Nobody? && Settled(u, After(u, s, m, choice), canon, c, Winner(m, |s.t.captures|))
  {
    var s2, r, exact := After(u, s, m, choice), u.calls[m].request, s.pcs[m].decision.exact;
    var w2 := Winner(m, |s.t.captures|);
    assert MemberAt(u, s, canon, c, w, m);
    NewStandsPending(s.t, r, exact, c);
    forall i | 0 <= i < |u.calls| && Member(u, canon, i)
      ensures MemberAt(u, s2, canon, c, w2, i)
    {
      assert MemberAt(u, s, canon, c, w, i);
      OwnInsert(s.t, r, exact, u.calls[i].request, c, id);
    }
  }

  lemma Alone(u: Setup, s: Sys, canon: string, m: nat)
    requires ValidSetup(u) && LockOk(u, s) && m < |u.calls| && Member(u, canon, m) && InTransaction(s.pcs[m])
    ensures forall i :: 0 <= i < |u.calls| && i != m && Member(u, canon, i) ==> !InTransaction(s.pcs[i])
  {
    forall i | 0 <= i < |u.calls| && Member(u, canon, i) && InTransaction(s.pcs[i]) ensures i == m {
      MutualExclusion(u, s, i, m);
    }
  }

  function NextWinner(u: Setup, s: Sys, canon: string, w: Winner, m: nat, choice: Choice): Winner
    requires m < |u.calls| == |s.pcs|
  {
    if s.pcs[m].Decided? && choice.Commit? && s.pcs[m].decision.Create? && Member(u, canon, m) then
      Winner(m, |s.t.captures|)
    else w
  }

  lemma StepCommits(u: Setup, s: Sys, id: Canonicalizer, canon: string, c: Criteria, w: Winner, m: nat, choice: Choice)
    requires OnceOk(u, s, id, canon, c, w) && Team(u, id, canon, c)
    requires m < |u.calls| && CanStep(u, s, m, choice) && Honest(s.t, u.calls[m], s.pcs[m], choice)
    requires s.pcs[m].Decided? && choice.Commit? && s.pcs[m].decision.Create?
    ensures Settled(u, After(u, s, m, choice), canon, c, NextWinner(u, s, canon, w, m, choice))
  {
    if Member(u, canon, m) {
      assert Asks(u.calls[m], c);
      Alone(u, s, canon, m);
      StepCreates(u, s, id, canon, c, w, m, choice);
    } else {
      StepElsewhere(u, s, id, canon, c, w, m, choice);
    }
  }

  lemma StepSettles(u: Setup, s: Sys, id: Canonicalizer, canon: string, c: Criteria, w: Winner, m: nat, choice: Choice)
    requires OnceOk(u, s, id, canon, c, w) && Team(u, id, canon, c)
    requires m < |u.calls| && CanStep(u, s, m, choice) && Honest(s.t, u.calls[m], s.pcs[m], choice)
    ensures Settled(u, After(u, s, m, choice), canon, c, NextWinner(u, s, canon, w, m, choice))
  {
    if !(s.pcs[m].Decided? && choice.Commit?) {
      assert Member(u, canon, m) ==> Asks(u.calls[m], c);
      StepQuietly(u, s, canon, c, w, m, choice);
    } else if s.pcs[m].decision.Join? {
      StepJoins(u, s, canon, c, w, m, choice);
    } else {
      StepCommits(u, s, id, canon, c, w, m, choice);
    }
  }

  lemma StepKeepsOnce(u: Setup, s: Sys, id: Canonicalizer, canon: string, c: Criteria, w: Winner, m: nat, choice: Choice)
    requires OnceOk(u, s, id, canon, c, w) && Team(u, id, canon, c)
    requires m < |u.calls| && CanStep(u, s, m, choice) && Honest(s.t, u.calls[m], s.pcs[m], choice)
    ensures OnceOk(u, After(u, s, m, choice), id, canon, c, NextWinner(u, s, canon, w, m, choice))
  {
    StepKeepsLock(u, s, m, choice);
    StepTables(u, s, id, m, choice);
    StepAnswers(u, s, m, choice);
    StepSettles(u, s, id, canon, c, w, m, choice);
  }

  // ----- Whole runs

  ghost predicate HonestRun(u: Setup, s: Sys, moves: seq<Move>)
    requires LockOk(u, s)
  {
    moves == [] ||
    var n := |moves| - 1;
    HonestRun(u, s, moves[..n]) && Run(u, s, moves[..n]).Some? && moves[n].caller < |u.calls|
    && var before, m := Run(u, s, moves[..n]).value, moves[n];
       Honest(before.t, u.calls[m.caller], before.pcs[m.caller], m.choice)
  }

  /** No caller of the identity finds a reusable capture before the run. */
  ghost predicate NoneReusable(u: Setup, t: Tables, canon: string, c: Criteria) {
    forall i :: 0 <= i < |u.calls| && Member(u, canon, i) ==> Finds(t, u.calls[i].request, c, None)
  }

  /** The moves are a run of find-or-create calls that starts with every caller before its first statement. */
  ghost predicate IsRun(u: Setup, t: Tables, moves: seq<Move>)
    requires InstancesOk(u)
  {
    InitialOk(u, t);
    IsSchedule(u, t, moves) && HonestRun(u, Initial(u, t), moves)
  }

  ghost function Reached(u: Setup, t: Tables, moves: seq<Move>): Sys
    requires InstancesOk(u) && IsRun(u, t, moves)
  {
    InitialOk(u, t);
    Run(u, Initial(u, t), moves).value
  }

  lemma {:induction false} RunSettles(u: Setup, t: Tables, id: Canonicalizer, canon: string, c: Criteria, moves: seq<Move>)
    returns (w: Winner)
    requires Team(u, id, canon, c) && InstancesOk(u) && Ok(t, id) && NoneReusable(u, t, canon, c)
    requires IsRun(u, t, moves)
    ensures OnceOk(u, Reached(u, t, moves), id, canon, c, w)
  {
    var s := Initial(u, t);
    InitialOk(u, t);
    if moves == [] {
      w := Nobody;
      forall i | 0 <= i < |u.calls| && Member(u, canon, i) ensures MemberAt(u, s, canon, c, w, i) {}
    } else {
      var n := |moves| - 1;
      var before := RunSettles(u, t, id, canon, c, moves[..n]);
      w := NextWinner(u, Reached(u, t, moves[..n]), canon, before, moves[n].caller, moves[n].choice);
      StepKeepsOnce(u, Reached(u, t, moves[..n]), id, canon, c, before, moves[n].caller, moves[n].choice);
    }
  }

  /** This caller created the capture the others answer with. */
  predicate CreatedFor(u: Setup, s: Sys, canon: string, i: nat) {
    i < |u.calls| && Member(u, canon, i) && i in s.answers && s.answers[i].Created?
    && forall j :: 0 <= j < |u.calls| && j != i && Member(u, canon, j) && j in s.answers ==>
         s.answers[j].Failed? || s.answers[j] == InProgress(s.answers[i].shortID, Queueing)
  }

  lemma SettledAnswers(u: Setup, s: Sys, canon: string, c: Criteria, w: Winner)
    requires |s.pcs| == |u.calls| && AnswersOk(s.pcs, s.answers) && Settled(u, s, canon, c, w)
    ensures if w.Winner? then CreatedFor(u, s, canon, w.caller)
            else forall i :: 0 <= i < |u.calls| && Member(u, canon, i) && i in s.answers ==> s.answers[i].Failed?
    ensures forall i :: 0 <= i < |u.calls| && s.pcs[i].Done? ==> i in s.answers
  {
    forall i | 0 <= i < |u.calls| && Member(u, canon, i) ensures MemberAt(u, s, canon, c, w, i) {}
  }

  /**
   * Whatever the interleaving of find-or-create calls for one identity that starts without a reusable capture: at
   * most one answers "created", and every other answer is a failure or "in progress" with that same capture. When
   * everybody is done and nobody failed, exactly one created.
   */
  lemma CreatedOnce(u: Setup, t: Tables, id: Canonicalizer, canon: string, c: Criteria, moves: seq<Move>)
    requires Team(u, id, canon, c) && InstancesOk(u) && Ok(t, id) && NoneReusable(u, t, canon, c)
    requires IsRun(u, t, moves)
    ensures var s := Reached(u, t, moves);
            && ((exists i :: CreatedFor(u, s, canon, i))
                || forall i :: 0 <= i < |u.calls| && Member(u, canon, i) && i in s.answers ==> s.answers[i].Failed?)
            && (forall i :: 0 <= i < |u.calls| && s.pcs[i].Done? ==> i in s.answers)
  {
    var w := RunSettles(u, t, id, canon, c, moves);
    SettledAnswers(u, Reached(u, t, moves), canon, c, w);
  }
}
