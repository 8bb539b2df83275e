/**
 * The lock around capture creation, as interleaved steps of any number of callers: a reference-counted table of
 * mutexes in each process, and the database's advisory lock across processes.
 */
module CaptureLock {
  import opened Models
  import opened Captures
  import opened CaptureStore

  /** One call: which process serves it, what it asks, and its advisory lock key. */
  datatype Call = Call(instance: nat, request: Request, criteria: Criteria, advisoryKey: int)

  datatype Setup = Setup(instances: nat, postgres: bool, calls: seq<Call>)

  /** An identityLock object; its number is its address. */
  datatype Lock = Lock(refs: int, holder: Option<nat>)

  /** Where a caller is: the statement it is about to run. */
  datatype PC =
    | Start
    | Entering                                // s.mu held
    | Missing                                 // the table has no lock for the identity
    | Located(lock: nat)
    | Counted(lock: nat)                      // refs incremented
    | Waiting(lock: nat)                      // s.mu released
    | Locked(lock: nat)                       // lock.mu held
    | Critical(lock: nat)                     // inside the transaction, advisory lock held
    | Decided(lock: nat, decision: Decision)  // the tables have been read
    | Ended(lock: nat)                        // committed or rolled back
    | Unlocked(lock: nat)                     // lock.mu released
    | Leaving(lock: nat)                      // s.mu held
    | Discounted(lock: nat)                   // refs decremented
    | Closing                                 // evicted if unused
    | Done

  type Key = (nat, string)

  /** Everything shared, every caller's position, and the answers given. */
  datatype Sys = Sys(
    mu: seq<Option<nat>>,
    table: map<Key, nat>,
    locks: seq<Lock>,
    advisory: map<int, nat>,
    pcs: seq<PC>,
    answers: map<nat, Answer>,
    t: Tables)

  /** A process without advisory locks stands alone; one identity has one advisory key. */
  predicate ValidSetup(u: Setup) {
    && (u.postgres || u.instances <= 1)
    && (forall c, d :: 0 <= c < |u.calls| && 0 <= d < |u.calls| ==>
          u.calls[c].request.canonical == u.calls[d].request.canonical ==>
          u.calls[c].advisoryKey == u.calls[d].advisoryKey)
  }

  function KeyOf(u: Setup, c: nat): Key
    requires c < |u.calls|
  {
    (u.calls[c].instance, u.calls[c].request.canonical)
  }

  // ----- Positions

  predicate HasMu(pc: PC) {
    pc.Entering? || pc.Missing? || pc.Located? || pc.Counted? || pc.Leaving? || pc.Discounted? || pc.Closing?
  }

  /** Between the count-in and the count-out step. */
  predicate IsCounted(pc: PC) {
    pc.Counted? || pc.Waiting? || pc.Locked? || pc.Critical? || pc.Decided? || pc.Ended? || pc.Unlocked? || pc.Leaving?
  }

  predicate Knows(pc: PC) {
    IsCounted(pc) || pc.Located? || pc.Discounted?
  }

  predicate HoldsLock(pc: PC) {
    pc.Locked? || pc.Critical? || pc.Decided? || pc.Ended?
  }

  predicate InTransaction(pc: PC) {
    pc.Critical? || pc.Decided?
  }

  // ----- Steps

  /**
   * What a step brings: a statement fails, the transaction reads and decides, or it commits new tables and an answer.
   * The lock does not care what transactions do.
   */
  datatype Choice = Fail | Go | Read(decision: Decision) | Commit(t: Tables, answer: Answer)

  predicate CanStep(u: Setup, s: Sys, c: nat, choice: Choice)
    requires Shaped(u, s) && c < |u.calls|
  {
    var call := u.calls[c];
    match s.pcs[c]
    case Start => s.mu[call.instance].None?
    case Waiting(l) => s.locks[l].holder.None?
    case Locked(_) => choice.Fail? || (u.postgres ==> call.advisoryKey !in s.advisory)
    case Critical(_) => choice.Fail? || choice.Read?
    case Decided(_, _) => choice.Fail? || choice.Commit?
    case Unlocked(_) => s.mu[call.instance].None?
    case Done => false
    case _ => true
  }

  /** Positions and lock numbers are in range. */
  predicate Shaped(u: Setup, s: Sys) {
    && |s.mu| == u.instances && |s.pcs| == |u.calls|
    && (forall c :: 0 <= c < |u.calls| ==> u.calls[c].instance < u.instances)
    && (forall c :: 0 <= c < |s.pcs| && Knows(s.pcs[c]) ==> s.pcs[c].lock < |s.locks|)
  }

  /** The statement after this one. */
  function NextPC(pc: PC, entry: Option<nat>, created: nat, choice: Choice): PC {
    match pc
    case Start => Entering
    case Entering => if entry.Some? then Located(entry.value) else Missing
    case Missing => Located(created)
    case Located(l) => Counted(l)
    case Counted(l) => Waiting(l)
    case Waiting(l) => Locked(l)
    case Locked(l) => if choice.Fail? then Ended(l) else Critical(l)
    case Critical(l) => if choice.Read? then Decided(l, choice.decision) else Ended(l)
    case Decided(l, _) => Ended(l)
    case Ended(l) => Unlocked(l)
    case Unlocked(l) => Leaving(l)
    case Leaving(l) => Discounted(l)
    case Discounted(_) => Closing
    case Closing => Done
    case Done => Done
  }

  /** s.mu: taken to count in and to count out. */
  function NextMu(mu: seq<Option<nat>>, i: nat, c: nat, pc: PC): seq<Option<nat>>
    requires i < |mu|
  {
    if pc.Start? || pc.Unlocked? then mu[i := Some(c)]
    else if pc.Counted? || pc.Closing? then mu[i := None]
    else mu
  }

  /** s.locks: an entry where none was found, and none once nobody is counted on it. */
  function NextTable(table: map<Key, nat>, locks: seq<Lock>, key: Key, pc: PC): map<Key, nat>
    requires pc.Discounted? ==> pc.lock < |locks|
  {
    if pc.Missing? then table[key := |locks|]
    else if pc.Discounted? && locks[pc.lock].refs == 0 then table - {key}
    else table
  }

  /** The lock objects: created, counted in, taken, released, counted out. */
  function NextLocks(locks: seq<Lock>, c: nat, pc: PC): seq<Lock>
    requires Knows(pc) ==> pc.lock < |locks|
  {
    if pc.Missing? then locks + [Lock(0, None)]
    else if pc.Located? then locks[pc.lock := locks[pc.lock].(refs := locks[pc.lock].refs + 1)]
    else if pc.Waiting? then locks[pc.lock := locks[pc.lock].(holder := Some(c))]
    else if pc.Ended? then locks[pc.lock := locks[pc.lock].(holder := None)]
    else if pc.Leaving? then locks[pc.lock := locks[pc.lock].(refs := locks[pc.lock].refs - 1)]
    else locks
  }

  /** The advisory lock: taken inside the transaction, gone with it. */
  function NextAdvisory(advisory: map<int, nat>, postgres: bool, key: int, c: nat, pc: PC, choice: Choice): map<int, nat> {
    if pc.Locked? && !choice.Fail? && postgres then advisory[key := c]
    else if InTransaction(pc) && !choice.Read? then advisory - {key}
    else advisory
  }

  function NextAnswers(answers: map<nat, Answer>, c: nat, pc: PC, choice: Choice): map<nat, Answer> {
    if (pc.Locked? || InTransaction(pc)) && choice.Fail? then answers[c := Answer.Failed]
    else if pc.Decided? && choice.Commit? then answers[c := choice.answer]
    else answers
  }

  function After(u: Setup, s: Sys, c: nat, choice: Choice): Sys
    requires Shaped(u, s) && c < |u.calls| && CanStep(u, s, c, choice)
  {
    var call, key, pc := u.calls[c], KeyOf(u, c), s.pcs[c];
    Sys(
      NextMu(s.mu, call.instance, c, pc),
      NextTable(s.table, s.locks, key, pc),
      NextLocks(s.locks, c, pc),
      NextAdvisory(s.advisory, u.postgres, call.advisoryKey, c, pc, choice),
      s.pcs[c := NextPC(pc, if key in s.table then Some(s.table[key]) else None, |s.locks|, choice)],
      NextAnswers(s.answers, c, pc, choice),
      if pc.Decided? && choice.Commit? then choice.t else s.t)
  }

  // ----- What every interleaving keeps

  /** A process's table mutex is held by exactly the caller whose position says so. */
  predicate MuOk(calls: seq<Call>, mu: seq<Option<nat>>, pcs: seq<PC>) {
    && |pcs| == |calls| && (forall c :: 0 <= c < |calls| ==> calls[c].instance < |mu|)
    && (forall c :: 0 <= c < |pcs| ==> (HasMu(pcs[c]) <==> mu[calls[c].instance] == Some(c)))
    && (forall i :: 0 <= i < |mu| && mu[i].Some? ==> mu[i].value < |pcs| && calls[mu[i].value].instance == i)
  }

  predicate KnowsEntry(call: Call, table: map<Key, nat>, pc: PC) {
    var key := (call.instance, call.request.canonical);
    (Knows(pc) ==> key in table && table[key] == pc.lock) && (pc.Missing? ==> key !in table)
  }

  /** The table entry is the very lock object a caller knows, and no two identities share one. */
  predicate TableOk(calls: seq<Call>, table: map<Key, nat>, pcs: seq<PC>, n: nat) {
    && |pcs| == |calls| && (forall c :: 0 <= c < |pcs| ==> KnowsEntry(calls[c], table, pcs[c]))
    && (forall k :: k in table ==> table[k] < n)
    && (forall j, k :: j in table && k in table && j != k ==> table[j] != table[k])
  }

  predicate CountedOn(pc: PC, l: nat) {
    IsCounted(pc) && pc.lock == l
  }

  function Users(pcs: seq<PC>, l: nat): set<nat> {
    set c: nat | c < |pcs| && CountedOn(pcs[c], l)
  }

  /** refs is the number of callers between the count-in and the count-out step. */
  predicate RefsOk(locks: seq<Lock>, pcs: seq<PC>) {
    forall l :: 0 <= l < |locks| ==> RefOk(locks[l], pcs, l)
  }

  predicate RefOk(lock: Lock, pcs: seq<PC>, l: nat) {
    lock.refs == |Users(pcs, l)|
  }

  /** The caller is about to be counted on the lock, or about to evict it. */
  predicate Transient(pc: PC, l: nat) {
    (pc.Located? || pc.Discounted?) && pc.lock == l
  }

  /** A table entry has a caller counted on it, or in one of those two positions. */
  predicate EntriesOk(table: map<Key, nat>, pcs: seq<PC>) {
    forall k :: k in table ==> Used(pcs, table[k])
  }

  predicate Uses(pc: PC, l: nat) {
    CountedOn(pc, l) || Transient(pc, l)
  }

  predicate Used(pcs: seq<PC>, l: nat) {
    exists c :: 0 <= c < |pcs| && Uses(pcs[c], l)
  }

  predicate Holds(pc: PC, l: nat) {
    HoldsLock(pc) && pc.lock == l
  }

  predicate HoldersOk(locks: seq<Lock>, pcs: seq<PC>) {
    && (forall c, l :: 0 <= c < |pcs| && 0 <= l < |locks| ==> (Holds(pcs[c], l) <==> locks[l].holder == Some(c)))
    && (forall l :: 0 <= l < |locks| && locks[l].holder.Some? ==> locks[l].holder.value < |pcs|)
  }

  predicate AdvisoryOk(u: Setup, advisory: map<int, nat>, pcs: seq<PC>) {
    && (forall c :: 0 <= c < |pcs| && InTransaction(pcs[c]) && u.postgres ==>
          c < |u.calls| && u.calls[c].advisoryKey in advisory && advisory[u.calls[c].advisoryKey] == c)
    && (forall a :: a in advisory ==>
          advisory[a] < |pcs| && advisory[a] < |u.calls| && u.calls[advisory[a]].advisoryKey == a
          && InTransaction(pcs[advisory[a]]))
  }

  predicate LockOk(u: Setup, s: Sys) {
    && Shaped(u, s) && MuOk(u.calls, s.mu, s.pcs) && TableOk(u.calls, s.table, s.pcs, |s.locks|) && RefsOk(s.locks, s.pcs)
    && EntriesOk(s.table, s.pcs) && HoldersOk(s.locks, s.pcs) && AdvisoryOk(u, s.advisory, s.pcs)
  }

  // ----- One caller moves

  predicate MuMoves(mu: seq<Option<nat>>, after: seq<Option<nat>>, i: nat, c: nat, was: PC, now: PC)
    requires i < |mu|
  {
    if !HasMu(was) && HasMu(now) then mu[i].None? && after == mu[i := Some(c)]
    else if HasMu(was) && !HasMu(now) then after == mu[i := None]
    else after == mu
  }

  lemma MuStep(calls: seq<Call>, mu: seq<Option<nat>>, after: seq<Option<nat>>, pcs: seq<PC>, c: nat, pc: PC)
    requires MuOk(calls, mu, pcs) && c < |pcs| && MuMoves(mu, after, calls[c].instance, c, pcs[c], pc)
    ensures MuOk(calls, after, pcs[c := pc])
  {
  }

  lemma TableStep(calls: seq<Call>, table: map<Key, nat>, pcs: seq<PC>, n: nat, c: nat, pc: PC)
    requires TableOk(calls, table, pcs, n) && c < |pcs| && KnowsEntry(calls[c], table, pc)
    ensures TableOk(calls, table, pcs[c := pc], n)
  {
  }

  function Counts(pc: PC, l: nat): int {
    if CountedOn(pc, l) then 1 else 0
  }

  predicate RefsMove(locks: seq<Lock>, after: seq<Lock>, was: PC, now: PC) {
    |after| == |locks|
    && forall l :: 0 <= l < |locks| ==> after[l].refs == locks[l].refs + Counts(now, l) - Counts(was, l)
  }

  lemma UsersMoved(pcs: seq<PC>, c: nat, pc: PC, l: nat)
    requires c < |pcs|
    ensures Users(pcs[c := pc], l) == Users(pcs, l) - {c} + (if CountedOn(pc, l) then {c} else {})
  {
  }

  /** The count of one lock when a caller moves. */
  lemma RefStep(lock: Lock, after: Lock, pcs: seq<PC>, c: nat, pc: PC, l: nat)
    requires c < |pcs| && RefOk(lock, pcs, l)
    requires after.refs == lock.refs + Counts(pc, l) - Counts(pcs[c], l)
    ensures RefOk(after, pcs[c := pc], l)
  {
    UsersMoved(pcs, c, pc, l);
    assert c in Users(pcs, l) <==> CountedOn(pcs[c], l);
  }

  lemma RefsStep(locks: seq<Lock>, after: seq<Lock>, pcs: seq<PC>, c: nat, pc: PC)
    requires c < |pcs| && RefsOk(locks, pcs) && RefsMove(locks, after, pcs[c], pc)
    ensures RefsOk(after, pcs[c := pc])
  {
    forall l | 0 <= l < |locks| ensures RefOk(after[l], pcs[c := pc], l) {
      RefStep(locks[l], after[l], pcs, c, pc, l);
    }
  }

  lemma UsedStep(pcs: seq<PC>, c: nat, pc: PC, l: nat)
    requires c < |pcs| && Used(pcs, l) && (Uses(pcs[c], l) ==> Uses(pc, l))
    ensures Used(pcs[c := pc], l)
  {
    var d :| 0 <= d < |pcs| && Uses(pcs[d], l);
    assert Uses(pcs[c := pc][d], l);
  }

  lemma EntriesStep(table: map<Key, nat>, pcs: seq<PC>, c: nat, pc: PC)
    requires EntriesOk(table, pcs) && c < |pcs|
    requires forall l :: Uses(pcs[c], l) ==> Uses(pc, l)
    ensures EntriesOk(table, pcs[c := pc])
  {
    forall k | k in table ensures Used(pcs[c := pc], table[k]) {
      UsedStep(pcs, c, pc, table[k]);
    }
  }

  predicate HolderMoves(lock: Lock, after: Lock, l: nat, c: nat, was: PC, now: PC) {
    if !Holds(was, l) && Holds(now, l) then lock.holder.None? && after.holder == Some(c)
    else if Holds(was, l) && !Holds(now, l) then after.holder.None?
    else after.holder == lock.holder
  }

  predicate HoldersMove(locks: seq<Lock>, after: seq<Lock>, c: nat, was: PC, now: PC) {
    |after| == |locks| && forall l :: 0 <= l < |locks| ==> HolderMoves(locks[l], after[l], l, c, was, now)
  }

  lemma HoldersStep(locks: seq<Lock>, after: seq<Lock>, pcs: seq<PC>, c: nat, pc: PC)
    requires HoldersOk(locks, pcs) && c < |pcs| && HoldersMove(locks, after, c, pcs[c], pc)
    ensures HoldersOk(after, pcs[c := pc])
  {
    forall l | 0 <= l < |locks| ensures HolderMoves(locks[l], after[l], l, c, pcs[c], pc) {}
  }

  predicate AdvisoryMoves(advisory: map<int, nat>, after: map<int, nat>, postgres: bool, key: int, c: nat, was: PC, now: PC) {
    if !InTransaction(was) && InTransaction(now) then
      if postgres then key !in advisory && after == advisory[key := c] else after == advisory
    else if InTransaction(was) && !InTransaction(now) then after == advisory - {key}
    else after == advisory
  }

  lemma AdvisoryStep(u: Setup, advisory: map<int, nat>, after: map<int, nat>, pcs: seq<PC>, c: nat, pc: PC)
    requires AdvisoryOk(u, advisory, pcs) && c < |pcs| && c < |u.calls|
    requires AdvisoryMoves(advisory, after, u.postgres, u.calls[c].advisoryKey, c, pcs[c], pc)
    ensures AdvisoryOk(u, after, pcs[c := pc])
  {
  }

  // ----- What a step moves

  lemma MovesMu(u: Setup, s: Sys, c: nat, choice: Choice)
    requires Shaped(u, s) && c < |u.calls| && CanStep(u, s, c, choice)
    ensures var s2 := After(u, s, c, choice);
            s2.pcs == s.pcs[c := s2.pcs[c]] && MuMoves(s.mu, s2.mu, u.calls[c].instance, c, s.pcs[c], s2.pcs[c])
  {
  }

  lemma MovesRefs(u: Setup, s: Sys, c: nat, choice: Choice)
    requires Shaped(u, s) && c < |u.calls| && CanStep(u, s, c, choice) && !s.pcs[c].Missing?
    ensures var s2 := After(u, s, c, choice); RefsMove(s.locks, s2.locks, s.pcs[c], s2.pcs[c])
  {
  }

  lemma MovesHolders(u: Setup, s: Sys, c: nat, choice: Choice)
    requires Shaped(u, s) && c < |u.calls| && CanStep(u, s, c, choice) && !s.pcs[c].Missing?
    ensures var s2 := After(u, s, c, choice); HoldersMove(s.locks, s2.locks, c, s.pcs[c], s2.pcs[c])
  {
  }

  lemma MovesAdvisory(u: Setup, s: Sys, c: nat, choice: Choice)
    requires Shaped(u, s) && c < |u.calls| && CanStep(u, s, c, choice)
    ensures var s2 := After(u, s, c, choice);
            AdvisoryMoves(s.advisory, s2.advisory, u.postgres, u.calls[c].advisoryKey, c, s.pcs[c], s2.pcs[c])
  {
  }

  /** Outside creation and eviction the table stays, and the caller keeps knowing its entry. */
  lemma MovesTable(u: Setup, s: Sys, c: nat, choice: Choice)
    requires Shaped(u, s) && c < |u.calls| && CanStep(u, s, c, choice) && KnowsEntry(u.calls[c], s.table, s.pcs[c])
    requires !s.pcs[c].Missing? && !s.pcs[c].Discounted?
    ensures var s2 := After(u, s, c, choice);
            s2.table == s.table && KnowsEntry(u.calls[c], s.table, s2.pcs[c])
            && forall l :: Uses(s.pcs[c], l) ==> Uses(s2.pcs[c], l)
  {
  }

  // ----- Every step keeps every invariant

  /** Nobody else of the process is inside the table's mutex. */
  lemma MuAlone(calls: seq<Call>, mu: seq<Option<nat>>, pcs: seq<PC>, c: nat)
    requires MuOk(calls, mu, pcs) && c < |pcs| && HasMu(pcs[c])
    ensures forall d :: 0 <= d < |pcs| && d != c && calls[d].instance == calls[c].instance ==> !HasMu(pcs[d])
  {
  }

  /** Creating an entry: nobody knows one for the key, and the new lock is nobody else's. */
  lemma TableCreated(u: Setup, s: Sys, c: nat)
    requires Shaped(u, s) && MuOk(u.calls, s.mu, s.pcs) && TableOk(u.calls, s.table, s.pcs, |s.locks|)
    requires c < |u.calls| && s.pcs[c].Missing?
    ensures TableOk(u.calls, s.table[KeyOf(u, c) := |s.locks|], s.pcs[c := Located(|s.locks|)], |s.locks| + 1)
  {
    var table, pcs := s.table[KeyOf(u, c) := |s.locks|], s.pcs[c := Located(|s.locks|)];
    MuAlone(u.calls, s.mu, s.pcs, c);
    assert KnowsEntry(u.calls[c], s.table, s.pcs[c]);
    forall d | 0 <= d < |pcs| ensures KnowsEntry(u.calls[d], table, pcs[d]) {
      assert KnowsEntry(u.calls[d], s.table, s.pcs[d]);
    }
  }

  /** Evicting an entry: nobody is counted on its lock, and nobody else is inside the mutex. */
  lemma TableEvicted(u: Setup, s: Sys, c: nat)
    requires Shaped(u, s) && MuOk(u.calls, s.mu, s.pcs) && TableOk(u.calls, s.table, s.pcs, |s.locks|) && RefsOk(s.locks, s.pcs)
    requires c < |u.calls| && s.pcs[c].Discounted? && s.locks[s.pcs[c].lock].refs == 0
    ensures TableOk(u.calls, s.table - {KeyOf(u, c)}, s.pcs[c := Closing], |s.locks|)
  {
    var key, pcs, l := KeyOf(u, c), s.pcs[c := Closing], s.pcs[c].lock;
    MuAlone(u.calls, s.mu, s.pcs, c);
    assert RefOk(s.locks[l], s.pcs, l);
    assert KnowsEntry(u.calls[c], s.table, s.pcs[c]);
    forall d | 0 <= d < |pcs| ensures KnowsEntry(u.calls[d], s.table - {key}, pcs[d]) {
      assert KnowsEntry(u.calls[d], s.table, s.pcs[d]);
      assert CountedOn(s.pcs[d], l) <==> d in Users(s.pcs, l);
    }
  }

  lemma EntriesCreated(u: Setup, s: Sys, c: nat)
    requires Shaped(u, s) && EntriesOk(s.table, s.pcs) && c < |u.calls| && s.pcs[c].Missing?
    ensures EntriesOk(s.table[KeyOf(u, c) := |s.locks|], s.pcs[c := Located(|s.locks|)])
  {
    var pcs, table := s.pcs[c := Located(|s.locks|)], s.table[KeyOf(u, c) := |s.locks|];
    forall k | k in table ensures Used(pcs, table[k]) {
      if k == KeyOf(u, c) {
        assert Uses(pcs[c], |s.locks|);
      } else {
        UsedStep(s.pcs, c, pcs[c], s.table[k]);
      }
    }
  }

  /** Leaving without evicting: either somebody is counted on the lock, or the entry goes. */
  lemma EntriesClosed(u: Setup, s: Sys, c: nat)
    requires Shaped(u, s) && TableOk(u.calls, s.table, s.pcs, |s.locks|) && RefsOk(s.locks, s.pcs) && EntriesOk(s.table, s.pcs)
    requires c < |u.calls| && s.pcs[c].Discounted?
    ensures EntriesOk(if s.locks[s.pcs[c].lock].refs == 0 then s.table - {KeyOf(u, c)} else s.table, s.pcs[c := Closing])
  {
    var l := s.pcs[c].lock;
    var table := if s.locks[l].refs == 0 then s.table - {KeyOf(u, c)} else s.table;
    assert KnowsEntry(u.calls[c], s.table, s.pcs[c]);
    assert RefOk(s.locks[l], s.pcs, l);
    forall k | k in table ensures Used(s.pcs[c := Closing], table[k]) {
      if k == KeyOf(u, c) {
        var d :| d in Users(s.pcs, l);
        assert Uses(s.pcs[c := Closing][d], l);
      } else {
        UsedStep(s.pcs, c, Closing, s.table[k]);
      }
    }
  }

  /** A new lock has no users and no holder. */
  lemma LockCreated(u: Setup, s: Sys, c: nat)
    requires Shaped(u, s) && RefsOk(s.locks, s.pcs) && HoldersOk(s.locks, s.pcs) && c < |u.calls| && s.pcs[c].Missing?
    ensures RefsOk(s.locks + [Lock(0, None)], s.pcs[c := Located(|s.locks|)])
    ensures HoldersOk(s.locks + [Lock(0, None)], s.pcs[c := Located(|s.locks|)])
  {
    var locks, pcs, n := s.locks + [Lock(0, None)], s.pcs[c := Located(|s.locks|)], |s.locks|;
    RefsStep(s.locks, s.locks, s.pcs, c, pcs[c]);
    HoldersStep(s.locks, s.locks, s.pcs, c, pcs[c]);
    assert Users(pcs, n) == {};
    forall l | 0 <= l < |locks| ensures RefOk(locks[l], pcs, l) {
      if l < n { assert RefOk(s.locks[l], pcs, l); }
    }
  }

  lemma StepShaped(u: Setup, s: Sys, c: nat, choice: Choice)
    requires Shaped(u, s) && c < |u.calls| && CanStep(u, s, c, choice)
    requires forall k :: k in s.table ==> s.table[k] < |s.locks|
    ensures Shaped(u, After(u, s, c, choice))
  {
    var s2 := After(u, s, c, choice);
    assert |s2.locks| >= |s.locks| && s2.pcs == s.pcs[c := s2.pcs[c]];
  }

  lemma StepTable(u: Setup, s: Sys, c: nat, choice: Choice)
    requires Shaped(u, s) && c < |u.calls| && CanStep(u, s, c, choice)
    requires MuOk(u.calls, s.mu, s.pcs) && TableOk(u.calls, s.table, s.pcs, |s.locks|) && RefsOk(s.locks, s.pcs)
    ensures var s2 := After(u, s, c, choice); TableOk(u.calls, s2.table, s2.pcs, |s2.locks|)
  {
    if s.pcs[c].Missing? {
      TableCreated(u, s, c);
    } else if s.pcs[c].Discounted? {
      if s.locks[s.pcs[c].lock].refs == 0 {
        TableEvicted(u, s, c);
      } else {
        TableStep(u.calls, s.table, s.pcs, |s.locks|, c, Closing);
      }
    } else {
      assert KnowsEntry(u.calls[c], s.table, s.pcs[c]);
      MovesTable(u, s, c, choice);
      TableStep(u.calls, s.table, s.pcs, |s.locks|, c, After(u, s, c, choice).pcs[c]);
    }
  }

  lemma StepEntries(u: Setup, s: Sys, c: nat, choice: Choice)
    requires Shaped(u, s) && c < |u.calls| && CanStep(u, s, c, choice)
    requires TableOk(u.calls, s.table, s.pcs, |s.locks|) && RefsOk(s.locks, s.pcs) && EntriesOk(s.table, s.pcs)
    ensures var s2 := After(u, s, c, choice); EntriesOk(s2.table, s2.pcs)
  {
    if s.pcs[c].Missing? {
      EntriesCreated(u, s, c);
    } else if s.pcs[c].Discounted? {
      EntriesClosed(u, s, c);
    } else {
      assert KnowsEntry(u.calls[c], s.table, s.pcs[c]);
      MovesTable(u, s, c, choice);
      EntriesStep(s.table, s.pcs, c, After(u, s, c, choice).pcs[c]);
    }
  }

  lemma StepLocks(u: Setup, s: Sys, c: nat, choice: Choice)
    requires Shaped(u, s) && c < |u.calls| && CanStep(u, s, c, choice)
    requires RefsOk(s.locks, s.pcs) && HoldersOk(s.locks, s.pcs)
    ensures var s2 := After(u, s, c, choice); RefsOk(s2.locks, s2.pcs) && HoldersOk(s2.locks, s2.pcs)
  {
    if s.pcs[c].Missing? {
      LockCreated(u, s, c);
    } else {
      var s2 := After(u, s, c, choice);
      MovesRefs(u, s, c, choice);
      MovesHolders(u, s, c, choice);
      RefsStep(s.locks, s2.locks, s.pcs, c, s2.pcs[c]);
      HoldersStep(s.locks, s2.locks, s.pcs, c, s2.pcs[c]);
    }
  }

  /** Every step of every interleaving keeps the lock's promises. */
  lemma StepKeepsLock(u: Setup, s: Sys, c: nat, choice: Choice)
    requires LockOk(u, s) && c < |u.calls| && CanStep(u, s, c, choice)
    ensures LockOk(u, After(u, s, c, choice))
  {
    var s2 := After(u, s, c, choice);
    MovesMu(u, s, c, choice);
    MuStep(u.calls, s.mu, s2.mu, s.pcs, c, s2.pcs[c]);
    MovesAdvisory(u, s, c, choice);
    AdvisoryStep(u, s.advisory, s2.advisory, s.pcs, c, s2.pcs[c]);
    StepShaped(u, s, c, choice);
    StepTable(u, s, c, choice);
    StepEntries(u, s, c, choice);
    StepLocks(u, s, c, choice);
  }

  // ----- Runs

  function Initial(u: Setup, t: Tables): Sys {
    Sys(seq(u.instances, i => None), map[], [], map[], seq(|u.calls|, i => Start), map[], t)
  }

  predicate InstancesOk(u: Setup) {
    forall c :: 0 <= c < |u.calls| ==> u.calls[c].instance < u.instances
  }

  lemma InitialOk(u: Setup, t: Tables)
    requires InstancesOk(u)
    ensures LockOk(u, Initial(u, t))
  {
  }

  datatype Move = Move(caller: nat, choice: Choice)

  /** The state a schedule of moves leads to; None when some move is not possible where it comes. */
  function Run(u: Setup, s: Sys, moves: seq<Move>): Option<Sys>
    requires LockOk(u, s)
    ensures Run(u, s, moves).Some? ==> LockOk(u, Run(u, s, moves).value)
  {
    if moves == [] then Some(s)
    else
      match Run(u, s, moves[..|moves| - 1])
      case None => None
      case Some(before) =>
        var m := moves[|moves| - 1];
        if m.caller < |u.calls| && CanStep(u, before, m.caller, m.choice) then
          StepKeepsLock(u, before, m.caller, m.choice);
          Some(After(u, before, m.caller, m.choice))
        else None
  }

  // ----- What the invariants say

  lemma OneHolder(locks: seq<Lock>, pcs: seq<PC>, l: nat, c: nat, d: nat)
    requires HoldersOk(locks, pcs) && l < |locks| && c < |pcs| && d < |pcs| && Holds(pcs[c], l) && Holds(pcs[d], l)
    ensures c == d
  {
    assert locks[l].holder == Some(c) && locks[l].holder == Some(d);
  }

  /** Within one process the mutex alone excludes callers of one identity, from taking it to releasing it. */
  lemma ProcessExclusion(u: Setup, s: Sys, c: nat, d: nat)
    requires LockOk(u, s) && c < |u.calls| && d < |u.calls| && KeyOf(u, c) == KeyOf(u, d)
    requires HoldsLock(s.pcs[c]) && HoldsLock(s.pcs[d])
    ensures c == d
  {
    assert KnowsEntry(u.calls[c], s.table, s.pcs[c]) && KnowsEntry(u.calls[d], s.table, s.pcs[d]);
    OneHolder(s.locks, s.pcs, s.pcs[c].lock, c, d);
  }

  /** Two callers of one identity are never inside the transaction together, in one process or in several. */
  lemma MutualExclusion(u: Setup, s: Sys, c: nat, d: nat)
    requires ValidSetup(u) && LockOk(u, s) && c < |u.calls| && d < |u.calls|
    requires u.calls[c].request.canonical == u.calls[d].request.canonical
    requires InTransaction(s.pcs[c]) && InTransaction(s.pcs[d])
    ensures c == d
  {
    if !u.postgres {
      assert u.calls[c].instance < u.instances && u.calls[d].instance < u.instances;
      ProcessExclusion(u, s, c, d);
    }
  }

  lemma EntryCounted(u: Setup, s: Sys, k: Key) returns (c: nat)
    requires Shaped(u, s) && MuOk(u.calls, s.mu, s.pcs) && TableOk(u.calls, s.table, s.pcs, |s.locks|)
    requires EntriesOk(s.table, s.pcs) && k.0 < |s.mu| && s.mu[k.0].None? && k in s.table
    ensures c < |u.calls| && KeyOf(u, c) == k && CountedOn(s.pcs[c], s.table[k]) && s.table[k] < |s.locks|
  {
    assert Used(s.pcs, s.table[k]);
    c :| 0 <= c < |s.pcs| && Uses(s.pcs[c], s.table[k]);
    assert KnowsEntry(u.calls[c], s.table, s.pcs[c]);
  }

  lemma RefsPositive(locks: seq<Lock>, pcs: seq<PC>, l: nat, c: nat)
    requires RefsOk(locks, pcs) && l < |locks| && c < |pcs| && CountedOn(pcs[c], l)
    ensures locks[l].refs == |Users(pcs, l)| > 0
  {
    assert RefOk(locks[l], pcs, l) && c in Users(pcs, l);
  }

  lemma NoEntryNoCaller(u: Setup, s: Sys, k: Key)
    requires Shaped(u, s) && TableOk(u.calls, s.table, s.pcs, |s.locks|) && k !in s.table
    ensures forall c :: 0 <= c < |u.calls| && KeyOf(u, c) == k ==> !IsCounted(s.pcs[c])
  {
    forall c | 0 <= c < |u.calls| && KeyOf(u, c) == k ensures !IsCounted(s.pcs[c]) {
      assert KnowsEntry(u.calls[c], s.table, s.pcs[c]);
    }
  }

  /** When nobody is inside a process's table mutex, an identity has an entry exactly while a caller is counted on it. */
  lemma EntryWhileCounted(u: Setup, s: Sys, k: Key)
    requires LockOk(u, s) && k.0 < |s.mu| && s.mu[k.0].None?
    ensures k in s.table <==> exists c :: 0 <= c < |u.calls| && KeyOf(u, c) == k && IsCounted(s.pcs[c])
    ensures k in s.table ==> s.table[k] < |s.locks| && s.locks[s.table[k]].refs == |Users(s.pcs, s.table[k])| > 0
  {
    if k in s.table {
      var c := EntryCounted(u, s, k);
      RefsPositive(s.locks, s.pcs, s.table[k], c);
    } else {
      NoEntryNoCaller(u, s, k);
    }
  }

  // ----- No deadlock

  /** The caller's next statement need not wait. */
  predicate Enabled(u: Setup, s: Sys, c: nat)
    requires Shaped(u, s) && c < |u.calls|
  {
    s.pcs[c].Critical? || s.pcs[c].Decided? || CanStep(u, s, c, Go)
  }

  lemma MuBlocker(u: Setup, s: Sys, c: nat) returns (d: nat)
    requires Shaped(u, s) && MuOk(u.calls, s.mu, s.pcs) && c < |u.calls| && (s.pcs[c].Start? || s.pcs[c].Unlocked?)
    requires !Enabled(u, s, c)
    ensures d < |u.calls| && Enabled(u, s, d)
  {
    d := s.mu[u.calls[c].instance].value;
    assert HasMu(s.pcs[d]);
  }

  /** A caller that cannot move waits for one that can. */
  lemma Blocker(u: Setup, s: Sys, c: nat) returns (d: nat)
    requires LockOk(u, s) && c < |u.calls| && !s.pcs[c].Done?
    ensures d < |u.calls| && Enabled(u, s, d)
  {
    d := c;
    if !Enabled(u, s, c) {
      if s.pcs[c].Waiting? {
        d := LockBlocker(u, s, c);
      } else if s.pcs[c].Locked? {
        d := s.advisory[u.calls[c].advisoryKey];
      } else {
        d := MuBlocker(u, s, c);
      }
    }
  }

  lemma LockBlocker(u: Setup, s: Sys, c: nat) returns (d: nat)
    requires Shaped(u, s) && HoldersOk(s.locks, s.pcs) && AdvisoryOk(u, s.advisory, s.pcs)
    requires c < |u.calls| && s.pcs[c].Waiting? && !Enabled(u, s, c)
    ensures d < |u.calls| && Enabled(u, s, d)
  {
    var l := s.pcs[c].lock;
    d := s.locks[l].holder.value;
    assert Holds(s.pcs[d], l);
    if s.pcs[d].Locked? && !Enabled(u, s, d) {
      d := s.advisory[u.calls[d].advisoryKey];
    }
  }

  /** How many steps a caller has left. */
  function Left(pc: PC): nat {
    match pc
    case Start => 14
    case Entering => 13
    case Missing => 12
    case Located(_) => 11
    case Counted(_) => 10
    case Waiting(_) => 9
    case Locked(_) => 8
    case Critical(_) => 7
    case Decided(_, _) => 6
    case Ended(_) => 5
    case Unlocked(_) => 4
    case Leaving(_) => 3
    case Discounted(_) => 2
    case Closing => 1
    case Done => 0
  }

  function LeftIn(pcs: seq<PC>): nat {
    if pcs == [] then 0 else LeftIn(pcs[..|pcs| - 1]) + Left(pcs[|pcs| - 1])
  }

  lemma {:induction false} LeftMoved(pcs: seq<PC>, c: nat, pc: PC)
    requires c < |pcs|
    ensures LeftIn(pcs[c := pc]) == LeftIn(pcs) - Left(pcs[c]) + Left(pc)
  {
    var n := |pcs| - 1;
    var after := pcs[c := pc];
    if c == n {
      assert after[..n] == pcs[..n];
    } else {
      assert after[..n] == pcs[..n][c := pc];
      LeftMoved(pcs[..n], c, pc);
    }
  }

  /** Every step is a step closer to the end, so no schedule goes on forever. */
  lemma StepsRunOut(u: Setup, s: Sys, c: nat, choice: Choice)
    requires Shaped(u, s) && c < |u.calls| && CanStep(u, s, c, choice)
    ensures LeftIn(After(u, s, c, choice).pcs) < LeftIn(s.pcs)
  {
    LeftMoved(s.pcs, c, After(u, s, c, choice).pcs[c]);
  }

  lemma {:induction false} LeftInitially(n: nat)
    ensures LeftIn(seq(n, i => Start)) == 14 * n
  {
    if n > 0 {
      LeftInitially(n - 1);
      assert seq(n, i => Start)[..n - 1] == seq(n - 1, i => Start);
    }
  }

  /** A run is no longer than what its first state has left. */
  lemma {:induction false} StepsAreCounted(u: Setup, s: Sys, moves: seq<Move>)
    requires LockOk(u, s) && Run(u, s, moves).Some?
    ensures |moves| + LeftIn(Run(u, s, moves).value.pcs) <= LeftIn(s.pcs)
  {
    if moves != [] {
      var n := |moves| - 1;
      StepsAreCounted(u, s, moves[..n]);
      StepsRunOut(u, Run(u, s, moves[..n]).value, moves[n].caller, moves[n].choice);
    }
  }

  /** The moves can be made in turn by callers that have not begun. */
  predicate IsSchedule(u: Setup, t: Tables, moves: seq<Move>)
    requires InstancesOk(u)
  {
    InitialOk(u, t);
    Run(u, Initial(u, t), moves).Some?
  }

  /** No schedule is longer than fourteen steps a caller. */
  lemma RunsAreShort(u: Setup, t: Tables, moves: seq<Move>)
    requires InstancesOk(u) && IsSchedule(u, t, moves)
    ensures |moves| <= 14 * |u.calls|
  {
    InitialOk(u, t);
    StepsAreCounted(u, Initial(u, t), moves);
    LeftInitially(|u.calls|);
  }

  /** A state nobody can move in is one where every caller is done: there is no deadlock. */
  lemma NoDeadlock(u: Setup, s: Sys)
    requires LockOk(u, s)
    ensures (forall c :: 0 <= c < |u.calls| ==> !Enabled(u, s, c)) <==> forall c :: 0 <= c < |u.calls| ==> s.pcs[c].Done?
  {
    if c :| 0 <= c < |u.calls| && !s.pcs[c].Done? {
      var d := Blocker(u, s, c);
    }
  }
}
