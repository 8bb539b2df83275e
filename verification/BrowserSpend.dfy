/** What a browser download costs, over session geographies, candidate URLs and refreshed URLs. */
module BrowserSpend {
  import opened Utf8
  import opened Strings
  import opened BrowserFetch

  /** One in-page download: the session it ran in, what it asked for, the bytes that came back. */
  datatype Attempt = Attempt(session: nat, url: string, bytes: nat)

  function TotalBytes(log: seq<Attempt>): nat {
    if log == [] then 0 else TotalBytes(log[..|log| - 1]) + log[|log| - 1].bytes
  }

  lemma {:induction false} TotalAppend(a: seq<Attempt>, b: seq<Attempt>)
    ensures TotalBytes(a + b) == TotalBytes(a) + TotalBytes(b)
  {
    if b == [] {
      assert a + b == a;
    } else {
      assert (a + b)[..|a + b| - 1] == a + b[..|b| - 1];
      TotalAppend(a, b[..|b| - 1]);
    }
  }

  ghost predicate NoRepeat(log: seq<Attempt>) {
    forall i, j :: 0 <= i < j < |log| && log[i].session == log[j].session ==> log[i].url != log[j].url
  }

  ghost predicate Distinct(urls: seq<string>) {
    forall i, j :: 0 <= i < j < |urls| ==> urls[i] != urls[j]
  }

  ghost predicate DistinctUrls(log: seq<Attempt>) {
    forall i, j :: 0 <= i < j < |log| ==> log[i].url != log[j].url
  }

  /** log tried a prefix of urls in one session. */
  ghost predicate Follows(log: seq<Attempt>, urls: seq<string>, session: nat) {
    |log| <= |urls| && forall i :: 0 <= i < |log| ==> log[i].url == urls[i] && log[i].session == session
  }

  lemma MadeNext(made: seq<Attempt>, attempt: Attempt, urls: seq<string>, session: nat)
    requires Follows(made, urls, session) && |made| < |urls|
    requires attempt.url == urls[|made|] && attempt.session == session
    ensures Follows(made + [attempt], urls, session)
    ensures TotalBytes(made + [attempt]) == TotalBytes(made) + attempt.bytes
  {
    assert (made + [attempt])[..|made|] == made;
  }

  // ----- unseenURLs

  /** The refreshed URLs worth trying, in order. */
  function Unseen(refreshed: seq<string>, seen: set<string>): seq<string> {
    if refreshed == [] then []
    else
      var u := TrimSpace(refreshed[0]);
      if u == "" || u in seen then Unseen(refreshed[1..], seen)
      else [u] + Unseen(refreshed[1..], seen + {u})
  }

  /** Each is new, none repeats, and no refreshed URL that was new is missing. */
  lemma {:induction false} UnseenLaw(refreshed: seq<string>, seen: set<string>)
    ensures Distinct(Unseen(refreshed, seen))
    ensures forall u :: u in Unseen(refreshed, seen) <==>
              u != "" && u !in seen && exists k :: 0 <= k < |refreshed| && u == TrimSpace(refreshed[k])
  {
    if refreshed != [] {
      var first := TrimSpace(refreshed[0]);
      UnseenLaw(refreshed[1..], if first == "" || first in seen then seen else seen + {first});
      UnseenMembers(refreshed, seen);
    }
  }

  lemma UnseenMembers(refreshed: seq<string>, seen: set<string>)
    requires refreshed != []
    requires var first := TrimSpace(refreshed[0]);
             var rest := if first == "" || first in seen then seen else seen + {first};
             forall u :: u in Unseen(refreshed[1..], rest) <==>
               u != "" && u !in rest && exists k :: 0 <= k < |refreshed| - 1 && u == TrimSpace(refreshed[1..][k])
    ensures forall u :: u in Unseen(refreshed, seen) <==>
              u != "" && u !in seen && exists k :: 0 <= k < |refreshed| && u == TrimSpace(refreshed[k])
  {
    forall u
      ensures u in Unseen(refreshed, seen) <==>
                u != "" && u !in seen && exists k :: 0 <= k < |refreshed| && u == TrimSpace(refreshed[k])
    {
      if k :| 0 <= k < |refreshed| && u == TrimSpace(refreshed[k]) {
        assert k > 0 ==> u == TrimSpace(refreshed[1..][k - 1]);
      }
      if k :| 0 <= k < |refreshed| - 1 && u == TrimSpace(refreshed[1..][k]) {
        assert u == TrimSpace(refreshed[k + 1]);
      }
    }
  }

  lemma UnseenStep(rest: seq<string>, seen: set<string>, u: string)
    requires rest != [] && u == TrimSpace(rest[0])
    ensures Unseen(rest, seen) == if u == "" || u in seen then Unseen(rest[1..], seen)
                                  else [u] + Unseen(rest[1..], seen + {u})
  {
  }

  method UnseenURLs(refreshed: seq<string>, attempted: seq<string>) returns (urls: seq<string>)
    ensures urls == Unseen(refreshed, set u | u in attempted)
  {
    var seen := set u | u in attempted;
    ghost var goal := Unseen(refreshed, seen);
    urls := [];
    var rest := refreshed;
    while rest != []
      invariant urls + Unseen(rest, seen) == goal
      decreases |rest|
    {
      var u := TrimSpace(rest[0]);
      UnseenStep(rest, seen, u);
      ghost var after := Unseen(rest[1..], seen + {u});
      if u != "" && u !in seen {
        assert urls + ([u] + after) == urls + [u] + after;
        seen := seen + {u};
        urls := urls + [u];
      }
      rest := rest[1..];
    }
  }

  /** Candidates first, then refreshed URLs: one session never asks for a URL twice. */
  lemma SessionDistinct(first: seq<Attempt>, second: seq<Attempt>, urls: seq<string>, found: seq<string>, session: nat)
    requires Distinct(urls) && Follows(first, urls, session)
    requires Follows(second, Unseen(found, set u | u in urls), session)
    ensures DistinctUrls(first + second)
  {
    var seen := set u | u in urls;
    UnseenLaw(found, seen);
    var all := first + second;
    forall i, j | 0 <= i < j < |all|
      ensures all[i].url != all[j].url
    {
      if i < |first| <= j {
        assert Unseen(found, seen)[j - |first|] in Unseen(found, seen);
        assert urls[i] in seen;
      }
    }
  }

  // ----- The request and its result

  datatype Request = Request(host: string, mediaURLs: seq<string>, countries: seq<string>, totalHint: nat, refreshes: bool)

  /** Whether the error text is the compliance layer's refusal is all the code asks of an error. */
  datatype Failure = NoFailure | Failure(policy: bool)

  datatype SessionResult = SessionResult(transferred: nat, stored: nat, mediaURL: string, billable: bool, failure: Failure)
  datatype FetchResult = FetchResult(size: nat, storedBytes: nat, sessions: nat, mediaURL: string, failure: Failure)

  class Client {
    var policyBlocked: set<string>
    /** Every attempt of this process, every session tried, and those that connected. */
    ghost var log: seq<Attempt>
    ghost var tried: nat
    ghost var connected: nat
    /** The hosts the compliance layer has refused. */
    ghost var refused: set<string>
    /** How often a context has ended, a refresh has failed, or an error was not worth another session. */
    ghost var stops: nat
    /** What the pages have offered when asked for refreshed URLs. */
    ghost var offers: seq<seq<string>>

    ghost predicate Valid()
      reads this
    {
      && refused - {""} <= policyBlocked
      && (forall i :: 0 <= i < |log| ==> log[i].session < tried)
    }

    constructor ()
      ensures Valid() && log == [] && tried == 0 && connected == 0 && refused == {}
    {
      policyBlocked, log, tried, connected, refused := {}, [], 0, 0, {};
    }

    method Stops() returns (b: bool)
      modifies this`stops
      ensures stops == old(stops) + (if b then 1 else 0)
    {
      b := *;
      if b {
        stops := stops + 1;
      }
    }

    /** RefreshMediaURLs: whatever the page lists. */
    method Refresh() returns (offered: seq<string>)
      modifies this`offers
      ensures offers == old(offers) + [offered]
    {
      offered := *;
      offers := offers + [offered];
    }

    /** openBrowserSession: a failure may come before or after the network was reached. */
    method OpenSession() returns (failure: Failure, connects: bool)
      modifies this`tried, this`connected
      ensures tried == old(tried) + 1
      ensures connected == old(connected) + (if connects then 1 else 0)
      ensures failure.NoFailure? ==> connects
    {
      var opens, reached, policy: bool := *, *, *;
      failure := if opens then NoFailure else Failure(policy);
      connects := opens || reached;
      tried := tried + 1;
      if connects {
        connected := connected + 1;
      }
    }

    /** One candidate: any server may be behind the URL. */
    method TryCandidate(url: string, hint: nat) returns (failure: Failure, count: nat)
      requires tried > 0
      modifies this`log
      ensures log == old(log) + [Attempt(tried - 1, url, count)]
    {
      var file: Bytes, honoursRanges, policy: bool := *, *, *;
      var page := new Page(file, honoursRanges);
      var r, n, _ := FetchURLThroughPage(page, hint);
      log := log + [Attempt(tried - 1, url, n)];
      failure := if r.Stored? then NoFailure else Failure(policy);
      count := n;
    }

    /** The next candidate, joining the attempts already made. */
    method TryNext(url: string, hint: nat, ghost before: seq<Attempt>, ghost made: seq<Attempt>)
      returns (failure: Failure, count: nat, ghost attempt: Attempt)
      requires Valid() && tried > 0 && log == before + made
      modifies this`log
      ensures Valid() && attempt == Attempt(tried - 1, url, count) && log == before + (made + [attempt])
    {
      failure, count := TryCandidate(url, hint);
      attempt := Attempt(tried - 1, url, count);
      assert before + made + [attempt] == before + (made + [attempt]);
    }

    /**
     * fetchCandidates: in order, until one answers or the context ends. The attempts made are a
     * prefix of the candidates, all of them unless one answers or the context ends; only the last can have succeeded.
     */
    method FetchCandidates(urls: seq<string>, hint: nat, before: Failure)
      returns (ok: bool, stored: nat, mediaURL: string, fetched: nat, failure: Failure, ghost made: seq<Attempt>)
      requires Valid() && tried > 0
      modifies this`log, this`stops
      ensures Valid() && log == old(log) + made && fetched == TotalBytes(made)
      ensures Follows(made, urls, tried - 1)
      ensures stops >= old(stops) && (!ok && stops == old(stops) ==> |made| == |urls|)
      ensures ok ==> made != [] && made[|made| - 1] == Attempt(tried - 1, mediaURL, stored)
      ensures !ok && made == [] ==> urls == [] && failure == before
      ensures !ok && made != [] ==> failure.Failure?
    {
      made, fetched, failure, ok, stored, mediaURL := [], 0, before, false, 0, "";
      var i := 0;
      while i < |urls|
        invariant 0 <= i <= |urls|
        invariant Valid() && log == old(log) + made && fetched == TotalBytes(made)
        invariant |made| == i && Follows(made, urls, tried - 1) && stops == old(stops)
        invariant if i == 0 then failure == before else failure.Failure?
      {
        var f, size;
        ghost var attempt;
        f, size, attempt := TryNext(urls[i], hint, old(log), made);
        MadeNext(made, attempt, urls, tried - 1);
        made := made + [attempt];
        fetched := fetched + size;
        if f.NoFailure? {
          return true, size, urls[i], fetched, f, made;
        }
        failure := f;
        i := i + 1;
        var cancelled := Stops();
        if cancelled {
          break;
        }
      }
    }

    /** The page may offer other URLs for the asset; the new ones are tried in the same session. */
    method FetchRefreshed(req: Request, before: Failure)
      returns (ok: bool, stored: nat, mediaURL: string, fetched: nat, failure: Failure,
               ghost found: seq<string>, ghost made: seq<Attempt>)
      requires Valid() && tried > 0 && before.Failure?
      modifies this`log, this`stops, this`offers
      ensures Valid() && log == old(log) + made && fetched == TotalBytes(made)
      ensures Follows(made, Unseen(found, set u | u in req.mediaURLs), tried - 1)
      ensures stops >= old(stops)
      ensures req.refreshes && stops == old(stops) ==> offers == old(offers) + [found]
      ensures !ok && req.refreshes && stops == old(stops) ==> |made| == |Unseen(found, set u | u in req.mediaURLs)|
      ensures ok ==> made != [] && made[|made| - 1] == Attempt(tried - 1, mediaURL, stored)
      ensures !ok ==> failure.Failure?
    {
      ok, stored, mediaURL, fetched, failure, found, made := false, 0, "", 0, before, [], [];
      var cancelled := Stops();
      if cancelled || !req.refreshes {
        return;
      }
      var refreshPolicy: bool := *;
      var refreshFailed := Stops();
      if refreshFailed {
        failure := Failure(before.policy || refreshPolicy);
        return;
      }
      var offered := Refresh();
      found := offered;
      var refreshed := UnseenURLs(offered, req.mediaURLs);
      if |refreshed| > 0 {
        ok, stored, mediaURL, fetched, failure, made := FetchCandidates(refreshed, req.totalHint, before);
      }
    }

    /** browserFetchSession: the bytes of every attempt, and the size of the one that answered. */
    method FetchSession(req: Request) returns (r: SessionResult, ghost made: seq<Attempt>)
      requires Valid() && req.mediaURLs != []
      modifies this`tried, this`connected, this`log, this`stops, this`offers
      ensures Valid() && stops >= old(stops)
      ensures r.failure.Failure? && stops == old(stops) && made != [] ==>
                |made| >= |req.mediaURLs| && forall i :: 0 <= i < |req.mediaURLs| ==> made[i].url == req.mediaURLs[i]
      ensures r.failure.Failure? && stops == old(stops) && made != [] && req.refreshes ==>
                |offers| == |old(offers)| + 1
                && Follows(made[|req.mediaURLs|..], Unseen(offers[|old(offers)|], set u | u in req.mediaURLs), old(tried))
                && |made| == |req.mediaURLs| + |Unseen(offers[|old(offers)|], set u | u in req.mediaURLs)|
      ensures tried == old(tried) + 1 && connected == old(connected) + (if r.billable then 1 else 0)
      ensures log == old(log) + made && r.transferred == TotalBytes(made)
      ensures forall i :: 0 <= i < |made| ==> made[i].session == tried - 1
      ensures Distinct(req.mediaURLs) ==> DistinctUrls(made)
      ensures made != [] ==> r.billable
      ensures r.failure.NoFailure? ==> made != [] && made[|made| - 1] == Attempt(tried - 1, r.mediaURL, r.stored)
    {
      made := [];
      var opening, connects := OpenSession();
      if opening.Failure? {
        return SessionResult(0, 0, "", connects, opening), made;
      }
      var ok, stored, mediaURL, fetched, failure, first := FetchCandidates(req.mediaURLs, req.totalHint, NoFailure);
      if ok {
        return SessionResult(fetched, stored, mediaURL, true, NoFailure), first;
      }
      var again, stored2, mediaURL2, fetched2, failure2, found, second := FetchRefreshed(req, failure);
      made := first + second;
      TotalAppend(first, second);
      if Distinct(req.mediaURLs) {
        SessionDistinct(first, second, req.mediaURLs, found, tried - 1);
      }
      r := if again then SessionResult(fetched + fetched2, stored2, mediaURL2, true, NoFailure)
           else SessionResult(fetched + fetched2, 0, "", true, failure2);
    }

    /** markPolicyBlocked: a host that has no name cannot be remembered. */
    method MarkPolicyBlocked(host: string)
      requires Valid()
      modifies this`refused, this`policyBlocked
      ensures Valid() && refused == old(refused) + {host}
      ensures policyBlocked == old(policyBlocked) + (if host == "" then {} else {host})
    {
      refused := refused + {host};
      if host != "" {
        policyBlocked := policyBlocked + {host};
      }
    }

    /** One country's turn: its session is billed with the ones before, and a refusal is remembered. */
    method NextSession(req: Request, before: FetchResult, ghost made: seq<Attempt>)
      returns (out: FetchResult, done: bool, ghost all: seq<Attempt>)
      requires Valid() && req.mediaURLs != []
      requires before.size == TotalBytes(made) && (Distinct(req.mediaURLs) ==> NoRepeat(made))
      requires forall i :: 0 <= i < |made| ==> made[i].session < tried
      modifies this
      ensures Valid() && tried == old(tried) + 1 && made <= all && log == old(log) + all[|made|..]
      ensures forall i :: |made| <= i < |all| ==> all[i].session == tried - 1
      ensures out.size == TotalBytes(all) && out.storedBytes <= out.size
      ensures out.sessions - before.sessions == connected - old(connected) <= 1
      ensures Distinct(req.mediaURLs) ==> NoRepeat(all)
      ensures out.failure.NoFailure? ==> done && Answered(all, tried - 1, out)
      ensures out.failure.Failure? && out.failure.policy ==> done
      ensures stops >= old(stops) && (out.failure.Failure? && !out.failure.policy && stops == old(stops) ==> !done)
      ensures refused == old(refused) + (if out.failure.Failure? && out.failure.policy then {req.host} else {})
    {
      var r, more := FetchSession(req);
      all := made + more;
      SessionAdded(made, more, tried - 1, Distinct(req.mediaURLs));
      out := FetchResult(before.size + r.transferred, 0, before.sessions + (if r.billable then 1 else 0), "", r.failure);
      if r.failure.NoFailure? {
        LastIsCounted(all);
        out := out.(mediaURL := r.mediaURL, storedBytes := r.stored);
        done := true;
      } else {
        if r.failure.policy {
          MarkPolicyBlocked(req.host);
        }
        var cancelled := Stops();
        var pointless := Stops();
        done := r.failure.policy || cancelled || pointless;
      }
    }

    /**
     * fetchThroughBrowser. On every path the billed size is the sum over every attempt of every
     * session, the billed sessions are the ones that connected, and no session repeats a URL.
     */
    method FetchThroughBrowser(req: Request) returns (out: FetchResult, ghost made: seq<Attempt>)
      requires Valid()
      modifies this
      ensures Valid() && log == old(log) + made
      ensures out.size == TotalBytes(made) && out.storedBytes <= out.size
      ensures out.sessions == connected - old(connected) <= tried - old(tried)
      ensures tried - old(tried) <= if req.countries == [] then 1 else |req.countries|
      ensures tried == old(tried) <==> req.mediaURLs == [] || (req.host != "" && req.host in old(policyBlocked))
      ensures Distinct(req.mediaURLs) ==> NoRepeat(made)
      ensures forall i :: 0 <= i < |made| ==> old(tried) <= made[i].session < tried
      ensures out.failure.NoFailure? ==> Answered(made, tried - 1, out)
      ensures req.host != "" && req.host in old(refused) ==> tried == old(tried) && out.size == 0
      ensures old(refused) <= refused && (tried == old(tried) ==> refused == old(refused))
      ensures out.failure.Failure? && out.failure.policy && tried > old(tried) ==> req.host in refused
      ensures out.failure.Failure? && !out.failure.policy && stops == old(stops) && req.mediaURLs != [] ==>
                tried - old(tried) == if req.countries == [] then 1 else |req.countries|
    {
      made := [];
      out := FetchResult(0, 0, 0, "", Failure(false));
      if |req.mediaURLs| == 0 {
        return;
      }
      if req.host != "" && req.host in policyBlocked {
        out := out.(failure := Failure(true));
        return;
      }
      var countries := if |req.countries| == 0 then [""] else req.countries;
      var done := false;
      var i := 0;
      while i < |countries| && !done
        invariant 0 <= i <= |countries| && tried == old(tried) + i && (i == 0 ==> !done)
        invariant Valid() && log == old(log) + made
        invariant out.size == TotalBytes(made) && out.storedBytes <= out.size
        invariant out.sessions == connected - old(connected) <= i
        invariant Distinct(req.mediaURLs) ==> NoRepeat(made)
        invariant forall k :: 0 <= k < |made| ==> old(tried) <= made[k].session < tried
        invariant out.failure.NoFailure? ==> done && Answered(made, tried - 1, out)
        invariant old(refused) <= refused && (i == 0 ==> refused == old(refused))
        invariant i > 0 && out.failure.Failure? && out.failure.policy ==> req.host in refused
        invariant stops >= old(stops)
        invariant out.failure.Failure? && !out.failure.policy && stops == old(stops) ==> !done
        decreases |countries| - i
      {
        out, done, made := NextSession(req, out, made);
        i := i + 1;
      }
    }
  }

  /** The last attempt is the one whose file the result describes. */
  ghost predicate Answered(made: seq<Attempt>, session: int, out: FetchResult) {
    made != [] && session >= 0 && made[|made| - 1] == Attempt(session, out.mediaURL, out.storedBytes)
  }

  lemma SessionAdded(made: seq<Attempt>, more: seq<Attempt>, session: nat, distinct: bool)
    requires distinct ==> NoRepeat(made) && DistinctUrls(more)
    requires forall i :: 0 <= i < |made| ==> made[i].session < session
    requires forall i :: 0 <= i < |more| ==> more[i].session == session
    ensures distinct ==> NoRepeat(made + more)
    ensures TotalBytes(made + more) == TotalBytes(made) + TotalBytes(more)
  {
    TotalAppend(made, more);
    NoRepeatAppend(made, more, session, distinct);
  }

  lemma NoRepeatAppend(made: seq<Attempt>, more: seq<Attempt>, session: nat, distinct: bool)
    requires distinct ==> NoRepeat(made) && DistinctUrls(more)
    requires forall i :: 0 <= i < |made| ==> made[i].session < session
    requires forall i :: 0 <= i < |more| ==> more[i].session == session
    ensures distinct ==> NoRepeat(made + more)
  {
    var all := made + more;
    if distinct {
      forall i, j | 0 <= i < j < |all| && all[i].session == all[j].session
        ensures all[i].url != all[j].url
      {
        if i >= |made| {
          assert more[i - |made|].url != more[j - |made|].url;
        }
      }
    }
  }

  lemma LastIsCounted(log: seq<Attempt>)
    requires log != []
    ensures log[|log| - 1].bytes <= TotalBytes(log)
  {
  }
}
