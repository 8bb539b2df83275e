/** Which spellings share an identity, and what an identity says. */
module Spellings {
  import opened Strings
  import opened Models
  import opened Url
  import opened CanonicalUrl
  import opened CanonicalIdentity

  // ----- Junk parameters and parameter order

  /** The values spelled under a key, in order. */
  function ValuesOf(pairs: seq<Pair>, k: string): seq<string> {
    if pairs == [] then []
    else
      var last := pairs[|pairs| - 1];
      ValuesOf(pairs[..|pairs| - 1], k) + (if last.0 == k then [last.1] else [])
  }

  lemma {:induction false} AddPairsValues(pairs: seq<Pair>, k: string)
    ensures k in AddPairs(pairs) <==> ValuesOf(pairs, k) != []
    ensures k in AddPairs(pairs) ==> AddPairs(pairs)[k] == ValuesOf(pairs, k)
  {
    if pairs != [] { AddPairsValues(pairs[..|pairs| - 1], k); }
  }

  /** The parameter one piece of a raw query spells, in whatever escaping; a piece that spells none is skipped. */
  function PairOf(piece: string): Option<Pair> {
    if piece == "" || ';' in piece then None
    else
      var (rawKey, rawValue) := Cut(piece, '=');
      match (Unescape(rawKey, true), Unescape(rawValue, true))
      case (Some(key), Some(value)) => Some((key, value))
      case _ => None
  }

  function PairsOf(pieces: seq<string>): seq<Pair> {
    if pieces == [] then []
    else
      var last := PairOf(pieces[|pieces| - 1]);
      PairsOf(pieces[..|pieces| - 1]) + (if last.Some? then [last.value] else [])
  }

  lemma PieceRead(q: Query, piece: string)
    ensures AddPiece(q, piece) == if PairOf(piece).Some? then AddPair(q, PairOf(piece).value) else q
  {
  }

  lemma {:induction false} PiecesRead(pieces: seq<string>)
    ensures AddPieces(pieces) == AddPairs(PairsOf(pieces))
  {
    if pieces != [] {
      var before, last := pieces[..|pieces| - 1], pieces[|pieces| - 1];
      PiecesRead(before);
      PieceRead(AddPieces(before), last);
      if PairOf(last).Some? {
        AddLast(PairsOf(before), PairOf(last).value);
      } else {
        assert PairsOf(before) + [] == PairsOf(before);
      }
    }
  }

  /** The parameters a raw query spells; white space at the end of the address is not part of it. */
  function Asked(raw: string): seq<Pair> {
    PairsOf(Split(TrimRight(raw), '&'))
  }

  // ----- An address with a query attached

  lemma {:induction false} TrimLeftMark(base: string, raw: string)
    ensures TrimLeft(base + ['?'] + raw) == TrimLeft(base) + ['?'] + raw
    ensures '?' !in base ==> '?' !in TrimLeft(base)
    ensures '#' !in base ==> '#' !in TrimLeft(base)
  {
    if base != "" && IsSpace(base[0]) {
      TrimLeftMark(base[1..], raw);
      assert (base + ['?'] + raw)[1..] == base[1..] + ['?'] + raw;
    }
  }

  lemma {:induction false} TrimRightMark(base: string, raw: string)
    ensures TrimRight(base + ['?'] + raw) == base + ['?'] + TrimRight(raw)
    ensures '#' !in raw ==> '#' !in TrimRight(raw)
  {
    if raw != "" && IsSpace(raw[|raw| - 1]) {
      var init := raw[..|raw| - 1];
      TrimRightMark(base, init);
      var s := base + ['?'] + raw;
      assert s[..|s| - 1] == base + ['?'] + init && s[|s| - 1] == raw[|raw| - 1];
    } else if raw == "" {
      var s := base + ['?'] + raw;
      assert s[|s| - 1] == '?';
      assert s == base + ['?'] + TrimRight(raw);
    } else {
      var s := base + ['?'] + raw;
      assert s[|s| - 1] == raw[|raw| - 1];
    }
  }

  lemma TrimMark(base: string, raw: string)
    ensures TrimSpace(base + ['?'] + raw) == TrimLeft(base) + ['?'] + TrimRight(raw)
  {
    TrimLeftMark(base, raw);
    TrimRightMark(TrimLeft(base), raw);
  }

  /** A query neither makes nor breaks a scheme. */
  lemma SchemeMark(base: string, raw: string)
    requires '?' !in base
    ensures SchemeOf(base + ['?'] + raw) == SchemeOf(base)
    ensures SchemeOf(base).Some? ==> |SchemeOf(base).value| < |base|
  {
    var i := IndexOf(base, ':');
    IndexOfLaw(base, ':');
    if i < |base| {
      var rest := base[i + 1..] + ['?'] + raw;
      assert base == base[..i] + [':'] + base[i + 1..];
      assert base + ['?'] + raw == base[..i] + [':'] + rest;
      CutAt(base[..i], ':', rest);
      assert |base[..i] + [':'] + rest| > i;
    } else {
      CutNone(base, ':');
      MarkIsNoScheme(base, raw);
    }
  }

  lemma MarkIsNoScheme(base: string, raw: string)
    requires ':' !in base
    ensures SchemeOf(base + ['?'] + raw) == None
  {
    var s := base + ['?'] + raw;
    IndexOfLaw(s, ':');
    var i := IndexOf(s, ':');
    if i < |s| {
      assert forall j :: 0 <= j < |base| ==> s[j] == base[j];
      assert s[i] == ':' && s[|base|] == '?';
      assert i > |base|;
      assert s[..i][|base|] == '?' && !IsSchemeChar('?');
    } else {
      assert s[..i] == s;
    }
  }

  lemma RestMark(rest: string, raw: string)
    requires '?' !in rest
    ensures match ParseRest(rest)
            case None => ParseRest(rest + ['?'] + raw) == None
            case Some(u) => u.query == map[] && ParseRest(rest + ['?'] + raw) == Some(u.(query := ParseQuery(raw)))
  {
    CutNone(rest, '?');
    CutAt(rest, '?', raw);
    EmptyQuery();
  }

  lemma ControlMark(base: string, raw: string)
    ensures HasControl(base + ['?'] + raw) <==> HasControl(base) || HasControl(raw)
  {
    var s := base + ['?'] + raw;
    if HasControl(base) {
      var i :| 0 <= i < |base| && IsControl(base[i]);
      assert s[i] == base[i];
    }
    if HasControl(raw) {
      var i :| 0 <= i < |raw| && IsControl(raw[i]);
      assert s[|base| + 1 + i] == raw[i];
    }
  }

  lemma SchemeAttached(base: string, scheme: string, raw: string)
    requires '?' !in base && |scheme| < |base|
    ensures |scheme| < |base + ['?'] + raw|
    ensures match AfterScheme(base, scheme)
            case None => AfterScheme(base + ['?'] + raw, scheme) == None
            case Some(u) => u.query == map[] && AfterScheme(base + ['?'] + raw, scheme) == Some(u.(query := ParseQuery(raw)))
  {
    SliceMark(base, raw, |scheme| + 1);
    RestMark(base[|scheme| + 1..], raw);
  }

  lemma SliceMark(base: string, raw: string, n: nat)
    requires '?' !in base && n <= |base|
    ensures (base + ['?'] + raw)[n..] == base[n..] + ['?'] + raw && '?' !in base[n..]
  {
  }

  /** Attaching a raw query changes the query read and nothing else. */
  lemma QueryAttached(base: string, raw: string)
    requires '?' !in base && '#' !in base && '#' !in raw
    ensures match ParseHTTP(base)
            case None => ParseHTTP(base + ['?'] + raw) == None
            case Some(u) =>
              u.query == map[]
              && ParseHTTP(base + ['?'] + raw) == if HasControl(raw) then None else Some(u.(query := ParseQuery(raw)))
  {
    var s := base + ['?'] + raw;
    ParsePlain(base);
    ParsePlain(s);
    ControlMark(base, raw);
    SchemeMark(base, raw);
    if SchemeOf(base).Some? {
      SchemeAttached(base, SchemeOf(base).value, raw);
    }
  }

  /** The parameters a platform's addresses lose. */
  predicate Ignored(p: Option<Platform>, key: string) {
    p.Some? && Junk(key, Drops(p.value))
  }

  /** The same values under every key that is kept; an address of no platform has none to keep. */
  ghost predicate SameKeptValues(p: Option<Platform>, pairs1: seq<Pair>, pairs2: seq<Pair>) {
    p.Some? ==> forall k :: !Ignored(p, k) ==> ValuesOf(pairs1, k) == ValuesOf(pairs2, k)
  }

  lemma SameKept(p: Platform, pairs1: seq<Pair>, pairs2: seq<Pair>)
    requires SameKeptValues(Some(p), pairs1, pairs2)
    ensures Kept(AddPairs(pairs1), Drops(p)) == Kept(AddPairs(pairs2), Drops(p))
  {
    forall k | !Junk(k, Drops(p))
      ensures var q1, q2 := AddPairs(pairs1), AddPairs(pairs2); (k in q1 <==> k in q2) && (k in q1 ==> q1[k] == q2[k])
    {
      assert !Ignored(Some(p), k);
      AddPairsValues(pairs1, k);
      AddPairsValues(pairs2, k);
    }
  }

  lemma SameMatch(bare: string, segs: seq<string>, pairs1: seq<Pair>, pairs2: seq<Pair>)
    requires SameKeptValues(PlatformOf(bare), pairs1, pairs2)
    ensures Match(bare, segs, AddPairs(pairs1)) == Match(bare, segs, AddPairs(pairs2))
  {
    match PlatformOf(bare)
    case None =>
    case Some(p) => SameKept(p, pairs1, pairs2);
  }

  /** The platform of an address without its query. */
  function PlatformNamed(base: string): Option<Platform> {
    match ParseHTTP(TrimLeft(base))
    case None => None
    case Some(u) => PlatformOf(BareHost(u.hostname))
  }

  /** What is recognized of an address depends on the raw query through the parameters it spells. */
  lemma RecognizeAsked(base: string, raw: string)
    requires '?' !in base && '#' !in base && '#' !in raw
    ensures Recognize(base + ['?'] + raw) ==
              match ParseHTTP(TrimLeft(base))
              case None => None
              case Some(u) =>
                if HasControl(TrimRight(raw)) || u.hostname == "" || !DefaultPort(u.port) then None
                else Match(BareHost(u.hostname), Segments(u.path), AddPairs(Asked(raw)))
  {
    TrimMark(base, raw);
    TrimLeftMark(base, raw);
    TrimRightMark(base, raw);
    QueryAttached(TrimLeft(base), TrimRight(raw));
    PiecesRead(Split(TrimRight(raw), '&'));
  }

  /**
   * Two spellings of an address whose raw queries list the same values under every kept key are recognized as the same
   * thing, whatever the address is and however its parameters are escaped: adding, repeating or moving ignored
   * parameters, and reordering distinct keys, changes nothing.
   */
  lemma JunkAndOrderIgnored(base: string, raw1: string, raw2: string)
    requires '?' !in base && '#' !in base && '#' !in raw1 && '#' !in raw2
    requires HasControl(TrimRight(raw1)) == HasControl(TrimRight(raw2))
    requires SameKeptValues(PlatformNamed(base), Asked(raw1), Asked(raw2))
    ensures Recognize(base + ['?'] + raw1) == Recognize(base + ['?'] + raw2)
  {
    RecognizeAsked(base, raw1);
    RecognizeAsked(base, raw2);
    match ParseHTTP(TrimLeft(base))
    case None =>
    case Some(u) => SameMatch(BareHost(u.hostname), Segments(u.path), Asked(raw1), Asked(raw2));
  }

  /** An address without a query is one with an empty query. */
  lemma NoQueryIsEmptyQuery(base: string)
    requires '?' !in base && '#' !in base && TrimRight(base) == base
    ensures Recognize(base) == Recognize(base + ['?'])
  {
    RecognizeAsked(base, "");
    assert base + ['?'] + "" == base + ['?'];
    TrimLeftMark(base, "");
    QueryAttached(TrimLeft(base), "");
    EmptyQuery();
    PiecesRead(Split("", '&'));
    TrimBoth(base);
  }

  lemma {:induction false} TrimBoth(s: string)
    requires TrimRight(s) == s
    ensures TrimSpace(s) == TrimLeft(s)
  {
    if s != "" && IsSpace(s[0]) {
      TrimRightLaw(s);
      assert s[1..] != "" ==> s[1..][|s[1..]| - 1] == s[|s| - 1];
      TrimBoth(s[1..]);
    }
  }

  /** Click identifiers and generated families go everywhere, in any case. */
  lemma TrackingGoes(q: Query, p: Platform, k: string)
    requires k in Kept(q, Drops(p))
    ensures !("utm_" <= ToLower(k)) && !("__" <= ToLower(k))
    ensures ToLower(k) != "fbclid" && ToLower(k) != "gclid" && ToLower(k) != "igsh" && ToLower(k) != "ref_src"
  {
  }

  /** Share tags go on the platform that attaches them. */
  lemma ShareTagsGo(q: Query, k: string)
    ensures k in Kept(q, Drops(YouTube)) ==> k != "si" && k != "feature" && k != "t" && k != "pp"
    ensures k in Kept(q, Drops(Instagram)) ==> k != "igsh" && k != "igshid" && k != "share_url" && k != "story_type"
    ensures k in Kept(q, Drops(Twitter)) ==> k != "s" && k != "t" && k != "cxt" && k != "ref_component"
    ensures k in Kept(q, Drops(TikTok)) ==> k != "_r" && k != "_t" && k != "is_from_webapp" && k != "sender_device"
    ensures k in Kept(q, Drops(Reddit)) ==> k != "share_id" && k != "context" && k != "rdt" && k != "ref_source"
    ensures k in Kept(q, Drops(Vimeo)) ==> k != "share" && k != "autoplay" && k != "fl" && k != "title"
    ensures k in Kept(q, Drops(Facebook)) ==> k != "mibextid" && k != "rdid" && k != "sfnsn" && k != "share_url"
  {
  }

  /** A playlist and a carousel position change what is captured, so they stay. */
  lemma ViewsStay(q: Query, k: string)
    requires k in q
    ensures k == "list" ==> k in Kept(q, Drops(YouTube))
    ensures k == "img_index" ==> k in Kept(q, Drops(Instagram))
  {
    if k == "list" || k == "img_index" {
      LowerLaw(k);
      assert ToLower(k) == k;
    }
  }

  /** t stays where it is no playback offset. */
  lemma TimeStays(q: Query, k: string)
    requires k in q && k == "t"
    ensures k in Kept(q, Drops(Vimeo)) && k in Kept(q, Drops(Bluesky))
  {
    LowerLaw(k);
    assert ToLower(k) == k;
  }

  // ----- Different shapes of one post

  /** A share link and its watch page, whatever else the query holds. */
  lemma ShareLinkIsWatchPage(id: string, q: Query)
    ensures MatchPlatform(YouTube, "youtu.be", [id], q) == MatchPlatform(YouTube, "youtube.com", ["watch"], q["v" := [id]])
  {
    VIsKept();
    KeptSet(q, YOUTUBE_DROPS, "v", [id]);
  }

  /** A short link and every permalink of the post, with or without its title. */
  lemma ShortLinkIsPermalink(id: string, sub: string, title: seq<string>, q: Query)
    requires |title| <= 1
    ensures MatchPlatform(Reddit, "redd.it", [id], q)
            == MatchPlatform(Reddit, "reddit.com", ["r", sub, "comments", id] + title, q)
            == MatchPlatform(Reddit, "reddit.com", ["comments", id] + title, q)
  {
    var long, short := ["r", sub, "comments", id] + title, ["comments", id] + title;
    assert long[4..] == title && short[2..] == title;
    assert short[0] != "r";
  }

  /** A comment's legacy and current permalinks, under a community or not. */
  lemma CommentPermalinks(id: string, sub: string, title: string, comment: string, q: Query)
    requires IsIDLike(comment)
    ensures MatchPlatform(Reddit, "reddit.com", ["r", sub, "comments", id, title, comment], q)
            == MatchPlatform(Reddit, "reddit.com", ["comments", id, "comment", comment], q)
  {
    var long, short := ["r", sub, "comments", id, title, comment], ["comments", id, "comment", comment];
    assert long[4..] == [title, comment] && short[2..] == ["comment", comment];
    assert short[0] != "r";
  }

  /** An unlisted video's page and its player. */
  lemma PlayerIsPage(id: string, hash: string, q: Query)
    requires IsIDLike(hash) && "h" !in q
    ensures MatchPlatform(Vimeo, "vimeo.com", [id, hash], q)
            == MatchPlatform(Vimeo, "player.vimeo.com", ["video", id], q["h" := [hash]])
  {
    HIsKept();
    KeptSet(q, VIMEO_DROPS, "h", [hash]);
    var kept := Kept(q, VIMEO_DROPS);
    assert kept["h" := [hash]] - {"h"} == kept;
  }

  /** As text: addresses on one platform's hosts that match the same canonical parts have one identity. */
  lemma OneIdentity(p: Platform, host1: string, path1: string, q1: Query, host2: string, path2: string, q2: Query)
    requires HostText(host1) && PathText(path1) && ValuesOk(q1)
    requires HostText(host2) && PathText(path2) && ValuesOk(q2)
    requires PlatformOf(BareHost(host1)) == PlatformOf(BareHost(host2)) == Some(p)
    requires MatchPlatform(p, BareHost(host1), Segments(path1), q1).Some?
    requires MatchPlatform(p, BareHost(host1), Segments(path1), q1) == MatchPlatform(p, BareHost(host2), Segments(path2), q2)
    ensures CanonicalizeArchiveURL(Print(host1, path1, q1)) == CanonicalizeArchiveURL(Print(host2, path2, q2))
  {
    PrintParses(host1, path1, q1);
    PrintParses(host2, path2, q2);
  }
}
