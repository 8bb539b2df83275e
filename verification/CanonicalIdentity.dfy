/** Canonicalizing twice: what the code finds when it reads an address it printed itself. */
module CanonicalIdentity {
  import opened Strings
  import opened Models
  import opened Url
  import opened CanonicalUrl

  // ----- Printed paths and hosts read back

  predicate IsNameChar(c: char) {
    IsPathChar(c) && c != '/'
  }

  /** A path segment that prints as itself. */
  predicate NameText(s: string) {
    s != "" && forall i :: 0 <= i < |s| ==> IsNameChar(s[i])
  }

  ghost predicate AllNames(segs: seq<string>) {
    forall i :: 0 <= i < |segs| ==> NameText(segs[i])
  }

  ghost predicate WellFormed(c: Canonical) {
    c.segs != [] && AllNames(c.segs) && ValuesOk(c.query)
  }

  lemma {:induction false} PathReads(segs: seq<string>)
    requires AllNames(segs)
    ensures Segments(PathOf(segs)) == segs
    ensures forall i :: 0 <= i < |PathOf(segs)| ==> IsPathChar(PathOf(segs)[i])
    ensures segs != [] ==> PathText(PathOf(segs)) && IsNameChar(PathOf(segs)[|PathOf(segs)| - 1])
  {
    if segs == [] {
      SegmentsOfName("a");
    } else {
      var n := |segs| - 1;
      PathReads(segs[..n]);
      SegmentsAppend(PathOf(segs[..n]), segs[n]);
      SegmentsOfName(segs[n]);
      assert segs == segs[..n] + [segs[n]];
    }
  }

  function FullPath(c: Canonical): string {
    PathOf(c.segs) + (if c.slash then "/" else "")
  }

  /** The final slash changes the text and not the segments. */
  lemma PathRoundTrip(c: Canonical)
    requires c.segs != [] && AllNames(c.segs)
    ensures PathText(FullPath(c)) && Segments(FullPath(c)) == c.segs
    ensures c.slash <==> FullPath(c)[|FullPath(c)| - 1] == '/'
  {
    var path := PathOf(c.segs);
    PathReads(c.segs);
    FinalSlash(path);
    assert path + "" == path;
  }

  lemma FinalSlash(path: string)
    ensures Segments(path + "/") == Segments(path)
  {
    SegmentsOfName("a");
    SegmentsAppend(path, "");
    assert path + "/" + "" == path + "/";
  }

  lemma HostIsLower(host: string)
    requires HostText(host)
    ensures ToLower(host) == host
  {
    LowerLaw(host);
  }

  lemma WwwReads(rest: string)
    requires HostText(rest)
    ensures HostText("www." + rest) && BareHost("www." + rest) == rest
  {
    assert HostText("www.");
    HostIsLower("www." + rest);
  }

  lemma PlainReads(host: string)
    requires HostText(host) && |host| > 1 && host[1] != 'w'
    ensures BareHost(host) == host
  {
    HostIsLower(host);
  }

  predicate BareOk(host: string) {
    HostText(host) && |host| > 1 && host[1] != 'w'
  }

  lemma EarlyText(p: Platform)
    requires p.YouTube? || p.Instagram? || p.Twitter? || p.TikTok?
    ensures BareOk(SiteBare(Main(p)))
  {
  }

  lemma LateText(p: Platform)
    requires p.Reddit? || p.Bluesky? || p.Vimeo?
    ensures BareOk(SiteBare(Main(p)))
  {
  }

  lemma FacebookText(site: Site)
    requires site == Main(Facebook) || site == FbWatch
    ensures BareOk(SiteBare(site))
  {
  }

  lemma BareText(site: Site)
    ensures BareOk(SiteBare(site))
  {
    if site.FbWatch? || site.platform.Facebook? {
      FacebookText(site);
    } else if site.platform.Reddit? || site.platform.Bluesky? || site.platform.Vimeo? {
      LateText(site.platform);
    } else {
      EarlyText(site.platform);
    }
  }

  /** The bare host the code sees when it reads a canonical address. */
  lemma SiteReads(site: Site)
    ensures HostText(SiteHost(site)) && BareHost(SiteHost(site)) == SiteBare(site)
  {
    BareText(site);
    if OnWww(site) {
      WwwReads(SiteBare(site));
    } else {
      PlainReads(SiteBare(site));
      assert SiteHost(site) == SiteBare(site);
    }
  }

  lemma EarlyPlatform(p: Platform)
    requires p.YouTube? || p.Instagram? || p.Twitter? || p.TikTok? || p.Reddit?
    ensures PlatformOf(SiteBare(Main(p))) == Some(p)
  {
  }

  lemma LatePlatform(p: Platform)
    requires p.Bluesky? || p.Vimeo?
    ensures PlatformOf(SiteBare(Main(p))) == Some(p)
  {
  }

  lemma FacebookPlatform()
    ensures PlatformOf(SiteBare(Main(Facebook))) == Some(Facebook)
  {
  }

  lemma FbWatchPlatform()
    ensures PlatformOf(SiteBare(FbWatch)) == Some(Facebook)
  {
  }

  lemma SitePlatform(site: Site)
    ensures PlatformOf(SiteBare(site)) == Some(if site.FbWatch? then Facebook else site.platform)
  {
    if site.FbWatch? {
      FbWatchPlatform();
    } else if site.platform.Facebook? {
      FacebookPlatform();
    } else if site.platform.Bluesky? || site.platform.Vimeo? {
      LatePlatform(site.platform);
    } else {
      EarlyPlatform(site.platform);
    }
  }

  lemma SiteInjective(site1: Site, site2: Site)
    requires SiteHost(site1) == SiteHost(site2)
    ensures site1 == site2
  {
    SiteReads(site1);
    SiteReads(site2);
    SitePlatform(site1);
    SitePlatform(site2);
    assert |SiteBare(FbWatch)| != |SiteBare(Main(Facebook))|;
  }

  /** Reading a printed canonical address. */
  lemma ShowReads(c: Canonical)
    requires WellFormed(c)
    ensures Recognize(Show(c)) == Match(SiteBare(c.site), c.segs, c.query)
  {
    SiteReads(c.site);
    PathRoundTrip(c);
    PrintParses(SiteHost(c.site), FullPath(c), c.query);
  }

  /** Equal printed identities have equal parts. */
  lemma ShowInjective(c: Canonical, d: Canonical)
    requires WellFormed(c) && WellFormed(d)
    ensures Show(c) == Show(d) <==> c == d
  {
    if Show(c) == Show(d) {
      SiteReads(c.site);
      SiteReads(d.site);
      PathRoundTrip(c);
      PathRoundTrip(d);
      PrintInjective(SiteHost(c.site), FullPath(c), c.query, SiteHost(d.site), FullPath(d), d.query);
      SiteInjective(c.site, d.site);
    }
  }

  // ----- Every match is well formed

  lemma NumericIsName(s: string)
    requires IsNumeric(s)
    ensures NameText(s)
  {
  }

  lemma LowerIsName(s: string)
    requires IsHandleLike(ToLower(s)) || (s != "" && s[0] == '@' && IsHandleLike(ToLower(s)[1..]))
    ensures NameText(ToLower(s)) && |ToLower(s)| == |s|
    ensures s[0] == '@' ==> ToLower(s)[0] == '@'
  {
    LowerLaw(s);
    var t := ToLower(s);
    assert forall i :: 1 <= i < |t| ==> t[i] == t[1..][i - 1];
  }

  lemma ActorIsName(s: string)
    requires IsHandleLike(Actor(s))
    ensures NameText(Actor(s)) && Actor(Actor(s)) == Actor(s)
  {
    LowerTwice(s);
  }

  lemma RedditWellFormed(id: string, rest: seq<string>, q: Query)
    requires ValuesOk(q) && RedditPost(id, rest, q).Some?
    ensures WellFormed(RedditPost(id, rest, q).value)
  {
  }

  lemma WatchWellFormed(q: Query, v: string)
    requires ValuesOk(q)
    ensures WellFormed(Canonical(Main(Facebook), ["watch"], true, q["v" := [v]]))
  {
  }

  lemma ReelWellFormed(id: string, q: Query)
    requires ValuesOk(q) && IsNumeric(id)
    ensures WellFormed(Canonical(Main(Facebook), ["reel", id], true, q))
  {
    NumericIsName(id);
  }

  lemma PageVideoWellFormed(segs: seq<string>, q: Query)
    requires ValuesOk(q) && IsPageVideo(segs)
    ensures WellFormed(Canonical(Main(Facebook), [ToLower(segs[0]), "videos", segs[|segs| - 1]], true, q))
  {
    LowerIsName(segs[0]);
    NumericIsName(segs[|segs| - 1]);
  }

  lemma FacebookWellFormed(bare: string, segs: seq<string>, q: Query)
    requires ValuesOk(q) && MatchFacebook(bare, segs, q).Some?
    ensures WellFormed(MatchFacebook(bare, segs, q).value)
  {
    if bare != "fb.watch" {
      if IsWatchWord(segs[0]) {
        WatchWellFormed(q, Get(q, "v"));
      } else if IsReel(segs) {
        ReelWellFormed(segs[|segs| - 1], q);
      } else {
        PageVideoWellFormed(segs, q);
      }
    }
  }

  lemma TikTokWellFormed(segs: seq<string>, q: Query)
    requires ValuesOk(q) && MatchTikTok(segs, q).Some?
    ensures WellFormed(MatchTikTok(segs, q).value)
  {
    LowerIsName(segs[0]);
  }

  lemma BlueskyWellFormed(segs: seq<string>, q: Query)
    requires ValuesOk(q) && MatchBluesky(segs, q).Some?
    ensures WellFormed(MatchBluesky(segs, q).value)
  {
    ActorIsName(segs[1]);
  }

  lemma YouTubeWellFormed(bare: string, segs: seq<string>, q: Query)
    requires ValuesOk(q) && MatchYouTube(bare, segs, q).Some?
    ensures WellFormed(MatchYouTube(bare, segs, q).value)
  {
  }

  lemma InstagramWellFormed(segs: seq<string>, q: Query)
    requires ValuesOk(q) && MatchInstagram(segs, q).Some?
    ensures WellFormed(MatchInstagram(segs, q).value)
  {
  }

  lemma TwitterWellFormed(segs: seq<string>, q: Query)
    requires ValuesOk(q) && MatchTwitter(segs, q).Some?
    ensures WellFormed(MatchTwitter(segs, q).value)
  {
  }

  lemma RedditMatchWellFormed(bare: string, segs: seq<string>, q: Query)
    requires ValuesOk(q) && MatchReddit(bare, segs, q).Some?
    ensures WellFormed(MatchReddit(bare, segs, q).value)
  {
    if bare != "redd.it" {
      if |segs| >= 4 && segs[0] == "r" && segs[2] == "comments" { RedditWellFormed(segs[3], segs[4..], q); }
      else { RedditWellFormed(segs[1], segs[2..], q); }
    }
  }

  lemma VimeoWellFormed(bare: string, segs: seq<string>, q: Query)
    requires ValuesOk(q) && MatchVimeo(bare, segs, q).Some?
    ensures WellFormed(MatchVimeo(bare, segs, q).value)
  {
  }

  lemma MatchWellFormed(bare: string, segs: seq<string>, query: Query)
    requires ValuesOk(query) && Match(bare, segs, query).Some?
    ensures WellFormed(Match(bare, segs, query).value)
  {
    var p := PlatformOf(bare).value;
    var q := Kept(query, Drops(p));
    match p
    case YouTube => YouTubeWellFormed(bare, segs, q);
    case Instagram => InstagramWellFormed(segs, q);
    case Twitter => TwitterWellFormed(segs, q);
    case TikTok => TikTokWellFormed(segs, q);
    case Reddit => RedditMatchWellFormed(bare, segs, q);
    case Bluesky => BlueskyWellFormed(segs, q);
    case Vimeo => VimeoWellFormed(bare, segs, q);
    case Facebook => FacebookWellFormed(bare, segs, q);
  }

  lemma ParsedOk(s: string)
    requires ParseHTTP(s).Some?
    ensures ValuesOk(ParseHTTP(s).value.query)
  {
    var (u, _) := Cut(s, '#');
    var rest := u[|SchemeOf(u).value| + 1..];
    AddPiecesOk(Split(Cut(rest, '?').1, '&'));
  }

  lemma RecognizedWellFormed(url: string)
    requires Recognize(url).Some?
    ensures WellFormed(Recognize(url).value)
  {
    var u := ParseHTTP(TrimSpace(url)).value;
    ParsedOk(TrimSpace(url));
    MatchWellFormed(BareHost(u.hostname), Segments(u.path), u.query);
  }

  // ----- Matching a canonical form again

  lemma KeptTwice(q: Query, drops: set<string>)
    ensures Kept(Kept(q, drops), drops) == Kept(q, drops)
  {
  }

  lemma VIsKept()
    ensures !Junk("v", YOUTUBE_DROPS) && !Junk("v", FACEBOOK_DROPS)
  {
    LowerLaw("v");
  }

  lemma HIsKept()
    ensures !Junk("h", VIMEO_DROPS)
  {
    LowerLaw("h");
  }

  lemma KeptSet(q: Query, drops: set<string>, k: string, values: seq<string>)
    requires !Junk(k, drops)
    ensures Kept(q[k := values], drops) == Kept(q, drops)[k := values]
  {
  }

  lemma KeptWithout(q: Query, drops: set<string>, k: string)
    ensures Kept(q - {k}, drops) == Kept(q, drops) - {k}
  {
  }

  lemma YouTubeAgain(bare: string, segs: seq<string>, query: Query)
    requires MatchYouTube(bare, segs, Kept(query, YOUTUBE_DROPS)).Some?
    ensures var c := MatchYouTube(bare, segs, Kept(query, YOUTUBE_DROPS)).value;
            Kept(c.query, YOUTUBE_DROPS) == c.query && MatchYouTube("youtube.com", c.segs, c.query) == Some(c)
  {
    VIsKept();
    KeptTwice(query, YOUTUBE_DROPS);
    if bare == "youtu.be" { KeptSet(Kept(query, YOUTUBE_DROPS), YOUTUBE_DROPS, "v", [segs[0]]); }
  }

  lemma InstagramAgain(segs: seq<string>, q: Query)
    requires MatchInstagram(segs, q).Some?
    ensures var c := MatchInstagram(segs, q).value; c.query == q && MatchInstagram(c.segs, q) == Some(c)
  {
  }

  lemma TwitterAgain(segs: seq<string>, q: Query)
    requires MatchTwitter(segs, q).Some?
    ensures var c := MatchTwitter(segs, q).value; c.query == q && MatchTwitter(c.segs, q) == Some(c)
  {
    StatusAgain(MatchTwitter(segs, q).value.segs[3], q);
  }

  lemma StatusAgain(id: string, q: Query)
    requires IsNumeric(id)
    ensures var s := ["i", "web", "status", id]; MatchTwitter(s, q) == Some(Canonical(Main(Twitter), s, false, q))
  {
    var s, words := ["i", "web", "status", id], {"status", "statuses"};
    assert s[1..] == ["web", "status", id] && s[1..][1..] == ["status", id];
    assert FirstOf(["status", id], words) == 0;
    assert FirstOf(["web", "status", id], words) == 1;
  }

  lemma TikTokAgain(segs: seq<string>, q: Query)
    requires MatchTikTok(segs, q).Some?
    ensures var c := MatchTikTok(segs, q).value; c.query == q && MatchTikTok(c.segs, q) == Some(c)
  {
    LowerIsName(segs[0]);
    LowerTwice(segs[0]);
  }

  lemma RedditAgain(bare: string, segs: seq<string>, q: Query)
    requires MatchReddit(bare, segs, q).Some?
    ensures var c := MatchReddit(bare, segs, q).value; c.query == q && MatchReddit("reddit.com", c.segs, q) == Some(c)
  {
    var c := MatchReddit(bare, segs, q).value;
    assert c.segs[0] == "comments" != "r";
  }

  lemma BlueskyAgain(segs: seq<string>, q: Query)
    requires MatchBluesky(segs, q).Some?
    ensures var c := MatchBluesky(segs, q).value; c.query == q && MatchBluesky(c.segs, q) == Some(c)
  {
    ActorIsName(segs[1]);
  }

  lemma VimeoAgain(bare: string, segs: seq<string>, query: Query)
    requires MatchVimeo(bare, segs, Kept(query, VIMEO_DROPS)).Some?
    ensures var c := MatchVimeo(bare, segs, Kept(query, VIMEO_DROPS)).value;
            Kept(c.query, VIMEO_DROPS) == c.query && MatchVimeo("vimeo.com", c.segs, c.query) == Some(c)
  {
    KeptTwice(query, VIMEO_DROPS);
    KeptWithout(Kept(query, VIMEO_DROPS), VIMEO_DROPS, "h");
  }

  /** The page name becomes a word of the site's own when it is lower-cased, and the address carries a video number. */
  predicate FoldsToWatch(bare: string, segs: seq<string>, q: Query) {
    && bare != "fb.watch" && |segs| > 0
    && !IsWatchWord(segs[0]) && IsWatchWord(ToLower(segs[0]))
    && !IsReel(segs) && IsPageVideo(segs)
    && IsNumeric(Get(q, "v"))
  }

  lemma FacebookAgain(bare: string, segs: seq<string>, query: Query)
    requires MatchFacebook(bare, segs, Kept(query, FACEBOOK_DROPS)).Some?
    ensures var c := MatchFacebook(bare, segs, Kept(query, FACEBOOK_DROPS)).value;
            Kept(c.query, FACEBOOK_DROPS) == c.query
  {
    VIsKept();
    KeptTwice(query, FACEBOOK_DROPS);
    var q := Kept(query, FACEBOOK_DROPS);
    KeptSet(q, FACEBOOK_DROPS, "v", [Get(q, "v")]);
  }

  lemma PageVideoAgain(page: string, id: string, q: Query)
    requires IsHandleLike(page) && ToLower(page) == page && IsNumeric(id)
    ensures var segs := [page, "videos", id];
            MatchFacebook("facebook.com", segs, q) ==
              if !IsWatchWord(page) then Some(Canonical(Main(Facebook), segs, true, q))
              else if IsNumeric(Get(q, "v")) then Some(Canonical(Main(Facebook), ["watch"], true, q["v" := [Get(q, "v")]]))
              else None
  {
    var segs := [page, "videos", id];
    assert segs[1..] == ["videos", id];
    assert segs[1] != "reel";
  }

  lemma WatchAgain(q: Query, v: string)
    requires IsNumeric(v)
    ensures MatchFacebook("facebook.com", ["watch"], q["v" := [v]])
            == Some(Canonical(Main(Facebook), ["watch"], true, q["v" := [v]]))
  {
    assert q["v" := [v]]["v" := [v]] == q["v" := [v]];
  }

  lemma ReelAgain(id: string, q: Query)
    requires IsNumeric(id)
    ensures MatchFacebook("facebook.com", ["reel", id], q) == Some(Canonical(Main(Facebook), ["reel", id], true, q))
  {
    assert |"reel"| == 4;
  }

  /** What a Facebook address becomes on the second pass. */
  lemma FacebookTwice(bare: string, segs: seq<string>, q: Query)
    requires MatchFacebook(bare, segs, q).Some?
    ensures var c := MatchFacebook(bare, segs, q).value; var again := MatchFacebook(SiteBare(c.site), c.segs, c.query);
            if FoldsToWatch(bare, segs, q) then again.Some? && again.value.segs == ["watch"] && |c.segs| == 3
            else again == Some(c) || again == None
  {
    if bare == "fb.watch" {
    } else if IsWatchWord(segs[0]) {
      WatchAgain(q, Get(q, "v"));
    } else if IsReel(segs) {
      ReelAgain(segs[|segs| - 1], q);
    } else {
      LowerTwice(segs[0]);
      PageVideoAgain(ToLower(segs[0]), segs[|segs| - 1], q);
    }
  }

  /** The canonical parts of every other platform match themselves. */
  lemma PlatformAgain(p: Platform, bare: string, segs: seq<string>, query: Query)
    requires MatchPlatform(p, bare, segs, query).Some? && p != Facebook
    ensures var c := MatchPlatform(p, bare, segs, query).value;
            c.site == Main(p) && MatchPlatform(p, SiteBare(c.site), c.segs, c.query) == Some(c)
  {
    var q := Kept(query, Drops(p));
    KeptTwice(query, Drops(p));
    match p
    case YouTube => YouTubeAgain(bare, segs, query);
    case Instagram => InstagramAgain(segs, q);
    case Twitter => TwitterAgain(segs, q);
    case TikTok => TikTokAgain(segs, q);
    case Reddit => RedditAgain(bare, segs, q);
    case Bluesky => BlueskyAgain(segs, q);
    case Vimeo => VimeoAgain(bare, segs, query);
  }

  lemma FacebookSite(bare: string, segs: seq<string>, query: Query)
    requires MatchPlatform(Facebook, bare, segs, query).Some?
    ensures var c := MatchPlatform(Facebook, bare, segs, query).value; c.site == FbWatch || c.site == Main(Facebook)
  {
  }

  lemma FacebookMatchTwice(bare: string, segs: seq<string>, query: Query)
    requires PlatformOf(bare) == Some(Facebook) && Match(bare, segs, query).Some?
    ensures var c := Match(bare, segs, query).value; var again := Match(SiteBare(c.site), c.segs, c.query);
            if FoldsToWatch(bare, segs, Kept(query, FACEBOOK_DROPS)) then
              again.Some? && again.value.segs == ["watch"] && |c.segs| == 3
            else again == Some(c) || again == None
  {
    var c := Match(bare, segs, query).value;
    FacebookAgain(bare, segs, query);
    FacebookTwice(bare, segs, Kept(query, FACEBOOK_DROPS));
    FacebookSite(bare, segs, query);
    SitePlatform(c.site);
  }

  lemma MatchTwice(bare: string, segs: seq<string>, query: Query)
    requires Match(bare, segs, query).Some? && PlatformOf(bare) != Some(Facebook)
    ensures var c := Match(bare, segs, query).value; Match(SiteBare(c.site), c.segs, c.query) == Some(c)
  {
    PlatformAgain(PlatformOf(bare).value, bare, segs, query);
    SitePlatform(Match(bare, segs, query).value.site);
  }

  /**
   * The addresses whose canonical form names something else: a Facebook page video whose page segment becomes
   * "watch" or "video.php" only in lower case, with a numeric v parameter.
   */
  predicate ReadsDifferentlyTwice(url: string) {
    match ParseHTTP(TrimSpace(url))
    case None => false
    case Some(u) =>
      var bare := BareHost(u.hostname);
      u.hostname != "" && DefaultPort(u.port) && PlatformOf(bare) == Some(Facebook)
      && FoldsToWatch(bare, Segments(u.path), Kept(u.query, FACEBOOK_DROPS))
  }

  lemma RecognizedTwice(url: string)
    requires Recognize(url).Some?
    ensures var c := Recognize(url).value; var again := Recognize(Show(c));
            if ReadsDifferentlyTwice(url) then again.Some? && again.value != c else again == Some(c) || again == None
  {
    var c := Recognize(url).value;
    var u := ParseHTTP(TrimSpace(url)).value;
    RecognizedWellFormed(url);
    ShowReads(c);
    if PlatformOf(BareHost(u.hostname)) == Some(Facebook) {
      FacebookMatchTwice(BareHost(u.hostname), Segments(u.path), u.query);
    } else {
      MatchTwice(BareHost(u.hostname), Segments(u.path), u.query);
    }
  }

  lemma FoldedMatches(bare: string, segs: seq<string>, q: Query)
    requires FoldsToWatch(bare, segs, q)
    ensures MatchFacebook(bare, segs, q).Some?
  {
  }

  lemma FacebookMatch(bare: string, segs: seq<string>, query: Query)
    requires PlatformOf(bare) == Some(Facebook)
    ensures Match(bare, segs, query) == MatchFacebook(bare, segs, Kept(query, FACEBOOK_DROPS))
  {
  }

  lemma FoldedIsRecognized(url: string)
    requires ReadsDifferentlyTwice(url)
    ensures Recognize(url).Some?
  {
    var u := ParseHTTP(TrimSpace(url)).value;
    FoldedMatches(BareHost(u.hostname), Segments(u.path), Kept(u.query, FACEBOOK_DROPS));
    FacebookMatch(BareHost(u.hostname), Segments(u.path), u.query);
  }

  /** Canonicalizing is idempotent on exactly the addresses outside the folding family. */
  lemma CanonicalTwice(url: string)
    ensures CanonicalizeArchiveURL(CanonicalizeArchiveURL(url)) == CanonicalizeArchiveURL(url) <==> !ReadsDifferentlyTwice(url)
  {
    match Recognize(url)
    case None =>
      if ReadsDifferentlyTwice(url) { FoldedIsRecognized(url); }
    case Some(c) =>
      RecognizedTwice(url);
      RecognizedWellFormed(url);
      if ReadsDifferentlyTwice(url) {
        RecognizedWellFormed(Show(c));
        ShowInjective(c, Recognize(Show(c)).value);
      }
  }

  /** The printed members of the family. */
  lemma FoldingPrinted(c: Canonical)
    requires WellFormed(c) && c.site == Main(Facebook)
    requires FoldsToWatch(SiteBare(c.site), c.segs, Kept(c.query, FACEBOOK_DROPS))
    ensures ReadsDifferentlyTwice(Show(c))
  {
    SiteReads(c.site);
    PathRoundTrip(c);
    SitePlatform(c.site);
    PrintParses(SiteHost(c.site), FullPath(c), c.query);
  }

  lemma CapitalWatchFolds(bare: string, segs: seq<string>, q: Query)
    requires |bare| > 8 && segs == ["Watch", "videos", "1"] && q == map["v" := ["2"]]
    ensures FoldsToWatch(bare, segs, q) && Kept(q, FACEBOOK_DROPS) == q && AllNames(segs)
  {
    VIsKept();
    LowerWatch(segs[0]);
    assert segs[1..] == ["videos", "1"];
  }

  lemma LowerWatch(page: string)
    requires page == "Watch"
    ensures ToLower(page) == "watch"
  {
    LowerLaw(page);
  }

  /** The documented promise of idempotence fails: video 1 of the page Watch, with a v parameter. */
  lemma CapitalWatchChanges(c: Canonical)
    requires c.site == Main(Facebook) && c.segs == ["Watch", "videos", "1"] && c.query == map["v" := ["2"]]
    ensures var once := CanonicalizeArchiveURL(Show(c)); CanonicalizeArchiveURL(once) != once
  {
    CapitalWatchFolds(SiteBare(c.site), c.segs, c.query);
    FoldingPrinted(c);
    CanonicalTwice(Show(c));
  }
}
