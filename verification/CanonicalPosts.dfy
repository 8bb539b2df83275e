/** Which posts an address names, how a post is addressed, and that an identity stands for one post. */
module CanonicalPosts {
  import opened Strings
  import opened Models
  import opened Url
  import opened CanonicalUrl
  import opened CanonicalIdentity

  datatype Post =
    | Video(id: string)
    | VideoPage(kind: string, id: string)
    | InstagramPost(kind: string, code: string)
    | Tweet(id: string)
    | TikTokPost(user: string, kind: string, id: string)
    | Thread(id: string)
    | Comment(id: string, comment: string)
    | BlueskyPost(actor: string, id: string)
    | VimeoVideo(id: string, hash: string)
    | WatchLink(token: string)
    | FacebookVideo(id: string)
    | FacebookReel(id: string)
    | PageVideo(page: string, id: string)

  // ----- What identifies a post

  predicate IsAsciiAlnum(n: int) {
    0x30 <= n <= 0x39 || 0x41 <= n <= 0x5A || 0x61 <= n <= 0x7A
  }

  /** The alphabets of identifiers, numbers and handles as ASCII codes: no other character is part of one. */
  lemma Alphabets(s: string)
    ensures IsIDLike(s) <==> s != "" && forall c :: c in s ==> IsAsciiAlnum(c as int) || c as int == 0x2D || c as int == 0x5F
    ensures IsNumeric(s) <==> s != "" && forall c :: c in s ==> 0x30 <= c as int <= 0x39
    ensures IsHandleLike(s) <==> s != "" && forall c :: c in s ==>
              IsAsciiAlnum(c as int) || c as int == 0x2D || c as int == 0x5F || c as int == 0x2E || c as int == 0x3A
  {
    assert forall i :: 0 <= i < |s| ==> s[i] in s;
  }

  // ----- The documented shapes: bare host, path segments and query of each post

  predicate OnYouTube(bare: string) { bare == "youtube.com" || bare == "m.youtube.com" }

  predicate SpellsVideo(bare: string, segs: seq<string>, q: Query, id: string) {
    IsIDLike(id) && ((bare == "youtu.be" && segs == [id])
                     || (OnYouTube(bare) && segs == ["watch"] && Get(q, "v") == id))
  }

  predicate SpellsVideoPage(bare: string, segs: seq<string>, kind: string, id: string) {
    OnYouTube(bare) && (kind == "shorts" || kind == "live") && IsIDLike(id) && segs == [kind, id]
  }

  predicate IsKind(s: string) { s == "p" || s == "reel" || s == "tv" || s == "reels" }

  /** Kind and code end the path, whatever page they are under; "reels" is another word for "reel". */
  predicate SpellsInstagram(bare: string, segs: seq<string>, kind: string, code: string) {
    var n := |segs|;
    && (bare == "instagram.com" || bare == "m.instagram.com")
    && n >= 2 && IsKind(segs[n - 2]) && (forall i :: 0 <= i < n - 2 ==> !IsKind(segs[i]))
    && kind == (if segs[n - 2] == "reels" then "reel" else segs[n - 2])
    && IsIDLike(code) && segs[n - 1] == code
  }

  predicate IsStatusWord(s: string) { s == "status" || s == "statuses" }

  /** Any path without a status word, then a status word and the number. */
  predicate StatusPath(segs: seq<string>, id: string) {
    var n := |segs|;
    n >= 2 && IsStatusWord(segs[n - 2]) && segs[n - 1] == id && forall i :: 0 <= i < n - 2 ==> !IsStatusWord(segs[i])
  }

  predicate OnTwitter(bare: string) {
    || bare == "x.com" || bare == "mobile.x.com" || bare == "m.x.com"
    || bare == "twitter.com" || bare == "mobile.twitter.com" || bare == "m.twitter.com"
  }

  /** A status path, bare or under the lightbox of one of its pictures. */
  predicate SpellsTweet(bare: string, segs: seq<string>, id: string) {
    var n := |segs|;
    OnTwitter(bare) && IsNumeric(id)
    && (StatusPath(segs, id)
        || (n >= 2 && (segs[n - 2] == "photo" || segs[n - 2] == "video") && IsNumeric(segs[n - 1])
            && StatusPath(segs[..n - 2], id)))
  }

  predicate SpellsTikTok(bare: string, segs: seq<string>, user: string, kind: string, id: string) {
    && (bare == "tiktok.com" || bare == "m.tiktok.com")
    && |segs| == 3 && segs[0] != "" && segs[0][0] == '@' && user == ToLower(segs[0])
    && |user| >= 2 && IsHandleLike(user[1..])
    && (kind == "video" || kind == "photo") && segs[1] == kind && IsNumeric(id) && segs[2] == id
  }

  predicate OnReddit(bare: string) {
    || bare == "reddit.com" || bare == "old.reddit.com" || bare == "new.reddit.com" || bare == "m.reddit.com"
    || bare == "np.reddit.com" || bare == "i.reddit.com" || bare == "sh.reddit.com" || bare == "amp.reddit.com"
  }

  /** comments/id or r/community/comments/id, and this many segments more. */
  predicate Permalink(segs: seq<string>, id: string, more: nat) {
    || (|segs| == 2 + more && segs[0] == "comments" && segs[1] == id)
    || (|segs| == 4 + more && segs[0] == "r" && segs[2] == "comments" && segs[3] == id)
  }

  /** A short link, or a permalink with or without the title. */
  predicate SpellsThread(bare: string, segs: seq<string>, id: string) {
    IsIDLike(id) && ((bare == "redd.it" && segs == [id])
                     || (OnReddit(bare) && (Permalink(segs, id, 0) || Permalink(segs, id, 1))))
  }

  /** The comment is two segments behind the post, whatever follows. */
  predicate SpellsComment(bare: string, segs: seq<string>, id: string, comment: string) {
    && OnReddit(bare) && IsIDLike(id) && IsIDLike(comment)
    && ((|segs| >= 4 && segs[0] == "comments" && segs[1] == id && segs[3] == comment)
        || (|segs| >= 6 && segs[0] == "r" && segs[2] == "comments" && segs[3] == id && segs[5] == comment))
  }

  predicate SpellsBluesky(bare: string, segs: seq<string>, actor: string, id: string) {
    && bare == "bsky.app" && |segs| == 4 && segs[0] == "profile" && segs[2] == "post"
    && actor == (if "did:" <= ToLower(segs[1]) then segs[1] else ToLower(segs[1])) && IsHandleLike(actor)
    && segs[3] == id && IsIDLike(id)
  }

  /** A page or player whose path carries no hash. */
  predicate SpellsPlainVimeo(bare: string, segs: seq<string>, id: string) {
    || (bare == "player.vimeo.com" && segs == ["video", id])
    || (bare == "vimeo.com" && segs == [id])
    || (bare == "vimeo.com" && |segs| == 3 && segs[0] == "channels" && segs[2] == id)
    || (bare == "vimeo.com" && |segs| == 4 && segs[0] == "groups" && segs[2] == "videos" && segs[3] == id)
  }

  /** The hash of an unlisted video is in the path or in the parameter h. */
  predicate SpellsVimeo(bare: string, segs: seq<string>, q: Query, id: string, hash: string) {
    IsNumeric(id) && ((bare == "vimeo.com" && segs == [id, hash] && IsIDLike(hash))
                      || (SpellsPlainVimeo(bare, segs, id) && hash == (if IsIDLike(Get(q, "h")) then Get(q, "h") else "")))
  }

  predicate OnFacebook(bare: string) {
    || bare == "facebook.com" || bare == "m.facebook.com" || bare == "web.facebook.com" || bare == "mbasic.facebook.com"
  }

  predicate UnderWatch(segs: seq<string>) {
    segs != [] && (segs[0] == "watch" || segs[0] == "video.php")
  }

  predicate EndsInReel(segs: seq<string>, id: string) {
    |segs| >= 2 && segs[|segs| - 2] == "reel" && segs[|segs| - 1] == id && IsNumeric(id)
  }

  predicate SpellsWatchLink(bare: string, segs: seq<string>, token: string) {
    bare == "fb.watch" && IsIDLike(token) && segs == [token]
  }

  predicate SpellsFacebookVideo(bare: string, segs: seq<string>, q: Query, id: string) {
    OnFacebook(bare) && UnderWatch(segs) && Get(q, "v") == id && IsNumeric(id)
  }

  predicate SpellsReel(bare: string, segs: seq<string>, id: string) {
    OnFacebook(bare) && !UnderWatch(segs) && EndsInReel(segs, id)
  }

  /** The page, "videos" somewhere behind it, and the number at the end. */
  predicate SpellsPageVideo(bare: string, segs: seq<string>, page: string, id: string) {
    var n := |segs|;
    && OnFacebook(bare) && !UnderWatch(segs) && n >= 3 && segs[n - 2] != "reel"
    && IsNumeric(id) && segs[n - 1] == id
    && page == ToLower(segs[0]) && IsHandleLike(page)
    && exists i :: 1 <= i < n - 1 && segs[i] == "videos"
  }

  /** An address with this bare host, these path segments and this query names the post. */
  predicate Spells(bare: string, segs: seq<string>, q: Query, post: Post) {
    match post
    case Video(id) => SpellsVideo(bare, segs, q, id)
    case VideoPage(kind, id) => SpellsVideoPage(bare, segs, kind, id)
    case InstagramPost(kind, code) => SpellsInstagram(bare, segs, kind, code)
    case Tweet(id) => SpellsTweet(bare, segs, id)
    case TikTokPost(user, kind, id) => SpellsTikTok(bare, segs, user, kind, id)
    case Thread(id) => SpellsThread(bare, segs, id)
    case Comment(id, comment) => SpellsComment(bare, segs, id, comment)
    case BlueskyPost(actor, id) => SpellsBluesky(bare, segs, actor, id)
    case VimeoVideo(id, hash) => SpellsVimeo(bare, segs, q, id, hash)
    case WatchLink(token) => SpellsWatchLink(bare, segs, token)
    case FacebookVideo(id) => SpellsFacebookVideo(bare, segs, q, id)
    case FacebookReel(id) => SpellsReel(bare, segs, id)
    case PageVideo(page, id) => SpellsPageVideo(bare, segs, page, id)
  }

  // ----- Where a post lives

  function Home(post: Post): (Site, seq<string>, bool) {
    match post
    case Video(_) => (Main(YouTube), ["watch"], false)
    case VideoPage(kind, id) => (Main(YouTube), [kind, id], false)
    case InstagramPost(kind, code) => (Main(Instagram), [kind, code], true)
    case Tweet(id) => (Main(Twitter), ["i", "web", "status", id], false)
    case TikTokPost(user, kind, id) => (Main(TikTok), [user, kind, id], false)
    case Thread(id) => (Main(Reddit), ["comments", id], true)
    case Comment(id, comment) => (Main(Reddit), ["comments", id, "comment", comment], true)
    case BlueskyPost(actor, id) => (Main(Bluesky), ["profile", actor, "post", id], false)
    case VimeoVideo(id, hash) => (Main(Vimeo), if hash == "" then [id] else [id, hash], false)
    case WatchLink(token) => (FbWatch, [token], true)
    case FacebookVideo(_) => (Main(Facebook), ["watch"], true)
    case FacebookReel(id) => (Main(Facebook), ["reel", id], true)
    case PageVideo(page, id) => (Main(Facebook), [page, "videos", id], true)
  }

  /** What is left of the kept parameters: an ID in the path joins them, a hash in them joins the path. */
  function Left(bare: string, post: Post, q: Query): Query {
    match post
    case Video(id) => if bare == "youtu.be" then q["v" := [id]] else q
    case FacebookVideo(id) => q["v" := [id]]
    case VimeoVideo(_, _) => if Get(q, "h") == "" then q else q - {"h"}
    case _ => q
  }

  function CanonicalOf(bare: string, post: Post, q: Query): Canonical {
    var (site, segs, slash) := Home(post);
    Canonical(site, segs, slash, Left(bare, post, q))
  }

  // ----- The matchers recognize exactly these shapes

  lemma YouTubeFound(bare: string, segs: seq<string>, q: Query, post: Post)
    requires post.Video? || post.VideoPage?
    requires Spells(bare, segs, q, post)
    ensures MatchYouTube(bare, segs, q) == Some(CanonicalOf(bare, post, q))
  {
  }

  lemma YouTubeNamed(bare: string, segs: seq<string>, q: Query) returns (post: Post)
    requires (bare == "youtu.be" || OnYouTube(bare)) && MatchYouTube(bare, segs, q).Some?
    ensures (post.Video? || post.VideoPage?) && Spells(bare, segs, q, post)
  {
    post := if bare == "youtu.be" then Video(segs[0]) else if |segs| == 1 then Video(Get(q, "v")) else VideoPage(segs[0], segs[1]);
  }

  lemma InstagramFound(bare: string, segs: seq<string>, q: Query, post: Post)
    requires post.InstagramPost? && Spells(bare, segs, q, post)
    ensures MatchInstagram(segs, q) == Some(CanonicalOf(bare, post, q))
  {
    var i := FirstOf(segs, {"reels", "p", "reel", "tv"});
    assert IsKind(segs[|segs| - 2]);
  }

  lemma InstagramNamed(bare: string, segs: seq<string>, q: Query) returns (post: Post)
    requires (bare == "instagram.com" || bare == "m.instagram.com") && MatchInstagram(segs, q).Some?
    ensures post.InstagramPost? && Spells(bare, segs, q, post)
  {
    var kind := segs[|segs| - 2];
    post := InstagramPost(if kind == "reels" then "reel" else kind, segs[|segs| - 1]);
  }

  /** Scanning stops at the first of the words. */
  lemma FirstIs(segs: seq<string>, words: set<string>, n: nat)
    requires n < |segs| && segs[n] in words && forall i :: 0 <= i < n ==> segs[i] !in words
    ensures FirstOf(segs, words) == n
  {
    assert FirstOf(segs, words) >= n;
  }

  lemma StatusFound(segs: seq<string>, n: nat)
    requires n < |segs| && IsStatusWord(segs[n]) && forall i :: 0 <= i < n ==> !IsStatusWord(segs[i])
    ensures FirstOf(segs, {"status", "statuses"}) == n
  {
    FirstIs(segs, {"status", "statuses"}, n);
  }

  lemma TweetFound(bare: string, segs: seq<string>, q: Query, post: Post)
    requires post.Tweet? && Spells(bare, segs, q, post)
    ensures MatchTwitter(segs, q) == Some(CanonicalOf(bare, post, q))
  {
    var n := |segs|;
    if StatusPath(segs, post.id) {
      StatusFound(segs, n - 2);
    } else {
      var short := segs[..n - 2];
      assert forall i :: 0 <= i < |short| ==> short[i] == segs[i];
      StatusFound(segs, n - 4);
      assert segs[n - 4 + 2..] == [segs[n - 2], segs[n - 1]];
    }
  }

  lemma TweetNamed(bare: string, segs: seq<string>, q: Query) returns (post: Post)
    requires OnTwitter(bare) && MatchTwitter(segs, q).Some?
    ensures post.Tweet? && Spells(bare, segs, q, post)
  {
    var i := FirstOf(segs, {"status", "statuses"});
    post := Tweet(segs[i + 1]);
    if |segs| == i + 4 {
      var rest, short := segs[i + 2..], segs[..i + 2];
      assert rest[0] == segs[i + 2] && rest[1] == segs[i + 3];
      assert forall j :: 0 <= j < |short| ==> short[j] == segs[j];
      assert StatusPath(short, post.id);
    } else {
      assert StatusPath(segs, post.id);
    }
  }

  lemma TikTokFound(bare: string, segs: seq<string>, q: Query, post: Post)
    requires post.TikTokPost? && Spells(bare, segs, q, post)
    ensures MatchTikTok(segs, q) == Some(CanonicalOf(bare, post, q))
  {
  }

  lemma TikTokNamed(bare: string, segs: seq<string>, q: Query) returns (post: Post)
    requires (bare == "tiktok.com" || bare == "m.tiktok.com") && MatchTikTok(segs, q).Some?
    ensures post.TikTokPost? && Spells(bare, segs, q, post)
  {
    post := TikTokPost(ToLower(segs[0]), segs[1], segs[2]);
  }

  lemma RedditFound(bare: string, segs: seq<string>, q: Query, post: Post)
    requires post.Thread? || post.Comment?
    requires Spells(bare, segs, q, post)
    ensures MatchReddit(bare, segs, q) == Some(CanonicalOf(bare, post, q))
  {
    assert "r" != "comments";
  }

  lemma RedditNamed(bare: string, segs: seq<string>, q: Query) returns (post: Post)
    requires (bare == "redd.it" || OnReddit(bare)) && MatchReddit(bare, segs, q).Some?
    ensures (post.Thread? || post.Comment?) && Spells(bare, segs, q, post)
  {
    assert "r" != "comments";
    var k := if bare == "redd.it" then 0 else if segs[0] == "comments" then 1 else 3;
    post := if |segs| >= k + 3 then Comment(segs[k], segs[k + 2]) else Thread(segs[k]);
  }

  lemma BlueskyFound(bare: string, segs: seq<string>, q: Query, post: Post)
    requires post.BlueskyPost? && Spells(bare, segs, q, post)
    ensures MatchBluesky(segs, q) == Some(CanonicalOf(bare, post, q))
  {
  }

  lemma BlueskyNamed(bare: string, segs: seq<string>, q: Query) returns (post: Post)
    requires bare == "bsky.app" && MatchBluesky(segs, q).Some?
    ensures post.BlueskyPost? && Spells(bare, segs, q, post)
  {
    post := BlueskyPost(Actor(segs[1]), segs[3]);
  }

  lemma VimeoFound(bare: string, segs: seq<string>, q: Query, post: Post)
    requires post.VimeoVideo? && Spells(bare, segs, q, post)
    ensures MatchVimeo(bare, segs, q) == Some(CanonicalOf(bare, post, q))
  {
    assert !IsNumeric("video") by { assert !IsDigit("video"[0]); }
  }

  lemma VimeoNamed(bare: string, segs: seq<string>, q: Query) returns (post: Post)
    requires (bare == "vimeo.com" || bare == "player.vimeo.com") && MatchVimeo(bare, segs, q).Some?
    ensures post.VimeoVideo? && Spells(bare, segs, q, post)
  {
    var (id, pathHash) := VimeoPath(bare, segs).value;
    var h := Get(q, "h");
    post := VimeoVideo(id, if pathHash != "" then pathHash else if IsIDLike(h) then h else "");
  }

  /** The first "videos" behind the page leaves room for the number exactly when one does. */
  lemma VideosBehind(segs: seq<string>)
    requires |segs| >= 2
    ensures 1 + FirstOf(segs[1..], {"videos"}) < |segs| - 1 <==> exists i :: 1 <= i < |segs| - 1 && segs[i] == "videos"
  {
    var rest := segs[1..];
    var k := FirstOf(rest, {"videos"});
    assert forall j :: 0 <= j < |rest| ==> rest[j] == segs[j + 1];
    if k < |segs| - 2 {
      assert segs[k + 1] == "videos";
    } else {
      forall i | 1 <= i < |segs| - 1 ensures segs[i] != "videos" {
        assert rest[i - 1] != "videos";
      }
    }
  }

  lemma NotFbWatch(bare: string)
    requires OnFacebook(bare)
    ensures bare != "fb.watch"
  {
  }

  lemma PageVideoFound(bare: string, segs: seq<string>, q: Query, post: Post)
    requires post.PageVideo? && Spells(bare, segs, q, post)
    ensures MatchFacebook(bare, segs, q) == Some(CanonicalOf(bare, post, q))
  {
    NotFbWatch(bare);
    VideosBehind(segs);
    assert !IsReel(segs) && !IsWatchWord(segs[0]);
    assert IsPageVideo(segs);
  }

  lemma FacebookFound(bare: string, segs: seq<string>, q: Query, post: Post)
    requires post.WatchLink? || post.FacebookVideo? || post.FacebookReel? || post.PageVideo?
    requires Spells(bare, segs, q, post)
    ensures MatchFacebook(bare, segs, q) == Some(CanonicalOf(bare, post, q))
  {
    if post.PageVideo? {
      PageVideoFound(bare, segs, q, post);
    } else if !post.WatchLink? {
      NotFbWatch(bare);
    }
  }

  lemma FacebookNamed(bare: string, segs: seq<string>, q: Query) returns (post: Post)
    requires (bare == "fb.watch" || OnFacebook(bare)) && MatchFacebook(bare, segs, q).Some?
    ensures post.WatchLink? || post.FacebookVideo? || post.FacebookReel? || post.PageVideo?
    ensures Spells(bare, segs, q, post)
  {
    var last := segs[|segs| - 1];
    if bare == "fb.watch" {
      post := WatchLink(last);
    } else if UnderWatch(segs) {
      post := FacebookVideo(Get(q, "v"));
    } else if EndsInReel(segs, last) {
      post := FacebookReel(last);
    } else {
      post := PageVideo(ToLower(segs[0]), last);
      VideosBehind(segs);
    }
  }

  // ----- The hosts

  function PlatformFor(post: Post): Platform {
    var site := Home(post).0;
    if site == FbWatch then Facebook else site.platform
  }

  predicate Hosts(p: Platform, bare: string) {
    match p
    case YouTube => bare == "youtu.be" || OnYouTube(bare)
    case Instagram => bare == "instagram.com" || bare == "m.instagram.com"
    case Twitter => OnTwitter(bare)
    case TikTok => bare == "tiktok.com" || bare == "m.tiktok.com"
    case Reddit => bare == "redd.it" || OnReddit(bare)
    case Bluesky => bare == "bsky.app"
    case Vimeo => bare == "vimeo.com" || bare == "player.vimeo.com"
    case Facebook => bare == "fb.watch" || OnFacebook(bare)
  }

  lemma YouTubeHosts(bare: string)
    requires Hosts(YouTube, bare)
    ensures PlatformOf(bare) == Some(YouTube)
  {
  }

  lemma InstagramHosts(bare: string)
    requires Hosts(Instagram, bare)
    ensures PlatformOf(bare) == Some(Instagram)
  {
  }

  lemma TwitterHosts(bare: string)
    requires Hosts(Twitter, bare)
    ensures PlatformOf(bare) == Some(Twitter)
  {
  }

  lemma TikTokHosts(bare: string)
    requires Hosts(TikTok, bare)
    ensures PlatformOf(bare) == Some(TikTok)
  {
  }

  lemma RedditHosts(bare: string)
    requires Hosts(Reddit, bare)
    ensures PlatformOf(bare) == Some(Reddit)
  {
  }

  lemma BlueskyHosts(bare: string)
    requires Hosts(Bluesky, bare)
    ensures PlatformOf(bare) == Some(Bluesky)
  {
  }

  lemma VimeoHosts(bare: string)
    requires Hosts(Vimeo, bare)
    ensures PlatformOf(bare) == Some(Vimeo)
  {
  }

  lemma FacebookHosts(bare: string)
    requires Hosts(Facebook, bare)
    ensures PlatformOf(bare) == Some(Facebook)
  {
  }

  lemma PlatformHosts(bare: string)
    ensures PlatformOf(bare).Some? ==> Hosts(PlatformOf(bare).value, bare)
  {
  }

  lemma HostsPlatform(bare: string, p: Platform)
    ensures Hosts(p, bare) <==> PlatformOf(bare) == Some(p)
  {
    PlatformHosts(bare);
    if Hosts(p, bare) {
      match p
      case YouTube => YouTubeHosts(bare);
      case Instagram => InstagramHosts(bare);
      case Twitter => TwitterHosts(bare);
      case TikTok => TikTokHosts(bare);
      case Reddit => RedditHosts(bare);
      case Bluesky => BlueskyHosts(bare);
      case Vimeo => VimeoHosts(bare);
      case Facebook => FacebookHosts(bare);
    }
  }

  lemma SpelledHosts(bare: string, segs: seq<string>, q: Query, post: Post)
    requires Spells(bare, segs, q, post)
    ensures Hosts(PlatformFor(post), bare)
  {
  }

  lemma SpelledOnHost(bare: string, segs: seq<string>, q: Query, post: Post)
    requires Spells(bare, segs, q, post)
    ensures PlatformOf(bare) == Some(PlatformFor(post))
  {
    SpelledHosts(bare, segs, q, post);
    HostsPlatform(bare, PlatformFor(post));
  }

  // ----- Dropping junk keeps the post

  lemma KeptGet(q: Query, drops: set<string>, k: string)
    requires !Junk(k, drops)
    ensures Get(Kept(q, drops), k) == Get(q, k)
  {
  }

  lemma SpellsKept(bare: string, segs: seq<string>, query: Query, post: Post)
    ensures Spells(bare, segs, Kept(query, Drops(PlatformFor(post))), post) <==> Spells(bare, segs, query, post)
  {
    VIsKept();
    HIsKept();
    match post
    case Video(_) => KeptGet(query, YOUTUBE_DROPS, "v");
    case FacebookVideo(_) => KeptGet(query, FACEBOOK_DROPS, "v");
    case VimeoVideo(_, _) => KeptGet(query, VIMEO_DROPS, "h");
    case _ =>
  }

  lemma EarlyFound(bare: string, segs: seq<string>, query: Query, post: Post)
    requires PlatformFor(post) in {YouTube, Instagram, Twitter}
    requires Spells(bare, segs, Kept(query, Drops(PlatformFor(post))), post)
    ensures MatchPlatform(PlatformFor(post), bare, segs, query)
            == Some(CanonicalOf(bare, post, Kept(query, Drops(PlatformFor(post)))))
  {
    var q := Kept(query, Drops(PlatformFor(post)));
    match post
    case Video(_) | VideoPage(_, _) => YouTubeFound(bare, segs, q, post);
    case InstagramPost(_, _) => InstagramFound(bare, segs, q, post);
    case Tweet(_) => TweetFound(bare, segs, q, post);
  }

  lemma MiddleFound(bare: string, segs: seq<string>, query: Query, post: Post)
    requires PlatformFor(post) in {TikTok, Reddit, Bluesky}
    requires Spells(bare, segs, Kept(query, Drops(PlatformFor(post))), post)
    ensures MatchPlatform(PlatformFor(post), bare, segs, query)
            == Some(CanonicalOf(bare, post, Kept(query, Drops(PlatformFor(post)))))
  {
    var q := Kept(query, Drops(PlatformFor(post)));
    match post
    case TikTokPost(_, _, _) => TikTokFound(bare, segs, q, post);
    case Thread(_) | Comment(_, _) => RedditFound(bare, segs, q, post);
    case BlueskyPost(_, _) => BlueskyFound(bare, segs, q, post);
  }

  lemma LateFound(bare: string, segs: seq<string>, query: Query, post: Post)
    requires PlatformFor(post) in {Vimeo, Facebook}
    requires Spells(bare, segs, Kept(query, Drops(PlatformFor(post))), post)
    ensures MatchPlatform(PlatformFor(post), bare, segs, query)
            == Some(CanonicalOf(bare, post, Kept(query, Drops(PlatformFor(post)))))
  {
    var q := Kept(query, Drops(PlatformFor(post)));
    if post.VimeoVideo? { VimeoFound(bare, segs, q, post); } else { FacebookFound(bare, segs, q, post); }
  }

  lemma ShapeFound(bare: string, segs: seq<string>, query: Query, post: Post)
    requires Spells(bare, segs, Kept(query, Drops(PlatformFor(post))), post)
    ensures MatchPlatform(PlatformFor(post), bare, segs, query)
            == Some(CanonicalOf(bare, post, Kept(query, Drops(PlatformFor(post)))))
  {
    match PlatformFor(post)
    case YouTube | Instagram | Twitter => EarlyFound(bare, segs, query, post);
    case TikTok | Reddit | Bluesky => MiddleFound(bare, segs, query, post);
    case Vimeo | Facebook => LateFound(bare, segs, query, post);
  }

  lemma ShapeNamed(p: Platform, bare: string, segs: seq<string>, query: Query) returns (post: Post)
    requires Hosts(p, bare) && MatchPlatform(p, bare, segs, query).Some?
    ensures PlatformFor(post) == p && Spells(bare, segs, Kept(query, Drops(p)), post)
  {
    var q := Kept(query, Drops(p));
    match p
    case YouTube => post := YouTubeNamed(bare, segs, q);
    case Instagram => post := InstagramNamed(bare, segs, q);
    case Twitter => post := TweetNamed(bare, segs, q);
    case TikTok => post := TikTokNamed(bare, segs, q);
    case Reddit => post := RedditNamed(bare, segs, q);
    case Bluesky => post := BlueskyNamed(bare, segs, q);
    case Vimeo => post := VimeoNamed(bare, segs, q);
    case Facebook => post := FacebookNamed(bare, segs, q);
  }

  /** A spelling of a post is matched, as that post, with what is left of its parameters. */
  lemma SpelledMatches(bare: string, segs: seq<string>, query: Query, post: Post)
    requires Spells(bare, segs, query, post)
    ensures Match(bare, segs, query) == Some(CanonicalOf(bare, post, Kept(query, Drops(PlatformFor(post)))))
  {
    SpelledOnHost(bare, segs, query, post);
    SpellsKept(bare, segs, query, post);
    ShapeFound(bare, segs, query, post);
  }

  /** Nothing else is matched. */
  lemma MatchNames(bare: string, segs: seq<string>, query: Query)
    ensures Match(bare, segs, query).Some? <==> exists post :: Spells(bare, segs, query, post)
  {
    if Match(bare, segs, query).Some? {
      var p := PlatformOf(bare).value;
      HostsPlatform(bare, p);
      var post := ShapeNamed(p, bare, segs, query);
      SpellsKept(bare, segs, query, post);
    } else {
      forall post | Spells(bare, segs, query, post) ensures false { SpelledMatches(bare, segs, query, post); }
    }
  }

  // ----- A canonical form names one post

  /** Two posts are named by their query, the others by their path. */
  predicate InQuery(post: Post, q: Query) {
    (post.Video? || post.FacebookVideo?) ==> Get(q, "v") == post.id
  }

  predicate Names(c: Canonical, post: Post) {
    (c.site, c.segs, c.slash) == Home(post) && InQuery(post, c.query)
  }

  /** A canonical address names one post. */
  lemma NamesOne(c: Canonical, post1: Post, post2: Post)
    requires Names(c, post1) && Names(c, post2)
    ensures post1 == post2
  {
    match c.site
    case FbWatch =>
    case Main(p) =>
      assert |Home(post1).1| == |Home(post2).1| && forall i :: 0 <= i < |Home(post1).1| ==> Home(post1).1[i] == Home(post2).1[i];
  }

  /** What is left of the parameters still names the post. */
  lemma SpelledNames(bare: string, segs: seq<string>, query: Query, post: Post)
    requires Spells(bare, segs, query, post)
    ensures Names(CanonicalOf(bare, post, Kept(query, Drops(PlatformFor(post)))), post)
  {
    SpellsKept(bare, segs, query, post);
  }

  // ----- Surviving parameters

  /** Every kept parameter survives, except the one that named the post and was folded into its path or repeated. */
  lemma QuerySurvives(p: Platform, bare: string, segs: seq<string>, query: Query, k: string)
    requires MatchPlatform(p, bare, segs, query).Some?
    requires k == "v" ==> !p.YouTube? && !p.Facebook?
    requires k == "h" ==> !p.Vimeo?
    ensures var kept, q := Kept(query, Drops(p)), MatchPlatform(p, bare, segs, query).value.query;
            (k in q <==> k in kept) && (k in q ==> q[k] == kept[k])
  {
    var q := Kept(query, Drops(p));
    match p
    case YouTube => YouTubeSurvives(bare, segs, q, k);
    case Instagram =>
    case Twitter =>
    case TikTok =>
    case Reddit =>
    case Bluesky =>
    case Vimeo => VimeoSurvives(bare, segs, q, k);
    case Facebook => FacebookSurvives(bare, segs, q, k);
  }

  predicate SameAt(q: Query, r: Query, k: string) {
    (k in q <==> k in r) && (k in q ==> q[k] == r[k])
  }

  lemma YouTubeSurvives(bare: string, segs: seq<string>, q: Query, k: string)
    requires MatchYouTube(bare, segs, q).Some? && k != "v"
    ensures SameAt(MatchYouTube(bare, segs, q).value.query, q, k)
  {
  }

  lemma VimeoSurvives(bare: string, segs: seq<string>, q: Query, k: string)
    requires MatchVimeo(bare, segs, q).Some? && k != "h"
    ensures SameAt(MatchVimeo(bare, segs, q).value.query, q, k)
  {
  }

  lemma FacebookSurvives(bare: string, segs: seq<string>, q: Query, k: string)
    requires MatchFacebook(bare, segs, q).Some? && k != "v"
    ensures SameAt(MatchFacebook(bare, segs, q).value.query, q, k)
  {
  }
}
