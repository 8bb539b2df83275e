/** One identity per post: every spelling of a post on a known platform maps to one address. */
module CanonicalUrl {
  import opened Strings
  import opened Models
  import opened Url

  // ----- Identifiers

  predicate IsIDChar(c: char) {
    IsAlnum(c) || c == '-' || c == '_'
  }

  predicate IsIDLike(s: string) {
    s != "" && forall i :: 0 <= i < |s| ==> IsIDChar(s[i])
  }

  predicate IsNumeric(s: string) {
    s != "" && forall i :: 0 <= i < |s| ==> IsDigit(s[i])
  }

  predicate IsHandleChar(c: char) {
    IsIDChar(c) || c == '.' || c == ':'
  }

  predicate IsHandleLike(s: string) {
    s != "" && forall i :: 0 <= i < |s| ==> IsHandleChar(s[i])
  }

  // ----- Query parameters

  function Get(q: Query, k: string): string {
    if k in q && q[k] != [] then q[k][0] else ""
  }

  const TRACKING: set<string> := {
    "fbclid", "gclid", "gclsrc", "dclid", "msclkid", "yclid", "twclid", "mc_cid",
    "mc_eid", "igshid", "igsh", "ref_src", "ref_url", "share_id", "_ga", "_gl"}

  const YOUTUBE_DROPS: set<string> := {"si", "feature", "t", "start", "end", "app", "ab_channel", "pp", "themeRefresh"}
  const INSTAGRAM_DROPS: set<string> := {"igsh", "igshid", "share_url", "story_type"}
  const TWITTER_DROPS: set<string> := {"s", "t", "cxt", "ref_component"}
  const TIKTOK_DROPS: set<string> := {
    "is_from_webapp", "sender_device", "sender_web_id", "web_id", "_r", "_t", "_d", "is_copy_url",
    "refer", "referer_url", "referer_video_id", "share_app_id", "share_link_id", "share_item_id",
    "tt_from", "u_code", "source", "social_sharing", "timestamp", "user_id", "enter_from", "enter_method",
    "checksum", "q"}
  const REDDIT_DROPS: set<string> := {
    "share_id", "ref", "ref_source", "ref_campaign", "correlation_id", "post_fullname", "rdt", "rdtk",
    "context", "chainedPosts", "$deep_link", "$original_url", "$3p", "_branch_match_id", "_branch_referrer",
    "share_source"}
  const VIMEO_DROPS: set<string> := {
    "share", "fl", "fe", "autoplay", "muted", "loop", "title", "byline", "portrait", "color", "badge",
    "app_id", "dnt", "transparent", "controls", "autopause", "referrer"}
  const FACEBOOK_DROPS: set<string> := {
    "mibextid", "rdid", "share_url", "extid", "idorvanity", "sfnsn", "refsrc", "_rdr", "hc_ref",
    "comment_tracking", "notif_id", "notif_t", "av", "eav", "paipv", "rc"}

  /** The parameter says who shared the address or how to play it, never which post it is. */
  predicate Junk(key: string, drops: set<string>) {
    key in drops || key in TRACKING || ToLower(key) in TRACKING || "utm_" <= ToLower(key) || "__" <= ToLower(key)
  }

  /** dropParams, as the map it leaves. */
  function Kept(q: Query, drops: set<string>): Query {
    map k | k in q && !Junk(k, drops) :: q[k]
  }

  /** dropParams: the keys are visited in any order and deleted in place. */
  method DropParams(query: Query, drops: set<string>) returns (q: Query)
    ensures q == Kept(query, drops)
  {
    q := query;
    var keys := query.Keys;
    while keys != {}
      invariant keys <= query.Keys
      invariant forall k :: k in q <==> k in query && (k in keys || !Junk(k, drops))
      invariant forall k :: k in q ==> q[k] == query[k]
      decreases keys
    {
      var k :| k in keys;
      if Junk(k, drops) {
        q := q - {k};
      }
      keys := keys - {k};
    }
  }

  // ----- Platforms

  datatype Platform = YouTube | Instagram | Twitter | TikTok | Reddit | Bluesky | Vimeo | Facebook

  function PlatformOf(bare: string): Option<Platform> {
    if bare == "youtube.com" || bare == "m.youtube.com" || bare == "youtu.be" then Some(YouTube)
    else if bare == "instagram.com" || bare == "m.instagram.com" then Some(Instagram)
    else if bare == "x.com" || bare == "mobile.x.com" || bare == "m.x.com"
         || bare == "twitter.com" || bare == "mobile.twitter.com" || bare == "m.twitter.com" then Some(Twitter)
    else if bare == "tiktok.com" || bare == "m.tiktok.com" then Some(TikTok)
    else if bare == "redd.it" || bare == "reddit.com" || bare == "old.reddit.com" || bare == "new.reddit.com"
         || bare == "m.reddit.com" || bare == "np.reddit.com" || bare == "i.reddit.com"
         || bare == "sh.reddit.com" || bare == "amp.reddit.com" then Some(Reddit)
    else if bare == "bsky.app" then Some(Bluesky)
    else if bare == "vimeo.com" || bare == "player.vimeo.com" then Some(Vimeo)
    else if bare == "facebook.com" || bare == "m.facebook.com" || bare == "web.facebook.com"
         || bare == "mbasic.facebook.com" || bare == "fb.watch" then Some(Facebook)
    else None
  }

  function Drops(p: Platform): set<string> {
    match p
    case YouTube => YOUTUBE_DROPS
    case Instagram => INSTAGRAM_DROPS
    case Twitter => TWITTER_DROPS
    case TikTok => TIKTOK_DROPS
    case Reddit => REDDIT_DROPS
    case Bluesky => {}
    case Vimeo => VIMEO_DROPS
    case Facebook => FACEBOOK_DROPS
  }

  // ----- Matchers: host, path segments and kept query to the parts of the canonical address

  /** Where a canonical address lives; Facebook has two hosts. */
  datatype Site = Main(platform: Platform) | FbWatch

  /** buildURL's arguments, the path as segments and an optional final slash. */
  datatype Canonical = Canonical(site: Site, segs: seq<string>, slash: bool, query: Query)

  /** The first segment that is one of these words, or |segs|. */
  function FirstOf(segs: seq<string>, words: set<string>): (i: nat)
    ensures i <= |segs|
    ensures i < |segs| ==> segs[i] in words
    ensures forall k :: 0 <= k < i ==> segs[k] !in words
  {
    if segs == [] || segs[0] in words then 0 else 1 + FirstOf(segs[1..], words)
  }

  function MatchYouTube(bare: string, segs: seq<string>, q: Query): Option<Canonical> {
    if bare == "youtu.be" then
      if |segs| != 1 || !IsIDLike(segs[0]) then None
      else Some(Canonical(Main(YouTube), ["watch"], false, q["v" := [segs[0]]]))
    else if |segs| == 0 then None
    else if segs[0] == "watch" then
      if |segs| == 1 && IsIDLike(Get(q, "v")) then Some(Canonical(Main(YouTube), ["watch"], false, q)) else None
    else if segs[0] == "shorts" || segs[0] == "live" then
      if |segs| == 2 && IsIDLike(segs[1]) then Some(Canonical(Main(YouTube), [segs[0], segs[1]], false, q)) else None
    else None
  }

  function MatchInstagram(segs: seq<string>, q: Query): Option<Canonical> {
    var i := FirstOf(segs, {"reels", "p", "reel", "tv"});
    if i + 2 != |segs| || !IsIDLike(segs[i + 1]) then None
    else Some(Canonical(Main(Instagram), [if segs[i] == "reels" then "reel" else segs[i], segs[i + 1]], true, q))
  }

  function MatchTwitter(segs: seq<string>, q: Query): Option<Canonical> {
    var i := FirstOf(segs, {"status", "statuses"});
    if i + 1 >= |segs| || !IsNumeric(segs[i + 1]) then None
    else
      var rest := segs[i + 2..];
      if |rest| == 0 || (|rest| == 2 && (rest[0] == "photo" || rest[0] == "video") && IsNumeric(rest[1])) then
        Some(Canonical(Main(Twitter), ["i", "web", "status", segs[i + 1]], false, q))
      else None
  }

  function MatchTikTok(segs: seq<string>, q: Query): Option<Canonical> {
    if |segs| >= 1 && segs[0] == "t" then None
    else if |segs| != 3 || segs[0] == "" || segs[0][0] != '@' then None
    else
      var user := ToLower(segs[0]);
      if |user| < 2 || !IsHandleLike(user[1..]) then None
      else if segs[1] != "video" && segs[1] != "photo" then None
      else if !IsNumeric(segs[2]) then None
      else Some(Canonical(Main(TikTok), [user, segs[1], segs[2]], false, q))
  }

  function MatchReddit(bare: string, segs: seq<string>, q: Query): Option<Canonical> {
    if bare == "redd.it" then
      if |segs| != 1 || !IsIDLike(segs[0]) then None
      else Some(Canonical(Main(Reddit), ["comments", segs[0]], true, q))
    else if |segs| >= 4 && segs[0] == "r" && segs[2] == "comments" then RedditPost(segs[3], segs[4..], q)
    else if |segs| >= 2 && segs[0] == "comments" then RedditPost(segs[1], segs[2..], q)
    else None
  }

  function RedditPost(postID: string, rest: seq<string>, q: Query): Option<Canonical> {
    if !IsIDLike(postID) then None
    else if |rest| >= 2 && IsIDLike(rest[1]) then
      Some(Canonical(Main(Reddit), ["comments", postID, "comment", rest[1]], true, q))
    else if |rest| > 1 then None
    else Some(Canonical(Main(Reddit), ["comments", postID], true, q))
  }

  /** Handles are lower-cased, DIDs are not. */
  function Actor(name: string): string {
    if "did:" <= ToLower(name) then name else ToLower(name)
  }

  function MatchBluesky(segs: seq<string>, q: Query): Option<Canonical> {
    if |segs| != 4 || segs[0] != "profile" || segs[2] != "post" then None
    else if !IsHandleLike(Actor(segs[1])) || !IsIDLike(segs[3]) then None
    else Some(Canonical(Main(Bluesky), ["profile", Actor(segs[1]), "post", segs[3]], false, q))
  }

  /** The video ID and the hash its path carries, if any. */
  function VimeoPath(bare: string, segs: seq<string>): Option<(string, string)> {
    if bare == "player.vimeo.com" then
      if |segs| == 2 && segs[0] == "video" && IsNumeric(segs[1]) then Some((segs[1], "")) else None
    else if |segs| == 1 && IsNumeric(segs[0]) then Some((segs[0], ""))
    else if |segs| == 2 && IsNumeric(segs[0]) && IsIDLike(segs[1]) then Some((segs[0], segs[1]))
    else if |segs| == 3 && segs[0] == "channels" && IsNumeric(segs[2]) then Some((segs[2], ""))
    else if |segs| == 4 && segs[0] == "groups" && segs[2] == "videos" && IsNumeric(segs[3]) then Some((segs[3], ""))
    else None
  }

  function MatchVimeo(bare: string, segs: seq<string>, q: Query): Option<Canonical> {
    match VimeoPath(bare, segs)
    case None => None
    case Some((id, pathHash)) =>
      var h := Get(q, "h");
      var hash := if h != "" && pathHash == "" && IsIDLike(h) then h else pathHash;
      Some(Canonical(Main(Vimeo), if hash == "" then [id] else [id, hash], false, if h == "" then q else q - {"h"}))
  }

  predicate IsReel(segs: seq<string>) {
    |segs| >= 2 && segs[|segs| - 2] == "reel" && IsNumeric(segs[|segs| - 1])
  }

  /** /{page}/videos/{id} or /{page}/videos/{slug}/{id}: the position of "videos" past the page. */
  predicate IsPageVideo(segs: seq<string>) {
    |segs| >= 2 &&
    var i := 1 + FirstOf(segs[1..], {"videos"});
    i < |segs| && IsHandleLike(ToLower(segs[0])) && |segs| >= i + 2 && IsNumeric(segs[|segs| - 1])
  }

  predicate IsWatchWord(s: string) {
    s == "watch" || s == "video.php"
  }

  function MatchFacebook(bare: string, segs: seq<string>, q: Query): Option<Canonical> {
    if bare == "fb.watch" then
      if |segs| != 1 || !IsIDLike(segs[0]) then None
      else Some(Canonical(FbWatch, [segs[0]], true, q))
    else if |segs| == 0 then None
    else if IsWatchWord(segs[0]) then
      var v := Get(q, "v");
      if IsNumeric(v) then Some(Canonical(Main(Facebook), ["watch"], true, q["v" := [v]])) else None
    else if IsReel(segs) then Some(Canonical(Main(Facebook), ["reel", segs[|segs| - 1]], true, q))
    else if IsPageVideo(segs) then
      Some(Canonical(Main(Facebook), [ToLower(segs[0]), "videos", segs[|segs| - 1]], true, q))
    else None
  }

  function MatchPlatform(p: Platform, bare: string, segs: seq<string>, query: Query): Option<Canonical> {
    var q := Kept(query, Drops(p));
    match p
    case YouTube => MatchYouTube(bare, segs, q)
    case Instagram => MatchInstagram(segs, q)
    case Twitter => MatchTwitter(segs, q)
    case TikTok => MatchTikTok(segs, q)
    case Reddit => MatchReddit(bare, segs, q)
    case Bluesky => MatchBluesky(segs, q)
    case Vimeo => MatchVimeo(bare, segs, q)
    case Facebook => MatchFacebook(bare, segs, q)
  }

  /** The post an address names, in canonical parts; None for everything the code leaves alone. */
  function Match(bare: string, segs: seq<string>, query: Query): Option<Canonical> {
    match PlatformOf(bare)
    case None => None
    case Some(p) => MatchPlatform(p, bare, segs, query)
  }

  // ----- Addresses

  function BareHost(hostname: string): string {
    var host := ToLower(hostname);
    if "www." <= host then host[4..] else host
  }

  function SiteBare(site: Site): string {
    match site
    case Main(YouTube) => "youtube.com"
    case Main(Instagram) => "instagram.com"
    case Main(Twitter) => "x.com"
    case Main(TikTok) => "tiktok.com"
    case Main(Reddit) => "reddit.com"
    case Main(Bluesky) => "bsky.app"
    case Main(Vimeo) => "vimeo.com"
    case Main(Facebook) => "facebook.com"
    case FbWatch => "fb.watch"
  }

  /** X, Bluesky, Vimeo and fb.watch live on their bare host. */
  predicate OnWww(site: Site) {
    site.Main? && (site.platform.YouTube? || site.platform.Instagram? || site.platform.TikTok?
                   || site.platform.Reddit? || site.platform.Facebook?)
  }

  function SiteHost(site: Site): string {
    (if OnWww(site) then "www." else "") + SiteBare(site)
  }

  function PathOf(segs: seq<string>): string {
    if segs == [] then "" else PathOf(segs[..|segs| - 1]) + "/" + segs[|segs| - 1]
  }

  function Show(c: Canonical): string {
    Print(SiteHost(c.site), PathOf(c.segs) + (if c.slash then "/" else ""), c.query)
  }

  predicate DefaultPort(port: string) {
    port == "" || port == "80" || port == "443"
  }

  function Recognize(rawURL: string): Option<Canonical> {
    match ParseHTTP(TrimSpace(rawURL))
    case None => None
    case Some(u) =>
      if u.hostname == "" || !DefaultPort(u.port) then None
      else Match(BareHost(u.hostname), Segments(u.path), u.query)
  }

  /** CanonicalizeArchiveURL: an address that names no known post is its own identity. */
  function CanonicalizeArchiveURL(rawURL: string): string {
    match Recognize(rawURL)
    case None => rawURL
    case Some(c) => Show(c)
  }
}
