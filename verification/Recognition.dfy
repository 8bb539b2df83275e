/** Whole addresses: which texts name a post, and the one text each post is known by. */
module Recognition {
  import opened Strings
  import opened Models
  import opened Url
  import opened CanonicalUrl
  import opened CanonicalIdentity
  import opened CanonicalPosts
  import Addresses

  // ----- Hosts

  /** In any case, with or without "www.". */
  predicate HostSpells(hostname: string, bare: string) {
    ToLower(hostname) == bare || ToLower(hostname) == "www." + bare
  }

  predicate NoWww(bare: string) {
    |bare| > 2 && (bare[1] != 'w' || bare[2] != 'w')
  }

  lemma EarlyBare(p: Platform, bare: string)
    requires Hosts(p, bare) && (p.YouTube? || p.Instagram? || p.Twitter? || p.TikTok?)
    ensures NoWww(bare)
  {
  }

  lemma RedditBare(bare: string)
    requires Hosts(Reddit, bare)
    ensures NoWww(bare)
  {
  }

  lemma LateBare(p: Platform, bare: string)
    requires Hosts(p, bare) && (p.Bluesky? || p.Vimeo? || p.Facebook?)
    ensures NoWww(bare)
  {
  }

  lemma KnownBare(p: Platform, bare: string)
    requires Hosts(p, bare)
    ensures NoWww(bare)
  {
    match p
    case Reddit => RedditBare(bare);
    case Bluesky | Vimeo | Facebook => LateBare(p, bare);
    case _ => EarlyBare(p, bare);
  }

  lemma BareSpells(hostname: string)
    ensures HostSpells(hostname, BareHost(hostname))
  {
    var host := ToLower(hostname);
    if "www." <= host { assert host == "www." + host[4..]; }
  }

  lemma SpelledBare(hostname: string, bare: string)
    requires HostSpells(hostname, bare) && NoWww(bare)
    ensures BareHost(hostname) == bare
  {
    var host := ToLower(hostname);
    if host == "www." + bare {
      assert host[4..] == bare;
    } else {
      assert "www."[1] == 'w' && "www."[2] == 'w';
    }
  }

  // ----- Which texts name a post

  predicate UsualPort(port: string) {
    port == "" || port == "80" || port == "443"
  }

  /** A web address on a host of the post, in one of its shapes. */
  ghost predicate NamesPost(url: string, post: Post) {
    match ParseHTTP(TrimSpace(url))
    case None => false
    case Some(u) =>
      UsualPort(u.port) && exists bare :: HostSpells(u.hostname, bare) && Spells(bare, Segments(u.path), u.query, post)
  }

  /** The parameters of the address that its identity carries. */
  function Carried(url: string, post: Post): Query
    requires ParseHTTP(TrimSpace(url)).Some?
  {
    var u := ParseHTTP(TrimSpace(url)).value;
    Left(BareHost(u.hostname), post, Kept(u.query, Drops(PlatformFor(post))))
  }

  lemma NamedShape(url: string, post: Post)
    requires NamesPost(url, post)
    ensures var u := ParseHTTP(TrimSpace(url)).value;
            u.hostname != "" && Spells(BareHost(u.hostname), Segments(u.path), u.query, post)
  {
    var u := ParseHTTP(TrimSpace(url)).value;
    var bare :| HostSpells(u.hostname, bare) && Spells(bare, Segments(u.path), u.query, post);
    SpelledHosts(bare, Segments(u.path), u.query, post);
    KnownBare(PlatformFor(post), bare);
    SpelledBare(u.hostname, bare);
  }

  lemma NamedIsRecognized(url: string, post: Post)
    requires NamesPost(url, post)
    ensures var (site, segs, slash) := Home(post);
            Recognize(url) == Some(Canonical(site, segs, slash, Carried(url, post))) && Names(Recognize(url).value, post)
  {
    var u := ParseHTTP(TrimSpace(url)).value;
    NamedShape(url, post);
    SpelledMatches(BareHost(u.hostname), Segments(u.path), u.query, post);
    SpelledNames(BareHost(u.hostname), Segments(u.path), u.query, post);
  }

  lemma RecognizedIsNamed(url: string) returns (post: Post)
    requires Recognize(url).Some?
    ensures NamesPost(url, post)
  {
    var u := ParseHTTP(TrimSpace(url)).value;
    var bare, segs := BareHost(u.hostname), Segments(u.path);
    MatchNames(bare, segs, u.query);
    BareSpells(u.hostname);
    post :| Spells(bare, segs, u.query, post);
  }

  /** An address is recognized exactly when it names a post, and it names at most one. */
  lemma RecognizedExactly(url: string)
    ensures Recognize(url).Some? <==> exists post :: NamesPost(url, post)
    ensures forall post1, post2 :: NamesPost(url, post1) && NamesPost(url, post2) ==> post1 == post2
  {
    if Recognize(url).Some? { var post := RecognizedIsNamed(url); }
    forall post | NamesPost(url, post) ensures Recognize(url).Some? && Names(Recognize(url).value, post) {
      NamedIsRecognized(url, post);
    }
    forall post1, post2 | NamesPost(url, post1) && NamesPost(url, post2) ensures post1 == post2 {
      NamesOne(Recognize(url).value, post1, post2);
    }
  }

  // ----- The one text of a post

  function HomeHost(post: Post): string {
    match post
    case Video(_) | VideoPage(_, _) => "www.youtube.com"
    case InstagramPost(_, _) => "www.instagram.com"
    case Tweet(_) => "x.com"
    case TikTokPost(_, _, _) => "www.tiktok.com"
    case Thread(_) | Comment(_, _) => "www.reddit.com"
    case BlueskyPost(_, _) => "bsky.app"
    case VimeoVideo(_, _) => "vimeo.com"
    case WatchLink(_) => "fb.watch"
    case FacebookVideo(_) | FacebookReel(_) | PageVideo(_, _) => "www.facebook.com"
  }

  function HomePath(post: Post): string {
    match post
    case Video(_) => "/watch"
    case VideoPage(kind, id) => "/" + kind + "/" + id
    case InstagramPost(kind, code) => "/" + kind + "/" + code + "/"
    case Tweet(id) => "/i/web/status/" + id
    case TikTokPost(user, kind, id) => "/" + user + "/" + kind + "/" + id
    case Thread(id) => "/comments/" + id + "/"
    case Comment(id, comment) => "/comments/" + id + "/comment/" + comment + "/"
    case BlueskyPost(actor, id) => "/profile/" + actor + "/post/" + id
    case VimeoVideo(id, hash) => "/" + id + (if hash == "" then "" else "/" + hash)
    case WatchLink(token) => "/" + token + "/"
    case FacebookVideo(_) => "/watch/"
    case FacebookReel(id) => "/reel/" + id + "/"
    case PageVideo(page, id) => "/" + page + "/videos/" + id + "/"
  }

  /** The identity of a post, apart from parameters. */
  function HomeText(post: Post): string {
    "https://" + HomeHost(post) + HomePath(post)
  }

  lemma PathOfOne(a: string)
    ensures PathOf([a]) == "/" + a
  {
    assert [a][..0] == [];
    assert "" + "/" + a == "/" + a;
  }

  lemma PathOfTwo(a: string, b: string)
    ensures PathOf([a, b]) == "/" + a + "/" + b
  {
    assert [a, b][..1] == [a];
    PathOfOne(a);
  }

  lemma PathOfThree(a: string, b: string, c: string)
    ensures PathOf([a, b, c]) == "/" + a + "/" + b + "/" + c
  {
    assert [a, b, c][..2] == [a, b];
    PathOfTwo(a, b);
  }

  lemma PathOfFour(a: string, b: string, c: string, d: string)
    ensures PathOf([a, b, c, d]) == "/" + a + "/" + b + "/" + c + "/" + d
  {
    assert [a, b, c, d][..3] == [a, b, c];
    PathOfThree(a, b, c);
  }

  lemma EarlyHost(p: Platform)
    requires p.YouTube? || p.Instagram? || p.Twitter? || p.TikTok?
    ensures SiteHost(Main(p)) == match p case YouTube => "www.youtube.com" case Instagram => "www.instagram.com"
                                         case Twitter => "x.com" case _ => "www.tiktok.com"
  {
  }

  lemma MiddleHost(p: Platform)
    requires p.Reddit? || p.Bluesky? || p.Vimeo?
    ensures SiteHost(Main(p)) == match p case Reddit => "www.reddit.com" case Bluesky => "bsky.app" case _ => "vimeo.com"
  {
  }

  lemma FacebookHost()
    ensures SiteHost(Main(Facebook)) == "www.facebook.com" && SiteHost(FbWatch) == "fb.watch"
  {
  }

  lemma HomeHostText(post: Post)
    ensures SiteHost(Home(post).0) == HomeHost(post)
  {
    var site := Home(post).0;
    if site.FbWatch? || site.platform.Facebook? {
      FacebookHost();
    } else if site.platform.Reddit? || site.platform.Bluesky? || site.platform.Vimeo? {
      MiddleHost(site.platform);
    } else {
      EarlyHost(site.platform);
    }
  }

  function Place(post: Post): string {
    var (_, segs, slash) := Home(post);
    PathOf(segs) + (if slash then "/" else "")
  }

  lemma YouTubePlace(post: Post)
    requires post.Video? || post.VideoPage?
    ensures Place(post) == HomePath(post)
  {
    match post
    case Video(_) => PathOfOne("watch");
    case VideoPage(kind, id) => PathOfTwo(kind, id);
  }

  lemma InstagramPlace(post: Post)
    requires post.InstagramPost?
    ensures Place(post) == HomePath(post)
  {
    PathOfTwo(post.kind, post.code);
  }

  lemma TweetPlace(post: Post)
    requires post.Tweet?
    ensures Place(post) == HomePath(post)
  {
    PathOfFour("i", "web", "status", post.id);
  }

  lemma TikTokPlace(post: Post)
    requires post.TikTokPost?
    ensures Place(post) == HomePath(post)
  {
    PathOfThree(post.user, post.kind, post.id);
  }

  lemma ThreadPlace(post: Post)
    requires post.Thread?
    ensures Place(post) == HomePath(post)
  {
    PathOfTwo("comments", post.id);
  }

  lemma CommentPlace(post: Post)
    requires post.Comment?
    ensures Place(post) == HomePath(post)
  {
    PathOfFour("comments", post.id, "comment", post.comment);
    assert "/" + "comments" + "/" == "/comments/" && "/" + "comment" + "/" == "/comment/";
  }

  lemma BlueskyPlace(post: Post)
    requires post.BlueskyPost?
    ensures Place(post) == HomePath(post)
  {
    PathOfFour("profile", post.actor, "post", post.id);
    assert "/" + "profile" + "/" == "/profile/" && "/" + "post" + "/" == "/post/";
  }

  lemma VimeoPlace(post: Post)
    requires post.VimeoVideo?
    ensures Place(post) == HomePath(post)
  {
    if post.hash == "" { PathOfOne(post.id); } else { PathOfTwo(post.id, post.hash); }
  }

  lemma WatchPlace(post: Post)
    requires post.WatchLink? || post.FacebookVideo?
    ensures Place(post) == HomePath(post)
  {
    PathOfOne(if post.WatchLink? then post.token else "watch");
  }

  lemma ReelPlace(post: Post)
    requires post.FacebookReel?
    ensures Place(post) == HomePath(post)
  {
    PathOfTwo("reel", post.id);
  }

  lemma PageVideoPlace(post: Post)
    requires post.PageVideo?
    ensures Place(post) == HomePath(post)
  {
    PathOfThree(post.page, "videos", post.id);
  }

  lemma PlaceText(post: Post)
    ensures Place(post) == HomePath(post)
  {
    match post
    case Video(_) | VideoPage(_, _) => YouTubePlace(post);
    case InstagramPost(_, _) => InstagramPlace(post);
    case Tweet(_) => TweetPlace(post);
    case TikTokPost(_, _, _) => TikTokPlace(post);
    case Thread(_) => ThreadPlace(post);
    case Comment(_, _) => CommentPlace(post);
    case BlueskyPost(_, _) => BlueskyPlace(post);
    case VimeoVideo(_, _) => VimeoPlace(post);
    case WatchLink(_) | FacebookVideo(_) => WatchPlace(post);
    case FacebookReel(_) => ReelPlace(post);
    case PageVideo(_, _) => PageVideoPlace(post);
  }

  /** The identity of an address: the text of the post it names with the parameters it carries, or itself. */
  lemma IdentityText(url: string)
    ensures forall post :: NamesPost(url, post) ==>
              CanonicalizeArchiveURL(url) == HomeText(post) + QuerySuffix(Carried(url, post))
    ensures (forall post :: !NamesPost(url, post)) ==> CanonicalizeArchiveURL(url) == url
  {
    RecognizedExactly(url);
    forall post | NamesPost(url, post)
      ensures CanonicalizeArchiveURL(url) == HomeText(post) + QuerySuffix(Carried(url, post))
    {
      NamedIsRecognized(url, post);
      HomeHostText(post);
      PlaceText(post);
    }
  }

  /** Two addresses that name posts share an identity exactly when it is one post with the same parameters. */
  lemma IdentityIsPost(url1: string, post1: Post, url2: string, post2: Post)
    requires NamesPost(url1, post1) && NamesPost(url2, post2)
    ensures CanonicalizeArchiveURL(url1) == CanonicalizeArchiveURL(url2)
            <==> post1 == post2 && Carried(url1, post1) == Carried(url2, post2)
  {
    NamedIsRecognized(url1, post1);
    NamedIsRecognized(url2, post2);
    var c, d := Recognize(url1).value, Recognize(url2).value;
    RecognizedWellFormed(url1);
    RecognizedWellFormed(url2);
    ShowInjective(c, d);
    if c == d { NamesOne(c, post1, post2); }
  }

  // ----- Spellings as text

  predicate UsualPortText(port: string) {
    port == "" || port == ":" || port == ":80" || port == ":443"
  }

  lemma UsualPorts(port: string)
    requires UsualPortText(port)
    ensures Addresses.PortText(port) && UsualPort(if port == "" then "" else port[1..])
  {
  }

  /**
   * Every spelling of a post has its identity: http or https and the host in any case, with or without "www.",
   * credentials, a usual port, an escaped path, any fragment, white space around. Only the parameters differ.
   */
  lemma SpelledIdentity(left: string, scheme: string, user: string, host: string, port: string, raw: string, path: string,
      suffix: string, fragment: string, right: string, bare: string, post: Post)
    requires Addresses.Blank(left) && Addresses.Blank(right)
    requires ToLower(scheme) == "http" || ToLower(scheme) == "https"
    requires Addresses.UserText(user) && Addresses.NameText(host) && HostSpells(host, bare) && UsualPortText(port)
    requires Addresses.PathSpells(raw, path) && SuffixText(suffix) && Addresses.FragmentText(fragment)
    requires Spells(bare, Segments(path), SuffixQuery(suffix), post)
    ensures CanonicalizeArchiveURL(left + Addresses.Spelled(scheme, user, host, port, raw, suffix, fragment) + right)
            == HomeText(post) + QuerySuffix(Left(bare, post, Kept(SuffixQuery(suffix), Drops(PlatformFor(post)))))
  {
    var url := left + Addresses.Spelled(scheme, user, host, port, raw, suffix, fragment) + right;
    UsualPorts(port);
    Addresses.SpellingParses(left, scheme, user, host, port, raw, path, suffix, fragment, right);
    SpelledHosts(bare, Segments(path), SuffixQuery(suffix), post);
    KnownBare(PlatformFor(post), bare);
    SpelledBare(host, bare);
    assert NamesPost(url, post);
    IdentityText(url);
  }

  // ----- One shape in full: the post by its author, on any host of X

  predicate IsLightbox(more: seq<string>) {
    more == [] || (|more| == 2 && (more[0] == "photo" || more[0] == "video") && IsNumeric(more[1]))
  }

  lemma AuthorSpells(bare: string, user: string, word: string, id: string, more: seq<string>, q: Query)
    requires OnTwitter(bare) && !IsStatusWord(user) && IsStatusWord(word) && IsNumeric(id) && IsLightbox(more)
    ensures Spells(bare, [user, word, id] + more, q, Tweet(id))
  {
    var segs := [user, word, id];
    assert StatusPath(segs, id);
    if more != [] {
      assert (segs + more)[..3] == segs;
    } else {
      assert segs + more == segs;
    }
  }

  lemma AddressNames(bare: string, segs: seq<string>, suffix: string, post: Post)
    requires HostText(bare) && segs != [] && AllNames(segs) && SuffixText(suffix)
    requires Spells(bare, segs, SuffixQuery(suffix), post)
    ensures var url := Address(bare, PathOf(segs), suffix);
            NamesPost(url, post) && Carried(url, post) == Left(bare, post, Kept(SuffixQuery(suffix), Drops(PlatformFor(post))))
  {
    PathReads(segs);
    AddressParses(bare, PathOf(segs), suffix);
    HostIsLower(bare);
    SpelledHosts(bare, segs, SuffixQuery(suffix), post);
    KnownBare(PlatformFor(post), bare);
    SpelledBare(bare, bare);
  }

  /** A plain address of a post, with any query. */
  lemma AddressIdentity(bare: string, segs: seq<string>, suffix: string, post: Post)
    requires HostText(bare) && segs != [] && AllNames(segs) && SuffixText(suffix)
    requires Spells(bare, segs, SuffixQuery(suffix), post)
    ensures CanonicalizeArchiveURL(Address(bare, PathOf(segs), suffix))
            == HomeText(post) + QuerySuffix(Left(bare, post, Kept(SuffixQuery(suffix), Drops(PlatformFor(post)))))
  {
    AddressNames(bare, segs, suffix, post);
    IdentityText(Address(bare, PathOf(segs), suffix));
  }

  lemma TweetStart()
    ensures "https://" + "x.com" + "/i/web/status/" == "https://x.com/i/web/status/"
  {
  }

  lemma Reassociate(a: string, b: string, c: string)
    ensures a + (b + c) == a + b + c
  {
  }

  lemma TweetHome(id: string, suffix: string)
    ensures HomeText(Tweet(id)) + suffix == "https://x.com/i/web/status/" + id + suffix
  {
    TweetStart();
    Reassociate("https://" + "x.com", "/i/web/status/", id);
  }

  lemma AuthorNames(user: string, word: string, id: string, more: seq<string>)
    requires NameText(user) && IsStatusWord(word) && IsNumeric(id) && IsLightbox(more)
    ensures AllNames([user, word, id] + more)
  {
    NumericIsName(id);
    if more != [] { NumericIsName(more[1]); }
  }

  lemma TweetIdentity(bare: string, segs: seq<string>, id: string, suffix: string)
    requires HostText(bare) && segs != [] && AllNames(segs) && SuffixText(suffix)
    requires Spells(bare, segs, SuffixQuery(suffix), Tweet(id))
    ensures CanonicalizeArchiveURL(Address(bare, PathOf(segs), suffix))
            == "https://x.com/i/web/status/" + id + QuerySuffix(Kept(SuffixQuery(suffix), TWITTER_DROPS))
  {
    AddressIdentity(bare, segs, suffix, Tweet(id));
    TweetHome(id, QuerySuffix(Kept(SuffixQuery(suffix), TWITTER_DROPS)));
  }

  /** Whoever the author is, and with or without a picture opened, the identity is the number and what is kept of the query. */
  lemma AuthorIsIgnored(bare: string, user: string, word: string, id: string, more: seq<string>, suffix: string)
    requires OnTwitter(bare) && HostText(bare) && SuffixText(suffix)
    requires NameText(user) && !IsStatusWord(user) && IsStatusWord(word) && IsNumeric(id) && IsLightbox(more)
    ensures CanonicalizeArchiveURL(Address(bare, PathOf([user, word, id] + more), suffix))
            == "https://x.com/i/web/status/" + id + QuerySuffix(Kept(SuffixQuery(suffix), TWITTER_DROPS))
  {
    AuthorNames(user, word, id, more);
    AuthorSpells(bare, user, word, id, more, SuffixQuery(suffix));
    TweetIdentity(bare, [user, word, id] + more, id, suffix);
  }
}
