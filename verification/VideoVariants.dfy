/** Collapsing the resolutions a post lists for one video into the best of them. */
module VideoVariants {
  import opened Strings
  import opened Models
  import Url

  // ----- Resolution markers

  /** Most specific first: 3840x2160 as a whole segment, res_1080p anywhere, 1080p between word boundaries. */
  datatype Pattern = Dimensions | Marked | Bounded

  const PATTERNS := [Dimensions, Marked, Bounded]

  /** How many digits follow from i on. */
  function Digits(s: string, i: nat): (n: nat)
    ensures i <= |s| ==> i + n <= |s|
    decreases |s| - i
  {
    if i < |s| && Url.IsDigit(s[i]) then 1 + Digits(s, i + 1) else 0
  }

  /** strconv.ParseInt of the n digits from i on; at most five of them, so it cannot overflow. */
  function Decimal(s: string, i: nat, n: nat): nat
    requires i + n <= |s| && n <= Digits(s, i)
  {
    if n == 0 then 0
    else
      DigitsHold(s, i, n - 1);
      10 * Decimal(s, i, n - 1) + (s[i + n - 1] as int - '0' as int)
  }

  lemma {:induction false} DigitsHold(s: string, i: nat, k: nat)
    requires i <= |s| && k < Digits(s, i)
    ensures i + k < |s| && Url.IsDigit(s[i + k])
    decreases k
  {
    if k > 0 { DigitsHold(s, i + 1, k - 1); }
  }

  predicate IsLetterP(s: string, i: nat) {
    i < |s| && (s[i] == 'p' || s[i] == 'P')
  }

  /** A run of between low and high digits from i on. */
  predicate RunAt(s: string, i: nat, low: nat, high: nat) {
    i <= |s| && low <= Digits(s, i) <= high
  }

  predicate DimensionsWhole(s: string) {
    RunAt(s, 0, 2, 5) && var n := Digits(s, 0);
    n < |s| && s[n] == 'x' && RunAt(s, n + 1, 2, 5) && n + 1 + Digits(s, n + 1) == |s|
  }

  /** Where the digits after "res" at i start: behind an underscore or hyphen, if there is one. */
  function AfterRes(s: string, i: nat): nat {
    if i + 3 < |s| && (s[i + 3] == '_' || s[i + 3] == '-') then i + 4 else i + 3
  }

  predicate MarkedAt(s: string, i: nat) {
    && i + 3 <= |s| && LowerChar(s[i]) == 'r' && LowerChar(s[i + 1]) == 'e' && LowerChar(s[i + 2]) == 's'
    && RunAt(s, AfterRes(s, i), 2, 5) && IsLetterP(s, AfterRes(s, i) + Digits(s, AfterRes(s, i)))
  }

  predicate IsBoundary(s: string, i: int) {
    !(0 <= i < |s|) || !Url.IsAlnum(s[i])
  }

  predicate BoundedAt(s: string, i: nat) {
    && RunAt(s, i, 3, 4) && IsBoundary(s, i - 1)
    && IsLetterP(s, i + Digits(s, i)) && IsBoundary(s, i + Digits(s, i) + 1)
  }

  predicate MatchesAt(pattern: Pattern, s: string, i: nat) {
    match pattern
    case Dimensions => i == 0 && DimensionsWhole(s)
    case Marked => MarkedAt(s, i)
    case Bounded => BoundedAt(s, i)
  }

  /** Pixels for dimensions, lines for the other markers. */
  function ScoreAt(pattern: Pattern, s: string, i: nat): nat
    requires MatchesAt(pattern, s, i)
  {
    match pattern
    case Dimensions =>
      var n := Digits(s, 0);
      Decimal(s, 0, n) * Decimal(s, n + 1, Digits(s, n + 1))
    case Marked => var j := AfterRes(s, i); Decimal(s, j, Digits(s, j))
    case Bounded => Decimal(s, i, Digits(s, i))
  }

  /** FindStringSubmatch: the leftmost match from i on. */
  function Leftmost(pattern: Pattern, s: string, i: nat): (found: Option<nat>)
    ensures found.Some? ==> i <= found.value && MatchesAt(pattern, s, found.value)
    ensures found.Some? ==> forall k :: i <= k < found.value ==> !MatchesAt(pattern, s, k)
    ensures found.None? ==> forall k :: i <= k ==> !MatchesAt(pattern, s, k)
    decreases |s| + 1 - i
  {
    if i > |s| then None
    else if MatchesAt(pattern, s, i) then Some(i)
    else Leftmost(pattern, s, i + 1)
  }

  function Score(pattern: Pattern, s: string): Option<nat> {
    match Leftmost(pattern, s, 0)
    case None => None
    case Some(i) => Some(ScoreAt(pattern, s, i))
  }

  // ----- The score is the number written

  function DigitChar(d: nat): char
    requires d < 10
  {
    "0123456789"[d]
  }

  /** n in decimal. */
  function Shown(n: nat): string {
    (if n < 10 then "" else Shown(n / 10)) + [DigitChar(n % 10)]
  }

  lemma DigitValue(d: nat)
    requires d < 10
    ensures Url.IsDigit(DigitChar(d)) && DigitChar(d) as int - '0' as int == d
  {
  }

  lemma {:induction false} ShownDigits(n: nat)
    ensures Shown(n) != "" && forall i :: 0 <= i < |Shown(n)| ==> Url.IsDigit(Shown(n)[i])
    decreases n
  {
    DigitValue(n % 10);
    if n >= 10 { ShownDigits(n / 10); }
  }

  lemma {:induction false} RunOfDigits(s: string, i: nat, n: nat)
    requires i + n <= |s| && forall k :: i <= k < i + n ==> Url.IsDigit(s[k])
    requires i + n < |s| ==> !Url.IsDigit(s[i + n])
    ensures Digits(s, i) == n
    decreases n
  {
    if n > 0 { RunOfDigits(s, i + 1, n - 1); }
  }

  lemma {:induction false} DecimalShown(s: string, i: nat, n: nat)
    requires i + |Shown(n)| <= |s| && s[i..i + |Shown(n)|] == Shown(n) && |Shown(n)| <= Digits(s, i)
    ensures Decimal(s, i, |Shown(n)|) == n
    decreases n
  {
    var k := |Shown(n)| - 1;
    DigitValue(n % 10);
    assert s[i + k] == s[i..i + k + 1][k];
    if n >= 10 {
      assert s[i..i + k] == s[i..i + k + 1][..k];
      DecimalShown(s, i, n / 10);
    }
  }

  /** A number written at i, with no digit behind it, is read as itself. */
  lemma NumberRead(s: string, i: nat, n: nat)
    requires var m := |Shown(n)|; i + m <= |s| && s[i..i + m] == Shown(n) && (i + m < |s| ==> !Url.IsDigit(s[i + m]))
    ensures Digits(s, i) == |Shown(n)| && Decimal(s, i, |Shown(n)|) == n
  {
    ShownDigits(n);
    var m := |Shown(n)|;
    forall k | i <= k < i + m ensures Url.IsDigit(s[k]) {
      assert s[k] == s[i..i + m][k - i];
    }
    RunOfDigits(s, i, m);
    DecimalShown(s, i, n);
  }

  lemma SidesOfX(a: string, b: string)
    ensures var s, n := a + ['x'] + b, |a|;
            |s| == n + 1 + |b| && s[n] == 'x' && s[0..n] == a && s[n + 1..n + 1 + |b|] == b
  {
  }

  lemma DimensionsRead(s: string, w: nat, h: nat)
    requires s == Shown(w) + ['x'] + Shown(h)
    ensures var n, m := |Shown(w)|, |Shown(h)|;
            && |s| == n + 1 + m && s[n] == 'x' && Digits(s, 0) == n && Digits(s, n + 1) == m
            && Decimal(s, 0, n) == w && Decimal(s, n + 1, m) == h
  {
    SidesOfX(Shown(w), Shown(h));
    NumberRead(s, 0, w);
    NumberRead(s, |Shown(w)| + 1, h);
  }

  lemma WholeScore(s: string)
    requires DimensionsWhole(s)
    ensures Score(Dimensions, s) == Some(ScoreAt(Dimensions, s, 0))
  {
    assert MatchesAt(Dimensions, s, 0);
  }

  lemma WidthTimesHeight(s: string, w: nat, h: nat)
    requires DimensionsWhole(s)
    requires Decimal(s, 0, Digits(s, 0)) == w && Decimal(s, Digits(s, 0) + 1, Digits(s, Digits(s, 0) + 1)) == h
    ensures ScoreAt(Dimensions, s, 0) == w * h
  {
  }

  /** Dimensions score their product. */
  lemma DimensionsScore(w: nat, h: nat)
    requires 2 <= |Shown(w)| <= 5 && 2 <= |Shown(h)| <= 5
    ensures Score(Dimensions, Shown(w) + ['x'] + Shown(h)) == Some(w * h)
  {
    var s := Shown(w) + ['x'] + Shown(h);
    DimensionsRead(s, w, h);
    WholeScore(s);
    WidthTimesHeight(s, w, h);
  }

  /** A marker scores its lines, wherever it stands. */
  lemma MarkerScore(pattern: Pattern, s: string, i: nat, n: nat)
    requires MatchesAt(pattern, s, i) && !pattern.Dimensions?
    requires var j := if pattern.Marked? then AfterRes(s, i) else i;
             j + |Shown(n)| < |s| && s[j..j + |Shown(n)|] == Shown(n) && !Url.IsDigit(s[j + |Shown(n)|])
    ensures ScoreAt(pattern, s, i) == n
  {
    NumberRead(s, if pattern.Marked? then AfterRes(s, i) else i, n);
  }

  /** A word of letters and digits is read as lines only when it is nothing but three or four digits and a p. */
  lemma WordIsNoMarker(s: string)
    requires forall i :: 0 <= i < |s| ==> Url.IsAlnum(s[i])
    ensures Score(Bounded, s).Some? <==> RunAt(s, 0, 3, 4) && Digits(s, 0) + 1 == |s| && IsLetterP(s, |s| - 1)
  {
    if RunAt(s, 0, 3, 4) && Digits(s, 0) + 1 == |s| && IsLetterP(s, |s| - 1) {
      assert MatchesAt(Bounded, s, 0);
    }
    var found := Leftmost(Bounded, s, 0);
    if found.Some? {
      assert BoundedAt(s, found.value);
    }
  }

  lemma NoDigitsNoMarker(pattern: Pattern, s: string)
    requires forall i :: 0 <= i < |s| ==> !Url.IsDigit(s[i])
    ensures Score(pattern, s).None?
  {
    forall i: nat ensures !MatchesAt(pattern, s, i) {
      assert Digits(s, i) == 0 && Digits(s, AfterRes(s, i)) == 0 && Digits(s, 0) == 0;
    }
  }

  // ----- findVideoResolution

  datatype Resolution = Resolution(segment: nat, score: nat)

  /** The first of the segments from i on that the pattern matches. */
  function FirstSegment(pattern: Pattern, segments: seq<string>, i: nat): (r: Option<Resolution>)
    ensures r.Some? ==> i <= r.value.segment < |segments| && Score(pattern, segments[r.value.segment]) == Some(r.value.score)
    ensures r.Some? ==> forall k :: i <= k < r.value.segment ==> Score(pattern, segments[k]).None?
    ensures r.None? ==> forall k :: i <= k < |segments| ==> Score(pattern, segments[k]).None?
    decreases |segments| - i
  {
    if i >= |segments| then None
    else
      match Score(pattern, segments[i])
      case Some(score) => Some(Resolution(i, score))
      case None => FirstSegment(pattern, segments, i + 1)
  }

  /** r is the match of the most specific pattern that matches at all, in the first segment it matches. */
  ghost predicate Finds(segments: seq<string>, r: Option<Resolution>) {
    match r
    case None => forall p, k :: 0 <= p < |PATTERNS| && 0 <= k < |segments| ==> Score(PATTERNS[p], segments[k]).None?
    case Some(m) =>
      && m.segment < |segments|
      && exists p :: 0 <= p < |PATTERNS| && Chosen(p, segments, m)
  }

  ghost predicate Chosen(p: nat, segments: seq<string>, m: Resolution)
    requires p < |PATTERNS| && m.segment < |segments|
  {
    && Score(PATTERNS[p], segments[m.segment]) == Some(m.score)
    && (forall k :: 0 <= k < m.segment ==> Score(PATTERNS[p], segments[k]).None?)
    && (forall q, k :: 0 <= q < p && 0 <= k < |segments| ==> Score(PATTERNS[q], segments[k]).None?)
  }

  lemma FindsUnique(segments: seq<string>, r1: Option<Resolution>, r2: Option<Resolution>)
    requires Finds(segments, r1) && Finds(segments, r2)
    ensures r1 == r2
  {
    if r1.Some? && r2.Some? {
      var p :| 0 <= p < |PATTERNS| && Chosen(p, segments, r1.value);
      var q :| 0 <= q < |PATTERNS| && Chosen(q, segments, r2.value);
      assert Score(PATTERNS[p], segments[r1.value.segment]).Some? && Score(PATTERNS[q], segments[r2.value.segment]).Some?;
    }
  }

  function Resolved(segments: seq<string>): (r: Option<Resolution>)
    ensures Finds(segments, r)
  {
    var dimensions, marked, bounded := FirstSegment(Dimensions, segments, 0), FirstSegment(Marked, segments, 0),
                                       FirstSegment(Bounded, segments, 0);
    assert PATTERNS[0] == Dimensions && PATTERNS[1] == Marked && PATTERNS[2] == Bounded;
    if dimensions.Some? then (assert Chosen(0, segments, dimensions.value); dimensions)
    else if marked.Some? then (assert Chosen(1, segments, marked.value); marked)
    else if bounded.Some? then (assert Chosen(2, segments, bounded.value); bounded)
    else None
  }

  /** Pattern by pattern, and segment by segment within one. */
  method FindVideoResolution(segments: seq<string>) returns (r: Option<Resolution>)
    ensures Finds(segments, r) && r == Resolved(segments)
  {
    r := None;
    var p := 0;
    while p < |PATTERNS| && r.None?
      invariant 0 <= p <= |PATTERNS|
      invariant r.None? ==> forall q, k :: 0 <= q < p && 0 <= k < |segments| ==> Score(PATTERNS[q], segments[k]).None?
      invariant r.Some? ==> Finds(segments, r)
      decreases |PATTERNS| - p, if r.None? then 1 else 0
    {
      var i := 0;
      while i < |segments| && r.None?
        invariant 0 <= i <= |segments|
        invariant r.None? ==> forall k :: 0 <= k < i ==> Score(PATTERNS[p], segments[k]).None?
        invariant r.Some? ==> Finds(segments, r)
        decreases |segments| - i
      {
        var score := Score(PATTERNS[p], segments[i]);
        if score.Some? {
          r := Some(Resolution(i, score.value));
          assert Chosen(p, segments, r.value);
        }
        i := i + 1;
      }
      p := p + 1;
    }
    FindsUnique(segments, r, Resolved(segments));
  }

  // ----- videoVariantKey

  /** What is read of a parsed address. */
  datatype Parts = Parts(host: string, path: string)

  /** url.Parse; None for text it refuses. */
  type Parse = string -> Option<Parts>

  /** A group, and a score within it. */
  datatype Scored<K> = Scored(key: K, score: nat)

  /** A URL with a marker belongs to its host and the path before the marker; any other is a group of its own. */
  function KeyOf(parse: Parse, raw: string): Scored<string> {
    match parse(raw)
    case None => Scored(raw, 0)
    case Some(parts) =>
      var segments := Split(parts.path, '/');
      match Resolved(segments)
      case None => Scored(raw, 0)
      case Some(m) => Scored(parts.host + Join(segments[..m.segment], '/'), m.score)
  }

  /** Nothing marked: the URL is a group of its own. Marked: its host and the segments before the marker name the group. */
  ghost predicate IsKey(parse: Parse, raw: string, v: Scored<string>) {
    match parse(raw)
    case None => v == Scored(raw, 0)
    case Some(parts) =>
      var segments := Split(parts.path, '/');
      && (Finds(segments, None) ==> v == Scored(raw, 0))
      && (forall m :: Finds(segments, Some(m)) ==> v == Scored(parts.host + Join(segments[..m.segment], '/'), m.score))
  }

  /** There is one key. */
  lemma KeyUnique(parse: Parse, raw: string, v: Scored<string>)
    requires IsKey(parse, raw, v)
    ensures v == KeyOf(parse, raw)
  {
    if parse(raw).Some? {
      assert Finds(Split(parse(raw).value.path, '/'), Resolved(Split(parse(raw).value.path, '/')));
    }
  }

  lemma {:induction false} JoinPrefix(parts: seq<string>, k: nat)
    requires k <= |parts|
    ensures Join(parts[..k], '/') <= Join(parts, '/')
  {
    if 1 < |parts| && 1 <= k {
      JoinPrefix(parts[1..], k - 1);
      assert parts[..k][1..] == parts[1..][..k - 1];
      if k == 1 {
        assert parts[..1] == [parts[0]];
      }
    }
  }

  /**
   * An unmarked URL is named by its own text and scores nothing. A marked one is named by its host and the path segments
   * before the first that the most specific pattern matches, so by a first part of its host and path.
   */
  method VideoVariantKey(parse: Parse, raw: string) returns (v: Scored<string>)
    ensures IsKey(parse, raw, v)
    ensures v == Scored(raw, 0) || (parse(raw).Some? && v.key <= parse(raw).value.host + parse(raw).value.path)
  {
    var parsed := parse(raw);
    if parsed.None? {
      return Scored(raw, 0);
    }
    var segments := Split(parsed.value.path, '/');
    var found := FindVideoResolution(segments);
    forall m | Finds(segments, Some(m)) ensures found == Some(m) {
      FindsUnique(segments, found, Some(m));
    }
    if found.None? {
      return Scored(raw, 0);
    }
    if Finds(segments, None) { FindsUnique(segments, found, None); }
    KeyPrefix(parsed.value, found.value.segment);
    v := Scored(parsed.value.host + Join(segments[..found.value.segment], '/'), found.value.score);
  }

  lemma KeyPrefix(parts: Parts, k: nat)
    requires k <= |Split(parts.path, '/')|
    ensures parts.host + Join(Split(parts.path, '/')[..k], '/') <= parts.host + parts.path
  {
    JoinSplit(parts.path, '/');
    JoinPrefix(Split(parts.path, '/'), k);
  }

  /** The grouping, as a function value. */
  function KeyedBy(parse: Parse): string -> Scored<string> {
    (raw: string) => KeyOf(parse, raw)
  }

  function KeysOf<U, K>(keyed: U -> Scored<K>, urls: seq<U>): (all: seq<Scored<K>>)
    ensures |all| == |urls| && forall i :: 0 <= i < |urls| ==> all[i] == keyed(urls[i])
  {
    seq(|urls|, i requires 0 <= i < |urls| => keyed(urls[i]))
  }

  // ----- bestVideoVariants, whatever groups are named by

  /** Of the first n, w is the first of the highest score in its group. */
  ghost predicate IsBest<K>(all: seq<Scored<K>>, n: nat, key: K, w: nat)
    requires n <= |all|
  {
    && w < n && all[w].key == key
    && (forall k :: 0 <= k < n && all[k].key == key ==> all[k].score <= all[w].score)
    && (forall k :: 0 <= k < w && all[k].key == key ==> all[k].score < all[w].score)
  }

  ghost predicate IsFirst<K>(all: seq<Scored<K>>, key: K, i: nat) {
    i < |all| && all[i].key == key && forall k :: 0 <= k < i ==> all[k].key != key
  }

  /** What is kept of a group: which URL, its score, and the place of the group. */
  datatype Variant = Variant(pick: nat, score: nat, order: nat)

  /** Group g of the first n first appears at firsts[g], and its best is what best holds. */
  ghost predicate IsGroup<K>(all: seq<Scored<K>>, n: nat, key: K, g: nat, first: nat, best: map<K, Variant>)
    requires n <= |all|
  {
    && first < n && IsFirst(all, key, first)
    && key in best && best[key].order == g && IsBest(all, n, key, best[key].pick) && best[key].score == all[best[key].pick].score
  }

  ghost predicate Increasing(firsts: seq<nat>) {
    forall g, h :: 0 <= g < h < |firsts| ==> firsts[g] < firsts[h]
  }

  /** The groups of the first n, in the order they first appear. */
  ghost predicate Grouped<K(!new)>(all: seq<Scored<K>>, n: nat, groups: seq<K>, firsts: seq<nat>, best: map<K, Variant>)
    requires n <= |all|
  {
    && |firsts| == |groups| && Increasing(firsts)
    && (forall g :: 0 <= g < |groups| ==> IsGroup(all, n, groups[g], g, firsts[g], best))
    && (forall k :: 0 <= k < n ==> all[k].key in best)
    && (forall key {:trigger Known(groups, best, key)} :: key in best ==> Known(groups, best, key))
  }

  ghost predicate Known<K>(groups: seq<K>, best: map<K, Variant>, key: K) {
    key in best && best[key].order < |groups| && groups[best[key].order] == key
  }

  /** A URL that opens a group. */
  lemma GroupOpens<K(!new)>(all: seq<Scored<K>>, i: nat, groups: seq<K>, firsts: seq<nat>, best: map<K, Variant>)
    requires i < |all| && Grouped(all, i, groups, firsts, best) && all[i].key !in best
    ensures Grouped(all, i + 1, groups + [all[i].key], firsts + [i], best[all[i].key := Variant(i, all[i].score, |groups|)])
  {
    var groups2, firsts2, best2 := groups + [all[i].key], firsts + [i], best[all[i].key := Variant(i, all[i].score, |groups|)];
    forall g | 0 <= g < |groups2| ensures IsGroup(all, i + 1, groups2[g], g, firsts2[g], best2) {
      if g < |groups| {
        assert IsGroup(all, i, groups[g], g, firsts[g], best);
      }
    }
    KnownStill(groups, best, all[i].key, Variant(i, all[i].score, |groups|), groups2, best2);
  }

  lemma KnownStill<K(!new)>(groups: seq<K>, best: map<K, Variant>, new': K, v: Variant, groups2: seq<K>, best2: map<K, Variant>)
    requires new' !in best && v.order == |groups| && groups2 == groups + [new'] && best2 == best[new' := v]
    requires forall key {:trigger Known(groups, best, key)} :: key in best ==> Known(groups, best, key)
    ensures forall key {:trigger Known(groups2, best2, key)} :: key in best2 ==> Known(groups2, best2, key)
  {
    forall key | key in best2 ensures Known(groups2, best2, key) {
      assert key in best ==> Known(groups, best, key);
    }
  }

  /** A URL that is better than what its group has, or not. */
  lemma GroupGrows<K(!new)>(all: seq<Scored<K>>, i: nat, groups: seq<K>, firsts: seq<nat>, best: map<K, Variant>,
                            best2: map<K, Variant>)
    requires i < |all| && Grouped(all, i, groups, firsts, best) && all[i].key in best
    requires var old' := best[all[i].key];
             best2 == if all[i].score > old'.score then best[all[i].key := Variant(i, all[i].score, old'.order)] else best
    ensures Grouped(all, i + 1, groups, firsts, best2)
  {
    forall g | 0 <= g < |groups| ensures IsGroup(all, i + 1, groups[g], g, firsts[g], best2) {
      GroupNext(all, i, groups[g], g, firsts[g], best, best2);
    }
    forall key | key in best2 ensures Known(groups, best2, key) {
      assert Known(groups, best, key);
    }
  }

  lemma GroupNext<K>(all: seq<Scored<K>>, i: nat, key: K, g: nat, first: nat, best: map<K, Variant>, best2: map<K, Variant>)
    requires i < |all| && all[i].key in best && IsGroup(all, i, key, g, first, best)
    requires var old' := best[all[i].key];
             best2 == if all[i].score > old'.score then best[all[i].key := Variant(i, all[i].score, old'.order)] else best
    ensures IsGroup(all, i + 1, key, g, first, best2)
  {
  }

  /** The URL picked for each group is the first of its highest scorers; groups come in order of first appearance. */
  ghost predicate Collapsed<K>(all: seq<Scored<K>>, groups: seq<K>, picks: seq<nat>) {
    && |picks| == |groups|
    && (forall g, h :: 0 <= g < h < |groups| ==> groups[g] != groups[h])
    && (forall i :: 0 <= i < |all| ==> all[i].key in groups)
    && (forall g :: 0 <= g < |groups| ==> IsBest(all, |all|, groups[g], picks[g]))
    && (forall g, h, j :: 0 <= g < h < |groups| && 0 <= j < |all| && all[j].key == groups[h] ==> Before(all, groups[g], j))
  }

  ghost predicate Before<K>(all: seq<Scored<K>>, key: K, j: nat)
    requires j <= |all|
  {
    exists i :: 0 <= i < j && all[i].key == key
  }

  lemma GroupedCollapses<K(!new)>(all: seq<Scored<K>>, groups: seq<K>, firsts: seq<nat>, best: map<K, Variant>, picks: seq<nat>)
    requires Grouped(all, |all|, groups, firsts, best) && |picks| == |groups|
    requires forall g :: 0 <= g < |groups| ==> groups[g] in best && picks[g] == best[groups[g]].pick
    ensures Collapsed(all, groups, picks)
  {
    forall i | 0 <= i < |all| ensures all[i].key in groups {
      assert Known(groups, best, all[i].key);
    }
    forall g, h | 0 <= g < h < |groups| ensures groups[g] != groups[h] {
      assert IsGroup(all, |all|, groups[g], g, firsts[g], best) && IsGroup(all, |all|, groups[h], h, firsts[h], best);
    }
    forall g, h, j | 0 <= g < h < |groups| && 0 <= j < |all| && all[j].key == groups[h] ensures Before(all, groups[g], j) {
      assert IsGroup(all, |all|, groups[g], g, firsts[g], best) && IsGroup(all, |all|, groups[h], h, firsts[h], best);
      assert all[firsts[g]].key == groups[g];
    }
  }

  /** One URL a video, in the order the videos first appear: of each, the first of its highest score. */
  method BestVideoVariants(urls: seq<string>, parse: Parse)
    returns (result: seq<string>, ghost groups: seq<string>, ghost picks: seq<nat>)
    ensures Collapsed(KeysOf(KeyedBy(parse), urls), groups, picks) && |result| == |picks|
    ensures forall g :: 0 <= g < |picks| ==> picks[g] < |urls| && result[g] == urls[picks[g]]
  {
    ghost var all, firsts := KeysOf(KeyedBy(parse), urls), [];
    var keys: seq<string>, best: map<string, Variant> := [], map[];
    for i := 0 to |urls|
      invariant Grouped(all, i, keys, firsts, best)
    {
      var v := VideoVariantKey(parse, urls[i]);
      KeyUnique(parse, urls[i], v);
      keys, best, firsts := AddVariant(v, i, keys, best, all, firsts);
    }
    result, picks := ListBest(urls, keys, best, all, firsts);
    groups := keys;
  }

  /** A URL opens its group, betters it or changes nothing. */
  method AddVariant<K(==,!new)>(v: Scored<K>, i: nat, groups: seq<K>, best: map<K, Variant>, ghost all: seq<Scored<K>>,
                                ghost firsts: seq<nat>)
    returns (groups2: seq<K>, best2: map<K, Variant>, ghost firsts2: seq<nat>)
    requires i < |all| && v == all[i] && Grouped(all, i, groups, firsts, best)
    ensures Grouped(all, i + 1, groups2, firsts2, best2)
  {
    groups2, best2, firsts2 := groups, best, firsts;
    if v.key !in best {
      GroupOpens(all, i, groups, firsts, best);
      groups2 := groups + [v.key];
      best2 := best[v.key := Variant(i, v.score, |groups|)];
      firsts2 := firsts + [i];
    } else {
      if v.score > best[v.key].score {
        best2 := best[v.key := Variant(i, v.score, best[v.key].order)];
      }
      GroupGrows(all, i, groups, firsts, best, best2);
    }
  }

  /** The loop over the groups. */
  method ListBest<U, K(!new)>(urls: seq<U>, groups: seq<K>, best: map<K, Variant>, ghost all: seq<Scored<K>>,
                              ghost firsts: seq<nat>)
    returns (result: seq<U>, ghost picks: seq<nat>)
    requires |all| == |urls| && Grouped(all, |all|, groups, firsts, best)
    ensures Collapsed(all, groups, picks) && |result| == |picks|
    ensures forall g :: 0 <= g < |picks| ==> picks[g] < |urls| && result[g] == urls[picks[g]]
  {
    assert forall g :: 0 <= g < |groups| ==> IsGroup(all, |all|, groups[g], g, firsts[g], best);
    result, picks := [], [];
    for g := 0 to |groups|
      invariant |result| == |picks| == g
      invariant forall a :: 0 <= a < g ==> picks[a] == best[groups[a]].pick && result[a] == urls[picks[a]]
    {
      result := result + [urls[best[groups[g]].pick]];
      picks := picks + [best[groups[g]].pick];
    }
    GroupedCollapses(all, groups, firsts, best, picks);
  }

  // ----- What is dropped

  /** No resolution is read off this URL. */
  predicate Unmarked(parse: Parse, raw: string) {
    KeyOf(parse, raw) == Scored(raw, 0)
  }

  /** Other text of the group this URL names scores nothing and comes later. */
  ghost predicate Unrivalled<K>(all: seq<Scored<K>>, urls: seq<K>, raw: K)
    requires |all| == |urls|
  {
    forall j :: 0 <= j < |all| && all[j].key == raw && urls[j] != raw ==> all[j].score == 0 && raw in urls[..j]
  }

  lemma PickedUnrivalled<K>(all: seq<Scored<K>>, urls: seq<K>, raw: K, w: nat)
    requires |all| == |urls| && IsBest(all, |all|, raw, w)
    requires raw in urls && forall i :: 0 <= i < |urls| && urls[i] == raw ==> all[i] == Scored(raw, 0)
    ensures urls[w] == raw <==> Unrivalled(all, urls, raw)
  {
    if urls[w] == raw {
      forall j | 0 <= j < |all| && all[j].key == raw && urls[j] != raw ensures all[j].score == 0 && raw in urls[..j] {
        assert urls[..j][w] == raw;
      }
    } else if raw in urls[..w] {
      var k :| 0 <= k < w && urls[..w][k] == raw;
      assert all[k] == Scored(raw, 0);
    }
  }

  /**
   * A URL without a marker is its own group and is kept, exactly unless the host and path of a marked URL spell the
   * same text and that one scores or comes first.
   */
  lemma UnmarkedKept(urls: seq<string>, parse: Parse, groups: seq<string>, picks: seq<nat>, raw: string)
    requires Collapsed(KeysOf(KeyedBy(parse), urls), groups, picks) && raw in urls && Unmarked(parse, raw)
    ensures (exists g :: 0 <= g < |picks| && picks[g] < |urls| && urls[picks[g]] == raw) <==> Unrivalled(KeysOf(KeyedBy(parse), urls), urls, raw)
  {
    var all := KeysOf(KeyedBy(parse), urls);
    var r :| 0 <= r < |urls| && urls[r] == raw;
    assert all[r].key == raw;
    var g :| 0 <= g < |groups| && groups[g] == raw;
    PickedUnrivalled(all, urls, raw, picks[g]);
    if h :| 0 <= h < |picks| && picks[h] < |urls| && urls[picks[h]] == raw {
      assert IsBest(all, |all|, groups[h], picks[h]);
      assert all[picks[h]].key == raw == groups[h];
      assert h == g;
    }
  }

  lemma LinesOf(s: string)
    requires |s| == 4 && s[0] == '1' && s[1] == s[2] == '0' && s[3] == 'p'
    ensures Score(Dimensions, s).None? && Score(Marked, s).None? && Score(Bounded, s) == Some(100)
  {
    assert Digits(s, 3) == 0 && Digits(s, 2) == 1 && Digits(s, 1) == 2 && Digits(s, 0) == 3;
    assert BoundedAt(s, 0);
    assert Decimal(s, 0, 0) == 0;
    assert Decimal(s, 0, 1) == 10 * Decimal(s, 0, 0) + 1;
    assert Decimal(s, 0, 2) == 10 * Decimal(s, 0, 1);
    assert Decimal(s, 0, 3) == 10 * Decimal(s, 0, 2);
    forall i: nat ensures !MarkedAt(s, i) {
    }
  }

  lemma LinesFound(segments: seq<string>)
    requires |segments| == 2 && segments[0] == ""
    requires |segments[1]| == 4 && segments[1][0] == '1' && segments[1][1] == segments[1][2] == '0' && segments[1][3] == 'p'
    ensures Resolved(segments) == Some(Resolution(1, 100))
  {
    LinesOf(segments[1]);
    forall p | 0 <= p < |PATTERNS| ensures Score(PATTERNS[p], segments[0]).None? {
      NoDigitsNoMarker(PATTERNS[p], segments[0]);
    }
    assert Chosen(2, segments, Resolution(1, 100));
    FindsUnique(segments, Resolved(segments), Some(Resolution(1, 100)));
  }

  lemma KeyOfMarked(parse: Parse, marked: string, host: string, lines: string)
    requires parse(marked) == Some(Parts(host, ['/'] + lines)) && '/' !in lines
    requires |lines| == 4 && lines[0] == '1' && lines[1] == lines[2] == '0' && lines[3] == 'p'
    ensures KeyOf(parse, marked) == Scored(host, 100)
  {
    var segments := Split(['/'] + lines, '/');
    assert ['/'] + lines == "" + ['/'] + lines;
    SplitStep("", '/', lines);
    SplitNone(lines, '/');
    assert segments == [""] + [lines];
    LinesFound(segments);
    assert segments[..1] == [""];
    assert host + "" == host;
  }

  lemma KeyOfPlain(parse: Parse, bare: string)
    requires '/' !in bare && parse(bare) == Some(Parts("", bare)) && forall i :: 0 <= i < |bare| ==> !Url.IsDigit(bare[i])
    ensures Unmarked(parse, bare)
  {
    SplitNone(bare, '/');
    var segments := [bare];
    forall p | 0 <= p < |PATTERNS| ensures Score(PATTERNS[p], bare).None? {
      NoDigitsNoMarker(PATTERNS[p], bare);
    }
    FindsUnique(segments, Resolved(segments), None);
  }

  /** So it can be dropped: the relative address h, beside a video directly under host h. */
  lemma UnmarkedDropped(parse: Parse, bare: string, marked: string, lines: string)
    requires bare != marked && bare == "h" && parse(bare) == Some(Parts("", bare))
    requires lines == "100p" && parse(marked) == Some(Parts(bare, ['/'] + lines))
    ensures Unmarked(parse, bare) && !Unrivalled(KeysOf(KeyedBy(parse), [bare, marked]), [bare, marked], bare)
  {
    KeyOfPlain(parse, bare);
    KeyOfMarked(parse, marked, bare, lines);
    var urls := [bare, marked];
    assert urls[1] == marked && KeysOf(KeyedBy(parse), urls)[1] == Scored(bare, 100);
  }

  // ----- Absolute addresses are kept

  /** The text names its scheme, as a provider's addresses do. */
  predicate IsAbsolute(raw: string) {
    "http://" <= raw || "https://" <= raw
  }

  /** What url.Parse makes of an address with a host: no slash in the host, a rooted path; and no colon ends the host. */
  predicate HasPlainHost(parse: Parse, raw: string) {
    match parse(raw)
    case None => true
    case Some(parts) =>
      parts.host != "" && '/' !in parts.host && parts.host[|parts.host| - 1] != ':'
      && (parts.path == "" || parts.path[0] == '/')
  }

  lemma RootedSegments(path: string, m: Resolution)
    requires path == "" || path[0] == '/'
    requires Finds(Split(path, '/'), Some(m))
    ensures var joined := Join(Split(path, '/')[..m.segment], '/'); joined == "" || joined[0] == '/'
  {
    var segments := Split(path, '/');
    if path != "" {
      assert path == "" + ['/'] + path[1..];
      SplitStep("", '/', path[1..]);
    }
    assert segments[0] == "";
    var p :| 0 <= p < |PATTERNS| && Chosen(p, segments, m);
    NoDigitsNoMarker(PATTERNS[p], segments[0]);
    assert m.segment > 0;
    if m.segment > 1 {
      assert segments[..m.segment][0] == "";
    }
  }

  /** The first slash of an absolute address follows a colon. */
  lemma SlashAfterColon(raw: string, host: string, rest: string)
    requires IsAbsolute(raw) && raw == host + rest && '/' !in host && (rest == "" || rest[0] == '/')
    ensures host != "" && host[|host| - 1] == ':'
  {
    var k := if "http://" <= raw then 5 else 6;
    assert raw[k] == '/' && raw[k - 1] == ':' && forall i :: 0 <= i < k ==> raw[i] != '/';
    assert forall i :: 0 <= i < |host| ==> host[i] == raw[i];
    assert rest != "";
    assert raw[|host|] == '/';
    assert |host| == k;
  }

  /** The group of a marked address with a plain host is no absolute address. */
  lemma NotAbsolute(parts: Parts, m: Resolution, raw: string)
    requires '/' !in parts.host && (parts.path == "" || parts.path[0] == '/')
    requires parts.host == "" || parts.host[|parts.host| - 1] != ':'
    requires IsAbsolute(raw) && Finds(Split(parts.path, '/'), Some(m))
    ensures parts.host + Join(Split(parts.path, '/')[..m.segment], '/') != raw
  {
    RootedSegments(parts.path, m);
    var rest := Join(Split(parts.path, '/')[..m.segment], '/');
    if raw == parts.host + rest { SlashAfterColon(raw, parts.host, rest); }
  }

  /** A group that an absolute address names is its own. */
  lemma NoMarkedRival(parse: Parse, other: string, raw: string)
    requires IsAbsolute(raw) && HasPlainHost(parse, other) && KeyOf(parse, other).key == raw
    ensures other == raw
  {
    if parse(other).Some? {
      var parts := parse(other).value;
      var found := Resolved(Split(parts.path, '/'));
      if found.Some? { NotAbsolute(parts, found.value, raw); }
    }
  }

  /** An absolute address without a marker is always kept among addresses whose hosts are plain. */
  lemma AbsoluteKept(urls: seq<string>, parse: Parse, groups: seq<string>, picks: seq<nat>, raw: string)
    requires Collapsed(KeysOf(KeyedBy(parse), urls), groups, picks) && raw in urls && Unmarked(parse, raw)
    requires IsAbsolute(raw) && forall u :: u in urls ==> HasPlainHost(parse, u)
    ensures exists g :: 0 <= g < |picks| && picks[g] < |urls| && urls[picks[g]] == raw
  {
    var all := KeysOf(KeyedBy(parse), urls);
    forall j | 0 <= j < |all| && all[j].key == raw ensures urls[j] == raw {
      assert urls[j] in urls;
      NoMarkedRival(parse, urls[j], raw);
    }
    UnmarkedKept(urls, parse, groups, picks, raw);
  }
}
