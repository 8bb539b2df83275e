/** Web addresses as text: the parts of net/url that canonicalization reads and writes. */
module Url {
  import opened Strings
  import opened Models
  import Lex

  /** url.Values: every key has at least one value. */
  type Query = map<string, seq<string>>

  predicate ValuesOk(q: Query) {
    forall k :: k in q ==> q[k] != []
  }

  // ----- Cutting

  function Cut(s: string, c: char): (string, string) {
    var i := IndexOf(s, c);
    (s[..i], if i < |s| then s[i + 1..] else "")
  }

  lemma CutAt(a: string, c: char, b: string)
    requires c !in a
    ensures Cut(a + [c] + b, c) == (a, b)
  {
    IndexOfFirst(a, c, b);
    var s := a + [c] + b;
    assert s[..|a|] == a && s[|a| + 1..] == b;
  }

  lemma CutNone(a: string, c: char)
    requires c !in a
    ensures Cut(a, c) == (a, "")
  {
    IndexOfLaw(a, c);
    assert a[..|a|] == a;
  }

  // ----- Percent encoding

  predicate IsAlnum(c: char) {
    'a' <= c <= 'z' || 'A' <= c <= 'Z' || '0' <= c <= '9'
  }

  /** Written as itself in a query. */
  predicate Unreserved(c: char) {
    IsAlnum(c) || c == '-' || c == '_' || c == '.' || c == '~'
  }

  predicate IsHex(c: char) {
    '0' <= c <= '9' || 'A' <= c <= 'F' || 'a' <= c <= 'f'
  }

  function HexVal(c: char): (v: nat)
    requires IsHex(c)
    ensures v < 16
  {
    if c <= '9' then c as int - 0x30
    else if c <= 'F' then c as int - 0x41 + 10
    else c as int - 0x61 + 10
  }

  /** Hexadecimal digits mean the same in either case, and all six letters follow the nine. */
  lemma HexCase(c: char)
    requires IsHex(c)
    ensures IsHex(LowerChar(c)) && HexVal(LowerChar(c)) == HexVal(c)
    ensures c == '0' ==> HexVal(c) == 0
    ensures IsHex((c as int + 1) as char) ==> HexVal((c as int + 1) as char) == HexVal(c) + 1
    ensures c == 'A' ==> HexVal(c) == 10
  {
  }

  function HexDigit(v: nat): (c: char)
    requires v < 16
    ensures IsHex(c) && HexVal(c) == v && IsAlnum(c)
  {
    if v < 10 then (v + 0x30) as char else (v - 10 + 0x41) as char
  }

  /** Chars from 256 on stand for nothing and pass through. */
  function EscapeChar(c: char): string {
    if Unreserved(c) || c as int >= 256 then [c]
    else if c == ' ' then "+"
    else ['%', HexDigit(c as int / 16), HexDigit(c as int % 16)]
  }

  function QueryEscape(s: string): string {
    if s == "" then "" else EscapeChar(s[0]) + QueryEscape(s[1..])
  }

  /** Percent decoding; in a query a plus sign is a space. */
  function Unescape(s: string, inQuery: bool): Option<string> {
    if s == "" then Some("")
    else if s[0] == '%' then
      if |s| < 3 || !IsHex(s[1]) || !IsHex(s[2]) then None
      else
        match Unescape(s[3..], inQuery)
        case None => None
        case Some(rest) => Some([(16 * HexVal(s[1]) + HexVal(s[2])) as char] + rest)
    else
      match Unescape(s[1..], inQuery)
      case None => None
      case Some(rest) => Some([if inQuery && s[0] == '+' then ' ' else s[0]] + rest)
  }

  lemma UnescapeOneChar(c: char, rest: string, tail: string)
    requires Unescape(rest, true) == Some(tail)
    ensures Unescape(EscapeChar(c) + rest, true) == Some([c] + tail)
  {
    var e := EscapeChar(c);
    if |e| == 3 {
      assert (e + rest)[3..] == rest;
      assert (e + rest)[1] == e[1] && (e + rest)[2] == e[2];
    } else {
      assert (e + rest)[1..] == rest;
    }
  }

  lemma {:induction false} UnescapeEscaped(s: string)
    ensures Unescape(QueryEscape(s), true) == Some(s)
  {
    if s != "" {
      UnescapeEscaped(s[1..]);
      UnescapeOneChar(s[0], QueryEscape(s[1..]), s[1..]);
      assert [s[0]] + s[1..] == s;
    }
  }

  /** What an escaped string is made of: nothing that structures a query or an address. */
  predicate EscapedChar(c: char) {
    Unreserved(c) || c == '%' || c == '+' || c as int >= 256
  }

  ghost predicate AllEscaped(s: string) {
    forall i :: 0 <= i < |s| ==> EscapedChar(s[i])
  }

  lemma {:induction false} EscapedSafe(s: string)
    ensures AllEscaped(QueryEscape(s)) && (s != "" ==> QueryEscape(s) != "")
  {
    if s != "" { EscapedSafe(s[1..]); }
  }

  /** A path without percent signs decodes to itself. */
  lemma {:induction false} UnescapePlain(s: string)
    requires '%' !in s
    ensures Unescape(s, false) == Some(s)
  {
    if s != "" {
      assert s == [s[0]] + s[1..];
      UnescapePlain(s[1..]);
    }
  }

  // ----- Queries

  type Pair = (string, string)

  function EscapePair(p: Pair): string {
    QueryEscape(p.0) + ['='] + QueryEscape(p.1)
  }

  function KeyPairs(k: string, values: seq<string>): seq<Pair> {
    if values == [] then [] else KeyPairs(k, values[..|values| - 1]) + [(k, values[|values| - 1])]
  }

  function Pairs(q: Query, keys: seq<string>): seq<Pair> {
    if keys == [] then []
    else
      var k := keys[|keys| - 1];
      Pairs(q, keys[..|keys| - 1]) + (if k in q then KeyPairs(k, q[k]) else [])
  }

  function EscapePairs(pairs: seq<Pair>): seq<string> {
    if pairs == [] then [] else EscapePairs(pairs[..|pairs| - 1]) + [EscapePair(pairs[|pairs| - 1])]
  }

  /** url.Values.Encode: keys in byte order, values in their own order. */
  function Encode(q: Query): string {
    Join(EscapePairs(Pairs(q, Lex.InOrder(q.Keys))), '&')
  }

  function AddPair(q: Query, p: Pair): Query {
    q[p.0 := (if p.0 in q then q[p.0] else []) + [p.1]]
  }

  function AddPiece(q: Query, piece: string): Query {
    if piece == "" || ';' in piece then q
    else
      var (rawKey, rawValue) := Cut(piece, '=');
      match (Unescape(rawKey, true), Unescape(rawValue, true))
      case (Some(key), Some(value)) => AddPair(q, (key, value))
      case _ => q
  }

  function AddPieces(pieces: seq<string>): Query {
    if pieces == [] then map[] else AddPiece(AddPieces(pieces[..|pieces| - 1]), pieces[|pieces| - 1])
  }

  /** url.ParseQuery, keeping what it can read. */
  function ParseQuery(s: string): Query {
    AddPieces(Split(s, '&'))
  }

  function AddPairs(pairs: seq<Pair>): Query {
    if pairs == [] then map[] else AddPair(AddPairs(pairs[..|pairs| - 1]), pairs[|pairs| - 1])
  }

  lemma {:induction false} AddPiecesOk(pieces: seq<string>)
    ensures ValuesOk(AddPieces(pieces))
  {
    if pieces != [] { AddPiecesOk(pieces[..|pieces| - 1]); }
  }

  lemma PieceRoundTrip(q: Query, p: Pair)
    ensures AddPiece(q, EscapePair(p)) == AddPair(q, p)
  {
    EscapedSafe(p.0);
    EscapedSafe(p.1);
    UnescapeEscaped(p.0);
    UnescapeEscaped(p.1);
    CutAt(QueryEscape(p.0), '=', QueryEscape(p.1));
    PieceSafe(p);
  }

  /** A query piece holds none of the separators. */
  lemma PieceSafe(p: Pair)
    ensures var piece := EscapePair(p); piece != "" && '&' !in piece && ';' !in piece
  {
    EscapedSafe(p.0);
    EscapedSafe(p.1);
  }

  lemma {:induction false} PiecesRoundTrip(pairs: seq<Pair>)
    ensures AddPieces(EscapePairs(pairs)) == AddPairs(pairs)
  {
    if pairs != [] {
      var k := |pairs| - 1;
      PiecesRoundTrip(pairs[..k]);
      PieceRoundTrip(AddPairs(pairs[..k]), pairs[k]);
      assert EscapePairs(pairs)[..|EscapePairs(pairs)| - 1] == EscapePairs(pairs[..k]);
    }
  }

  lemma AddLast(pairs: seq<Pair>, p: Pair)
    ensures AddPairs(pairs + [p]) == AddPair(AddPairs(pairs), p)
  {
    assert (pairs + [p])[..|pairs|] == pairs;
  }

  /** q with these values under k. */
  function WithValues(q: Query, k: string, values: seq<string>): Query {
    if values == [] then q else q[k := values]
  }

  lemma {:induction false} AddKeyPairs(pairs: seq<Pair>, k: string, values: seq<string>)
    requires k !in AddPairs(pairs)
    ensures AddPairs(pairs + KeyPairs(k, values)) == WithValues(AddPairs(pairs), k, values)
  {
    if values == [] {
      assert pairs + [] == pairs;
    } else {
      var before, last := values[..|values| - 1], values[|values| - 1];
      AddKeyPairs(pairs, k, before);
      LastKeyPair(pairs, k, values);
      AddLastValue(AddPairs(pairs), k, before, last, pairs + KeyPairs(k, before));
      assert before + [last] == values;
    }
  }

  lemma AddLastValue(q: Query, k: string, before: seq<string>, last: string, pairs: seq<Pair>)
    requires k !in q && AddPairs(pairs) == WithValues(q, k, before)
    ensures AddPairs(pairs + [(k, last)]) == WithValues(q, k, before + [last])
  {
    AddLast(pairs, (k, last));
    AddValue(q, k, before, last);
  }

  lemma LastKeyPair(pairs: seq<Pair>, k: string, values: seq<string>)
    requires values != []
    ensures var n := |values| - 1; pairs + KeyPairs(k, values) == pairs + KeyPairs(k, values[..n]) + [(k, values[n])]
  {
  }

  lemma AddValue(q: Query, k: string, before: seq<string>, last: string)
    requires k !in q
    ensures AddPair(WithValues(q, k, before), (k, last)) == WithValues(q, k, before + [last])
  {
  }

  /** q and r agree on these keys, and r has no others. */
  ghost predicate Restricts(q: Query, keys: seq<string>, r: Query) {
    (forall k :: k in r <==> k in keys) && (forall k :: k in r ==> k in q && r[k] == q[k])
  }

  /** The pairs of some keys rebuild the query on those keys. */
  lemma {:induction false} PairsRebuild(q: Query, keys: seq<string>)
    requires ValuesOk(q) && Lex.Distinct(keys) && forall k :: k in keys ==> k in q
    ensures Restricts(q, keys, AddPairs(Pairs(q, keys)))
  {
    if keys != [] {
      var n := |keys| - 1;
      var k := keys[n];
      assert keys == keys[..n] + [k];
      PairsRebuild(q, keys[..n]);
      AddKeyPairs(Pairs(q, keys[..n]), k, q[k]);
    }
  }

  lemma {:induction false} PiecesSafe(pairs: seq<Pair>)
    ensures |EscapePairs(pairs)| == |pairs|
    ensures forall i :: 0 <= i < |EscapePairs(pairs)| ==> '&' !in EscapePairs(pairs)[i] && EscapePairs(pairs)[i] != ""
  {
    if pairs != [] {
      PiecesSafe(pairs[..|pairs| - 1]);
      PieceSafe(pairs[|pairs| - 1]);
    }
  }

  lemma PairsNonempty(q: Query, keys: seq<string>)
    requires ValuesOk(q) && keys != [] && forall k :: k in keys ==> k in q
    ensures Pairs(q, keys) != []
  {
    assert keys[|keys| - 1] in keys;
  }

  lemma EncodedPieces(q: Query, keys: seq<string>)
    requires ValuesOk(q) && keys != [] && forall k :: k in keys ==> k in q
    ensures var pieces := EscapePairs(Pairs(q, keys)); Split(Join(pieces, '&'), '&') == pieces
  {
    PairsNonempty(q, keys);
    PiecesSafe(Pairs(q, keys));
    SplitJoin(EscapePairs(Pairs(q, keys)), '&');
  }

  lemma KeysListed(q: Query)
    requires q != map[]
    ensures var keys := Lex.InOrder(q.Keys); keys != [] && Lex.Distinct(keys) && forall k :: k in keys <==> k in q
  {
    Lex.InOrderLaw(q.Keys);
    var k :| k in q.Keys;
    assert k in Lex.InOrder(q.Keys);
  }

  lemma RestrictsAll(q: Query, keys: seq<string>, r: Query)
    requires Restricts(q, keys, r) && forall k :: k in keys <==> k in q
    ensures r == q
  {
  }

  /** Encoding loses nothing: parsing the encoded query gives the query back. */
  lemma QueryRoundTrip(q: Query)
    requires ValuesOk(q) && q != map[]
    ensures ParseQuery(Encode(q)) == q
  {
    var keys := Lex.InOrder(q.Keys);
    KeysListed(q);
    EncodedPieces(q, keys);
    PiecesRoundTrip(Pairs(q, keys));
    PairsRebuild(q, keys);
    RestrictsAll(q, keys, AddPairs(Pairs(q, keys)));
  }

  // ----- Addresses

  /** What canonicalization reads of an http or https address. */
  datatype HttpUrl = HttpUrl(hostname: string, port: string, path: string, query: Query)

  predicate IsControl(c: char) {
    c as int < 0x20 || c as int == 0x7F
  }

  predicate HasControl(s: string) {
    exists i :: 0 <= i < |s| && IsControl(s[i])
  }

  predicate IsSchemeChar(c: char) {
    IsAlnum(c) || c == '+' || c == '-' || c == '.'
  }

  predicate IsLetter(c: char) {
    'a' <= c <= 'z' || 'A' <= c <= 'Z'
  }

  /** The scheme, when the text before the first colon is one. */
  function SchemeOf(s: string): (scheme: Option<string>)
    ensures scheme.Some? ==> |scheme.value| < |s|
  {
    var (scheme, _) := Cut(s, ':');
    if scheme == s || scheme == "" || !IsLetter(scheme[0]) then None
    else if exists i :: 0 <= i < |scheme| && !IsSchemeChar(scheme[i]) then None
    else Some(scheme)
  }

  predicate IsUserinfoChar(c: char) {
    IsAlnum(c) || c in "-._:~!$&'()*+,;=%@"
  }

  predicate ValidUserinfo(s: string) {
    (forall i :: 0 <= i < |s| ==> IsUserinfoChar(s[i])) && Unescape(s, false).Some?
  }

  predicate IsDigit(c: char) {
    '0' <= c <= '9'
  }

  /** From the last c in s on, without c; None when there is none. */
  function CutLast(s: string, c: char): Option<(string, string)> {
    if s == "" then None
    else if s[|s| - 1] == c then Some((s[..|s| - 1], ""))
    else
      match CutLast(s[..|s| - 1], c)
      case None => None
      case Some((a, b)) => Some((a, b + [s[|s| - 1]]))
  }

  /** Host name and port; the port may be empty. */
  function HostPort(host: string): Option<(string, string)> {
    match CutLast(host, ':')
    case None => Some((host, ""))
    case Some((name, port)) => if forall i :: 0 <= i < |port| ==> IsDigit(port[i]) then Some((name, port)) else None
  }

  function ParseAuthority(authority: string): Option<(string, string)> {
    match CutLast(authority, '@')
    case None => HostPort(authority)
    case Some((userinfo, host)) => if ValidUserinfo(userinfo) then HostPort(host) else None
  }

  /** What follows the scheme and its colon: authority, path, query. */
  function ParseRest(rest: string): Option<HttpUrl> {
    var (hierarchy, rawQuery) := Cut(rest, '?');
    if |hierarchy| < 2 || hierarchy[0] != '/' || hierarchy[1] != '/' then None
    else
      var t := hierarchy[2..];
      var i := IndexOf(t, '/');
      match (ParseAuthority(t[..i]), Unescape(t[i..], false))
      case (Some((hostname, port)), Some(path)) => Some(HttpUrl(hostname, port, path, ParseQuery(rawQuery)))
      case _ => None
  }

  /** None when the text is not an absolute http or https address that parses. */
  function ParseHTTP(s: string): Option<HttpUrl> {
    var (u, fragment) := Cut(s, '#');
    if HasControl(u) || Unescape(fragment, false).None? then None
    else
      match SchemeOf(u)
      case None => None
      case Some(scheme) => AfterScheme(u, scheme)
  }

  predicate IsHttp(scheme: string) {
    ToLower(scheme) == "http" || ToLower(scheme) == "https"
  }

  function AfterScheme(u: string, scheme: string): Option<HttpUrl>
    requires |scheme| < |u|
  {
    if IsHttp(scheme) then ParseRest(u[|scheme| + 1..]) else None
  }

  // ----- Printing

  function QuerySuffix(q: Query): string {
    if q == map[] then "" else ['?'] + Encode(q)
  }

  function Address(host: string, path: string, suffix: string): string {
    "https://" + host + path + suffix
  }

  function Print(host: string, path: string, q: Query): string {
    Address(host, path, QuerySuffix(q))
  }

  predicate IsHostChar(c: char) {
    'a' <= c <= 'z' || c == '.'
  }

  /** A plain lower-case host name. */
  predicate HostText(s: string) {
    s != "" && forall i :: 0 <= i < |s| ==> IsHostChar(s[i])
  }

  predicate IsPathChar(c: char) {
    IsAlnum(c) || c == '-' || c == '_' || c == '.' || c == ':' || c == '@' || c == '/'
  }

  /** A rooted path that needs no escaping. */
  predicate PathText(s: string) {
    s != "" && s[0] == '/' && forall i :: 0 <= i < |s| ==> IsPathChar(s[i])
  }

  predicate IsQueryChar(c: char) {
    EscapedChar(c) || c == '=' || c == '&'
  }

  lemma {:induction false} JoinChars(parts: seq<string>)
    requires forall i :: 0 <= i < |parts| ==> forall j :: 0 <= j < |parts[i]| ==> IsQueryChar(parts[i][j])
    ensures forall j :: 0 <= j < |Join(parts, '&')| ==> IsQueryChar(Join(parts, '&')[j])
  {
    if |parts| > 1 { JoinChars(parts[1..]); }
  }

  lemma {:induction false} PieceChars(pairs: seq<Pair>)
    ensures |EscapePairs(pairs)| == |pairs|
    ensures forall i :: 0 <= i < |pairs| ==>
              forall j :: 0 <= j < |EscapePairs(pairs)[i]| ==> IsQueryChar(EscapePairs(pairs)[i][j])
  {
    if pairs != [] {
      PieceChars(pairs[..|pairs| - 1]);
      EscapedSafe(pairs[|pairs| - 1].0);
      EscapedSafe(pairs[|pairs| - 1].1);
    }
  }

  /** An encoded query is made of query characters. */
  lemma EncodeChars(q: Query)
    ensures forall j :: 0 <= j < |Encode(q)| ==> IsQueryChar(Encode(q)[j])
  {
    PieceChars(Pairs(q, Lex.InOrder(q.Keys)));
    JoinChars(EscapePairs(Pairs(q, Lex.InOrder(q.Keys))));
  }

  lemma {:induction false} CutLastNone(s: string, c: char)
    requires c !in s
    ensures CutLast(s, c) == None
  {
    if s != "" {
      assert s == s[..|s| - 1] + [s[|s| - 1]];
      CutLastNone(s[..|s| - 1], c);
    }
  }

  lemma {:induction false} CutLastAt(a: string, c: char, b: string)
    requires c !in b
    ensures CutLast(a + [c] + b, c) == Some((a, b))
  {
    var s := a + [c] + b;
    if b == "" {
      assert s[..|s| - 1] == a;
    } else {
      var n := |b| - 1;
      assert b == b[..n] + [b[n]];
      CutLastAt(a, c, b[..n]);
      assert s[..|s| - 1] == a + [c] + b[..n] && s[|s| - 1] == b[n];
    }
  }

  lemma HostParses(host: string)
    requires HostText(host)
    ensures ParseAuthority(host) == Some((host, ""))
  {
    CutLastNone(host, '@');
    CutLastNone(host, ':');
  }

  /** Text that neither trimming nor parsing takes apart. */
  predicate IsPrintedChar(c: char) {
    !IsSpace(c) && !IsControl(c) && c != '#'
  }

  /** Nothing, or a question mark and a raw query. */
  predicate SuffixText(suffix: string) {
    suffix == "" || (suffix[0] == '?' && forall i :: 0 <= i < |suffix| ==> IsPrintedChar(suffix[i]))
  }

  function SuffixQuery(suffix: string): Query {
    if suffix == "" then map[] else ParseQuery(suffix[1..])
  }

  lemma QueryCut(hierarchy: string, suffix: string)
    requires '?' !in hierarchy && SuffixText(suffix)
    ensures var (h, rawQuery) := Cut(hierarchy + suffix, '?'); h == hierarchy && ParseQuery(rawQuery) == SuffixQuery(suffix)
  {
    if suffix == "" {
      CutNone(hierarchy, '?');
      assert hierarchy + "" == hierarchy;
      EmptyQuery();
    } else {
      CutAt(hierarchy, '?', suffix[1..]);
      assert hierarchy + ['?'] + suffix[1..] == hierarchy + suffix;
    }
  }

  lemma EmptyQuery()
    ensures ParseQuery("") == map[]
  {
    SplitNone("", '&');
    assert AddPieces([""]) == AddPiece(AddPieces([]), "");
  }

  lemma PathCut(host: string, path: string)
    requires HostText(host) && PathText(path)
    ensures var t := host + path; IndexOf(t, '/') == |host| && t[..|host|] == host && t[|host|..] == path
  {
    assert path == ['/'] + path[1..];
    assert host + path == host + ['/'] + path[1..];
    IndexOfFirst(host, '/', path[1..]);
  }

  lemma NoQueryMark(host: string, path: string)
    requires HostText(host) && PathText(path)
    ensures var h := ['/', '/'] + (host + path); '?' !in h && h[2..] == host + path
    ensures '%' !in path
  {
  }

  lemma RestParses(host: string, path: string, suffix: string)
    requires HostText(host) && PathText(path) && SuffixText(suffix)
    ensures ParseRest(['/', '/'] + (host + path) + suffix) == Some(HttpUrl(host, "", path, SuffixQuery(suffix)))
  {
    NoQueryMark(host, path);
    QueryCut(['/', '/'] + (host + path), suffix);
    PathCut(host, path);
    HostParses(host);
    UnescapePlain(path);
  }

  lemma AddressChars(host: string, path: string, suffix: string)
    requires HostText(host) && PathText(path) && SuffixText(suffix)
    ensures forall i :: 0 <= i < |Address(host, path, suffix)| ==> IsPrintedChar(Address(host, path, suffix)[i])
  {
    var scheme := "https://";
    assert forall i :: 0 <= i < |scheme| ==> IsPathChar(scheme[i]);
  }

  lemma AddressParts(host: string, path: string, suffix: string)
    ensures Address(host, path, suffix) == "https" + [':'] + (['/', '/'] + (host + path) + suffix)
  {
    assert "https://" == "https" + [':'] + ['/', '/'];
  }

  lemma HttpsIsScheme(rest: string)
    ensures SchemeOf("https" + [':'] + rest) == Some("https")
    ensures ToLower("https") == "https"
  {
    var https := "https";
    assert ':' !in https;
    CutAt(https, ':', rest);
    assert forall i :: 0 <= i < |https| ==> IsSchemeChar(https[i]);
    LowerLaw(https);
  }

  lemma NothingToTrim(s: string)
    requires forall i :: 0 <= i < |s| ==> IsPrintedChar(s[i])
    ensures '#' !in s && !HasControl(s) && TrimSpace(s) == s
  {
    TrimLaw(s);
  }

  /** Parsing without a fragment. */
  lemma ParsePlain(s: string)
    requires '#' !in s
    ensures ParseHTTP(s) == if HasControl(s) || SchemeOf(s).None? then None else AfterScheme(s, SchemeOf(s).value)
  {
    CutNone(s, '#');
  }

  /** Parsing an address spelled from a plain host, a plain path and any raw query. */
  lemma AddressParses(host: string, path: string, suffix: string)
    requires HostText(host) && PathText(path) && SuffixText(suffix)
    ensures ParseHTTP(TrimSpace(Address(host, path, suffix))) == Some(HttpUrl(host, "", path, SuffixQuery(suffix)))
  {
    var s := Address(host, path, suffix);
    var rest := ['/', '/'] + (host + path) + suffix;
    AddressChars(host, path, suffix);
    NothingToTrim(s);
    ParsePlain(s);
    AddressParts(host, path, suffix);
    HttpsIsScheme(rest);
    RestParses(host, path, suffix);
    assert s[|"https"| + 1..] == rest;
  }

  lemma RawSuffix(raw: string)
    requires forall i :: 0 <= i < |raw| ==> IsQueryChar(raw[i])
    ensures SuffixText(['?'] + raw) && (['?'] + raw)[1..] == raw
  {
  }

  lemma QuerySuffixReads(q: Query)
    requires ValuesOk(q)
    ensures SuffixText(QuerySuffix(q)) && SuffixQuery(QuerySuffix(q)) == q
  {
    if q != map[] {
      EncodeChars(q);
      RawSuffix(Encode(q));
      QueryRoundTrip(q);
    }
  }

  /** Parsing a printed address gives back its host, path and query. */
  lemma PrintParses(host: string, path: string, q: Query)
    requires HostText(host) && PathText(path) && ValuesOk(q)
    ensures ParseHTTP(TrimSpace(Print(host, path, q))) == Some(HttpUrl(host, "", path, q))
  {
    QuerySuffixReads(q);
    AddressParses(host, path, QuerySuffix(q));
  }

  /** Two printed addresses are the same text only if every part is the same. */
  lemma PrintInjective(host1: string, path1: string, q1: Query, host2: string, path2: string, q2: Query)
    requires HostText(host1) && PathText(path1) && ValuesOk(q1)
    requires HostText(host2) && PathText(path2) && ValuesOk(q2)
    requires Print(host1, path1, q1) == Print(host2, path2, q2)
    ensures host1 == host2 && path1 == path2 && q1 == q2
  {
    PrintParses(host1, path1, q1);
    PrintParses(host2, path2, q2);
  }
}
