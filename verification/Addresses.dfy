/** How else one address may be spelled: scheme and host in any case, credentials, a port, escapes, a fragment, white space. */
module Addresses {
  import opened Strings
  import opened Models
  import opened Url

  predicate IsNameChar(c: char) {
    IsAlnum(c) || c == '.' || c == '-'
  }

  /** A host name in any case. */
  predicate NameText(s: string) {
    s != "" && forall i :: 0 <= i < |s| ==> IsNameChar(s[i])
  }

  /** Nothing, or a colon and digits. */
  predicate PortText(s: string) {
    s == "" || (s[0] == ':' && forall i :: 1 <= i < |s| ==> IsDigit(s[i]))
  }

  /** Nothing, or credentials and an at sign. */
  predicate UserText(s: string) {
    s == "" || (s[|s| - 1] == '@' && ValidUserinfo(s[..|s| - 1]))
  }

  /** A rooted path as written, escapes and all, and what it decodes to. */
  predicate PathSpells(raw: string, path: string) {
    && raw != "" && raw[0] == '/' && Unescape(raw, false) == Some(path)
    && forall i :: 0 <= i < |raw| ==> IsPrintedChar(raw[i]) && raw[i] != '?'
  }

  /** Nothing, or a mark and any decodable text that does not end in white space. */
  predicate FragmentText(s: string) {
    s == "" || (s[0] == '#' && !IsSpace(s[|s| - 1]) && Unescape(s[1..], false).Some?)
  }

  predicate Blank(s: string) {
    forall i :: 0 <= i < |s| ==> IsSpace(s[i])
  }

  /** What lies between scheme and fragment. */
  function Middle(user: string, host: string, port: string, raw: string, suffix: string): string {
    ['/', '/'] + (user + (host + port) + raw) + suffix
  }

  function Spelled(scheme: string, user: string, host: string, port: string, raw: string, suffix: string, fragment: string): string {
    scheme + [':'] + Middle(user, host, port, raw, suffix) + fragment
  }

  // ----- White space around

  lemma {:induction false} TrimLeftBlank(left: string, s: string)
    requires Blank(left) && s != "" && !IsSpace(s[0])
    ensures TrimLeft(left + s) == s
  {
    if left == "" {
      assert left + s == s;
    } else {
      assert (left + s)[1..] == left[1..] + s;
      TrimLeftBlank(left[1..], s);
    }
  }

  lemma {:induction false} TrimRightBlank(s: string, right: string)
    requires Blank(right) && s != "" && !IsSpace(s[|s| - 1])
    ensures TrimRight(s + right) == s
  {
    if right == "" {
      assert s + right == s;
    } else {
      var n := |right| - 1;
      assert (s + right)[..|s + right| - 1] == s + right[..n] && (s + right)[|s + right| - 1] == right[n];
      TrimRightBlank(s, right[..n]);
    }
  }

  lemma TrimAround(left: string, s: string, right: string)
    requires Blank(left) && Blank(right) && s != "" && !IsSpace(s[0]) && !IsSpace(s[|s| - 1])
    ensures TrimSpace(left + s + right) == s
  {
    assert left + s + right == left + (s + right);
    TrimLeftBlank(left, s + right);
    TrimRightBlank(s, right);
  }

  // ----- Host and port

  lemma NameHasNone(host: string, c: char)
    requires NameText(host) && !IsNameChar(c)
    ensures c !in host
  {
  }

  lemma PortParses(host: string, port: string)
    requires NameText(host) && PortText(port)
    ensures HostPort(host + port) == Some((host, if port == "" then "" else port[1..]))
  {
    NameHasNone(host, ':');
    if port == "" {
      assert host + port == host;
      CutLastNone(host, ':');
    } else {
      var digits := port[1..];
      assert forall i :: 0 <= i < |digits| ==> digits[i] == port[i + 1];
      assert ':' !in digits;
      CutLastAt(host, ':', digits);
      assert host + port == host + [':'] + digits;
    }
  }

  lemma PortPlain(host: string, port: string)
    requires NameText(host) && PortText(port)
    ensures '@' !in host + port && '/' !in host + port && '?' !in host + port && AllPrinted(host + port)
  {
  }

  lemma UserPlain(user: string)
    requires UserText(user)
    ensures '/' !in user && '?' !in user && AllPrinted(user)
  {
    if user != "" {
      var info := user[..|user| - 1];
      assert user == info + ['@'];
      assert forall i :: 0 <= i < |info| ==> IsUserinfoChar(info[i]);
      InfoPlain(info);
    }
  }

  lemma InfoCharPlain(c: char)
    requires IsUserinfoChar(c)
    ensures c != '/' && c != '?' && IsPrintedChar(c)
  {
  }

  lemma InfoPlain(info: string)
    requires forall i :: 0 <= i < |info| ==> IsUserinfoChar(info[i])
    ensures '/' !in info && '?' !in info && AllPrinted(info)
  {
    forall i | 0 <= i < |info| ensures info[i] != '/' && info[i] != '?' && IsPrintedChar(info[i]) {
      InfoCharPlain(info[i]);
    }
  }

  lemma AuthorityParses(user: string, host: string, port: string)
    requires UserText(user) && NameText(host) && PortText(port)
    ensures ParseAuthority(user + (host + port)) == Some((host, if port == "" then "" else port[1..]))
    ensures '/' !in user + (host + port) && '?' !in user + (host + port) && AllPrinted(user + (host + port))
  {
    PortPlain(host, port);
    UserPlain(user);
    PortParses(host, port);
    if user == "" {
      assert user + (host + port) == host + port;
      CutLastNone(host + port, '@');
    } else {
      var info := user[..|user| - 1];
      assert user == info + ['@'];
      CutLastAt(info, '@', host + port);
    }
  }

  lemma PathStarts(authority: string, raw: string)
    requires '/' !in authority && raw != "" && raw[0] == '/'
    ensures var t := authority + raw;
            IndexOf(t, '/') == |authority| && t[..|authority|] == authority && t[|authority|..] == raw
  {
    assert raw == ['/'] + raw[1..];
    assert authority + raw == authority + ['/'] + raw[1..];
    IndexOfFirst(authority, '/', raw[1..]);
  }

  lemma NoMark(authority: string, raw: string)
    requires '?' !in authority && forall i :: 0 <= i < |raw| ==> raw[i] != '?'
    ensures '?' !in ['/', '/'] + (authority + raw) && (['/', '/'] + (authority + raw))[2..] == authority + raw
  {
  }

  lemma MiddleParses(user: string, host: string, port: string, raw: string, path: string, suffix: string)
    requires UserText(user) && NameText(host) && PortText(port) && PathSpells(raw, path) && SuffixText(suffix)
    ensures ParseRest(Middle(user, host, port, raw, suffix))
            == Some(HttpUrl(host, if port == "" then "" else port[1..], path, SuffixQuery(suffix)))
  {
    AuthorityParses(user, host, port);
    NoMark(user + (host + port), raw);
    QueryCut(['/', '/'] + (user + (host + port) + raw), suffix);
    PathStarts(user + (host + port), raw);
  }

  // ----- The whole text

  ghost predicate AllLetters(s: string) {
    forall i :: 0 <= i < |s| ==> IsLetter(s[i])
  }

  ghost predicate AllPrinted(s: string) {
    forall i :: 0 <= i < |s| ==> IsPrintedChar(s[i])
  }

  lemma LowersToLetter(c: char)
    requires 'a' <= LowerChar(c) <= 'z'
    ensures IsLetter(c)
  {
  }

  /** Every letter of a spelling of http or https is a letter. */
  lemma HttpLetters(scheme: string)
    requires IsHttp(scheme)
    ensures scheme != "" && AllLetters(scheme)
  {
    LowerLaw(scheme);
    var low := ToLower(scheme);
    assert forall i :: 0 <= i < |low| ==> 'a' <= low[i] <= 'z';
    forall i | 0 <= i < |scheme| ensures IsLetter(scheme[i]) {
      assert low[i] == LowerChar(scheme[i]);
      LowersToLetter(scheme[i]);
    }
  }

  lemma LettersPrinted(s: string)
    requires AllLetters(s)
    ensures AllPrinted(s) && ':' !in s && forall i :: 0 <= i < |s| ==> IsSchemeChar(s[i])
  {
  }

  lemma PrintedAppend(a: string, b: string)
    requires AllPrinted(a) && AllPrinted(b)
    ensures AllPrinted(a + b)
  {
  }

  lemma SchemeReads(scheme: string, rest: string)
    requires scheme != "" && AllLetters(scheme)
    ensures SchemeOf(scheme + [':'] + rest) == Some(scheme)
  {
    LettersPrinted(scheme);
    CutAt(scheme, ':', rest);
    assert |scheme + [':'] + rest| > |scheme|;
  }

  lemma MiddlePlain(user: string, host: string, port: string, raw: string, path: string, suffix: string)
    requires UserText(user) && NameText(host) && PortText(port) && PathSpells(raw, path) && SuffixText(suffix)
    ensures AllPrinted(Middle(user, host, port, raw, suffix))
  {
    AuthorityParses(user, host, port);
    PrintedAppend(user + (host + port), raw);
    assert AllPrinted(['/', '/']);
    PrintedAppend(['/', '/'], user + (host + port) + raw);
    PrintedAppend(['/', '/'] + (user + (host + port) + raw), suffix);
  }

  lemma MarkFirst(u: string, fragment: string)
    requires fragment != "" && fragment[0] == '#'
    ensures u + fragment == u + ['#'] + fragment[1..]
  {
  }

  lemma FragmentCut(u: string, fragment: string)
    requires '#' !in u && FragmentText(fragment)
    ensures Cut(u + fragment, '#') == (u, if fragment == "" then "" else fragment[1..])
  {
    if fragment == "" {
      CutNone(u, '#');
      assert u + fragment == u;
    } else {
      MarkFirst(u, fragment);
      CutAt(u, '#', fragment[1..]);
    }
  }

  lemma BeforeFragment(scheme: string, middle: string)
    requires IsHttp(scheme) && AllPrinted(middle)
    ensures var u := scheme + [':'] + middle;
            '#' !in u && !HasControl(u) && SchemeOf(u) == Some(scheme) && u[|scheme| + 1..] == middle
  {
    HttpLetters(scheme);
    SchemeReads(scheme, middle);
    LettersPrinted(scheme);
    assert AllPrinted([':']);
    PrintedAppend(scheme, [':']);
    PrintedAppend(scheme + [':'], middle);
    NothingToTrim(scheme + [':'] + middle);
  }

  lemma EndsPlain(scheme: string, middle: string, fragment: string)
    requires IsHttp(scheme) && middle != "" && AllPrinted(middle) && FragmentText(fragment)
    ensures var s := scheme + [':'] + middle + fragment; s != "" && !IsSpace(s[0]) && !IsSpace(s[|s| - 1])
  {
    HttpLetters(scheme);
    LettersPrinted(scheme);
    var s := scheme + [':'] + middle + fragment;
    assert s[0] == scheme[0];
    if fragment == "" {
      assert s[|s| - 1] == middle[|middle| - 1];
    } else {
      assert s[|s| - 1] == fragment[|fragment| - 1];
    }
  }

  lemma HttpParses(scheme: string, middle: string, fragment: string)
    requires IsHttp(scheme) && AllPrinted(middle) && FragmentText(fragment)
    ensures ParseHTTP(scheme + [':'] + middle + fragment) == ParseRest(middle)
  {
    BeforeFragment(scheme, middle);
    FragmentCut(scheme + [':'] + middle, fragment);
    assert Unescape("", false) == Some("");
  }

  /** Parsing any spelling gives host, port digits, decoded path and query; credentials, fragment and white space go. */
  lemma SpellingParses(left: string, scheme: string, user: string, host: string, port: string, raw: string, path: string,
      suffix: string, fragment: string, right: string)
    requires Blank(left) && Blank(right)
    requires ToLower(scheme) == "http" || ToLower(scheme) == "https"
    requires UserText(user) && NameText(host) && PortText(port)
    requires PathSpells(raw, path) && SuffixText(suffix) && FragmentText(fragment)
    ensures ParseHTTP(TrimSpace(left + Spelled(scheme, user, host, port, raw, suffix, fragment) + right))
            == Some(HttpUrl(host, if port == "" then "" else port[1..], path, SuffixQuery(suffix)))
  {
    var middle := Middle(user, host, port, raw, suffix);
    MiddlePlain(user, host, port, raw, path, suffix);
    EndsPlain(scheme, middle, fragment);
    TrimAround(left, Spelled(scheme, user, host, port, raw, suffix, fragment), right);
    HttpParses(scheme, middle, fragment);
    MiddleParses(user, host, port, raw, path, suffix);
  }
}
