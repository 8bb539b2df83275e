/** Go strings: each char stands for one byte. Case and white space are ASCII's. */
module Strings {
  predicate IsSpace(c: char) {
    c == ' ' || c == '\t' || c == '\n' || c == '\r' || c == '\U{0B}' || c == '\U{0C}'
  }

  function TrimLeft(s: string): string {
    if s != "" && IsSpace(s[0]) then TrimLeft(s[1..]) else s
  }

  function TrimRight(s: string): string {
    if s != "" && IsSpace(s[|s| - 1]) then TrimRight(s[..|s| - 1]) else s
  }

  function TrimSpace(s: string): string {
    TrimRight(TrimLeft(s))
  }

  predicate Trimmed(s: string) {
    s != "" ==> !IsSpace(s[0]) && !IsSpace(s[|s| - 1])
  }

  lemma {:induction false} TrimLeftLaw(s: string)
    ensures var t := TrimLeft(s); t != "" ==> !IsSpace(t[0])
  {
    if s != "" && IsSpace(s[0]) { TrimLeftLaw(s[1..]); }
  }

  lemma {:induction false} TrimRightLaw(s: string)
    ensures var t := TrimRight(s); t <= s && (t != "" ==> !IsSpace(t[|t| - 1]))
  {
    if s != "" && IsSpace(s[|s| - 1]) { TrimRightLaw(s[..|s| - 1]); }
  }

  /** Trimming leaves no white space at either end, and changes nothing else's string. */
  lemma TrimLaw(s: string)
    ensures Trimmed(TrimSpace(s)) && (Trimmed(s) ==> TrimSpace(s) == s)
  {
    TrimLeftLaw(s);
    TrimRightLaw(TrimLeft(s));
  }

  function LowerChar(c: char): char {
    if 'A' <= c <= 'Z' then (c as int + 32) as char else c
  }

  function ToLower(s: string): string {
    if s == "" then "" else [LowerChar(s[0])] + ToLower(s[1..])
  }

  lemma {:induction false} LowerLaw(s: string)
    ensures |ToLower(s)| == |s| && forall i :: 0 <= i < |s| ==> ToLower(s)[i] == LowerChar(s[i])
  {
    if s != "" { LowerLaw(s[1..]); }
  }

  lemma LowerTwice(s: string)
    ensures ToLower(ToLower(s)) == ToLower(s)
  {
    LowerLaw(s);
    LowerLaw(ToLower(s));
  }

  /** The first position of c in s, or |s|. */
  function IndexOf(s: string, c: char): (i: nat)
    ensures i <= |s|
  {
    if s == "" || s[0] == c then 0 else 1 + IndexOf(s[1..], c)
  }

  lemma {:induction false} IndexOfLaw(s: string, c: char)
    ensures var i := IndexOf(s, c); c !in s[..i] && (i < |s| ==> s[i] == c) && (i == |s| <==> c !in s)
  {
    if s != "" && s[0] != c {
      IndexOfLaw(s[1..], c);
      var i := IndexOf(s[1..], c);
      assert s[..i + 1] == [s[0]] + s[1..][..i];
      assert s == [s[0]] + s[1..];
    }
  }

  lemma {:induction false} IndexOfFirst(a: string, c: char, b: string)
    requires c !in a
    ensures IndexOf(a + [c] + b, c) == |a|
  {
    if a != "" {
      IndexOfFirst(a[1..], c, b);
      assert (a + [c] + b)[1..] == a[1..] + [c] + b;
    }
  }

  /** strings.Split on one byte. */
  function Split(s: string, sep: char): seq<string>
    decreases |s|
  {
    var i := IndexOf(s, sep);
    if i == |s| then [s] else [s[..i]] + Split(s[i + 1..], sep)
  }

  function Join(parts: seq<string>, sep: char): string {
    if |parts| == 0 then ""
    else if |parts| == 1 then parts[0]
    else parts[0] + [sep] + Join(parts[1..], sep)
  }

  /** The first separator ends the first part. */
  lemma SplitStep(a: string, sep: char, b: string)
    requires sep !in a
    ensures Split(a + [sep] + b, sep) == [a] + Split(b, sep)
  {
    IndexOfFirst(a, sep, b);
    var s := a + [sep] + b;
    assert s[..|a|] == a && s[|a| + 1..] == b;
  }

  lemma SplitNone(a: string, sep: char)
    requires sep !in a
    ensures Split(a, sep) == [a]
  {
    IndexOfLaw(a, sep);
  }

  lemma {:induction false} SplitJoin(parts: seq<string>, sep: char)
    requires parts != [] && forall i :: 0 <= i < |parts| ==> sep !in parts[i]
    ensures Split(Join(parts, sep), sep) == parts
  {
    if |parts| == 1 {
      SplitNone(parts[0], sep);
    } else {
      SplitStep(parts[0], sep, Join(parts[1..], sep));
      SplitJoin(parts[1..], sep);
      assert parts == [parts[0]] + parts[1..];
    }
  }

  lemma {:induction false} JoinSplit(s: string, sep: char)
    ensures Join(Split(s, sep), sep) == s && Split(s, sep) != []
    decreases |s|
  {
    var i := IndexOf(s, sep);
    IndexOfLaw(s, sep);
    if i < |s| {
      JoinSplit(s[i + 1..], sep);
      JoinFirst(s[..i], Split(s[i + 1..], sep), sep);
      assert s == s[..i] + [sep] + s[i + 1..];
    } else {
      assert s[..i] == s;
    }
  }

  lemma JoinFirst(head: string, rest: seq<string>, sep: char)
    requires rest != []
    ensures Join([head] + rest, sep) == head + [sep] + Join(rest, sep)
  {
    assert ([head] + rest)[1..] == rest;
  }

  function TrimPrefix(s: string, prefix: string): string {
    if prefix <= s then s[|prefix|..] else s
  }

  lemma PrefixTrims(prefix: string, rest: string)
    ensures TrimPrefix(prefix + rest, prefix) == rest
  {
  }

  // ----- File names

  /** filepath.Ext of a name without slashes: from the last dot on, or nothing. */
  function Ext(name: string): string {
    if name == "" then ""
    else if name[|name| - 1] == '.' then "."
    else
      var e := Ext(name[..|name| - 1]);
      if e == "" then "" else e + [name[|name| - 1]]
  }

  lemma {:induction false} ExtFits(name: string)
    ensures |Ext(name)| <= |name| && name[|name| - |Ext(name)|..] == Ext(name)
  {
    if name != "" && name[|name| - 1] != '.' {
      var init := name[..|name| - 1];
      ExtFits(init);
      var k := |init| - |Ext(init)|;
      assert name == init + [name[|name| - 1]];
      assert name[k..] == init[k..] + [name[|name| - 1]];
    }
  }

  /** Text that ends in an extension of its own. */
  lemma {:induction false} ExtOfExtended(stem: string, e: string)
    requires e != "" && e[0] == '.' && '.' !in e[1..]
    ensures Ext(stem + e) == e
  {
    var name := stem + e;
    if |e| == 1 {
      assert name[|name| - 1] == '.';
    } else {
      var init := e[..|e| - 1];
      assert name[..|name| - 1] == stem + init && name[|name| - 1] == e[|e| - 1];
      assert e[|e| - 1] in e[1..] && forall c :: c in init[1..] ==> c in e[1..];
      ExtOfExtended(stem, init);
      assert e == init + [e[|e| - 1]];
    }
  }

  /** The extension, in lower case, of a name that ends in a lower-case one. */
  lemma LowerExt(stem: string, e: string)
    requires e != "" && e[0] == '.' && '.' !in e[1..] && forall i :: 0 <= i < |e| ==> LowerChar(e[i]) == e[i]
    ensures Ext(stem + e) == e && ToLower(Ext(stem + e)) == e
  {
    ExtOfExtended(stem, e);
    LowerLaw(e);
  }

  // ----- Slash-separated names

  /** The non-empty segments between slashes. */
  function Segments(name: string): seq<string> {
    Nonempty(Split(name, '/'))
  }

  function Nonempty(parts: seq<string>): seq<string> {
    if parts == [] then []
    else (if parts[0] == "" then [] else [parts[0]]) + Nonempty(parts[1..])
  }

  lemma {:induction false} NonemptyAppend(a: seq<string>, b: seq<string>)
    ensures Nonempty(a + b) == Nonempty(a) + Nonempty(b)
  {
    if a == [] {
      assert a + b == b;
    } else {
      assert (a + b)[1..] == a[1..] + b;
      NonemptyAppend(a[1..], b);
    }
  }

  /** Text up to a slash splits off. */
  lemma {:induction false} SplitAtSlash(a: string, b: string)
    ensures Split(a + ['/'] + b, '/') == Split(a, '/') + Split(b, '/')
    decreases |a|
  {
    var i := IndexOf(a, '/');
    IndexOfLaw(a, '/');
    if i == |a| {
      SplitNone(a, '/');
      SplitStep(a, '/', b);
    } else {
      SplitAtSlash(a[i + 1..], b);
      SplitFirst(a[..i], a[i + 1..], b);
      ConsAppend(a[..i], Split(a[i + 1..], '/'), Split(b, '/'));
      assert a == a[..i] + ['/'] + a[i + 1..];
    }
  }

  lemma ConsAppend(head: string, x: seq<string>, y: seq<string>)
    ensures [head] + x + y == [head] + (x + y)
  {
  }

  lemma SplitFirst(head: string, tail: string, b: string)
    requires '/' !in head
    ensures Split(head + ['/'] + tail, '/') == [head] + Split(tail, '/')
    ensures Split(head + ['/'] + tail + ['/'] + b, '/') == [head] + Split(tail + ['/'] + b, '/')
  {
    SplitStep(head, '/', tail);
    SplitStep(head, '/', tail + ['/'] + b);
    assert head + ['/'] + tail + ['/'] + b == head + ['/'] + (tail + ['/'] + b);
  }

  lemma SegmentsAppend(a: string, b: string)
    ensures Segments(a + "/" + b) == Segments(a) + Segments(b)
  {
    assert a + "/" + b == a + ['/'] + b;
    SplitAtSlash(a, b);
    NonemptyAppend(Split(a, '/'), Split(b, '/'));
  }

  lemma SegmentsOfName(n: string)
    requires n != "" && '/' !in n
    ensures Segments(n) == [n] && Segments("") == []
  {
    SplitNone(n, '/');
    assert Nonempty([n]) == [n] + Nonempty([]);
    assert Split("", '/') == [""];
    assert Nonempty([""]) == Nonempty([]);
  }
}
