/** UTF-8 as section 4 of RFC 3629 defines it, and Go's strings.ToValidUTF8. */
module Utf8 {
  type Byte = b: int | 0 <= b < 256
  type Bytes = seq<Byte>

  const NEWLINE: Byte := 0x0A

  /** U+FFFD, the replacement character. */
  const REPLACEMENT: Bytes := [0xEF, 0xBF, 0xBD]

  predicate IsTail(b: Byte) { 0x80 <= b <= 0xBF }

  /** The second byte allowed after each lead byte of a three- or four-byte character. */
  predicate IsSecond(lead: Byte, b: Byte) {
    if lead == 0xE0 then 0xA0 <= b <= 0xBF
    else if lead == 0xED then 0x80 <= b <= 0x9F
    else if lead == 0xF0 then 0x90 <= b <= 0xBF
    else if lead == 0xF4 then 0x80 <= b <= 0x8F
    else IsTail(b)
  }

  /** The length of the well-formed character s starts with, or 0 when there is none. */
  function RuneLen(s: Bytes): (n: nat)
    ensures n <= |s| && n <= 4
    ensures n > 0 && s[0] < 0x80 ==> n == 1
    ensures n > 1 ==> forall i :: 0 <= i < n ==> s[i] >= 0x80
  {
    if |s| == 0 then 0
    else if s[0] <= 0x7F then 1
    else if 0xC2 <= s[0] <= 0xDF then
      if |s| >= 2 && IsTail(s[1]) then 2 else 0
    else if 0xE0 <= s[0] <= 0xEF then
      if |s| >= 3 && IsSecond(s[0], s[1]) && IsTail(s[2]) then 3 else 0
    else if 0xF0 <= s[0] <= 0xF4 then
      if |s| >= 4 && IsSecond(s[0], s[1]) && IsTail(s[2]) && IsTail(s[3]) then 4 else 0
    else 0
  }

  predicate Valid(s: Bytes) {
    s == [] || (RuneLen(s) > 0 && Valid(s[RuneLen(s)..]))
  }

  /** s can be extended to valid UTF-8: at most its last character is incomplete. */
  ghost predicate PrefixOfValid(s: Bytes) {
    exists t: Bytes :: Valid(s + t)
  }

  lemma RuneLenAppend(a: Bytes, b: Bytes)
    requires RuneLen(a) > 0
    ensures RuneLen(a + b) == RuneLen(a)
  {
  }

  lemma {:induction false} ValidConcat(a: Bytes, b: Bytes)
    requires Valid(a) && Valid(b)
    ensures Valid(a + b)
  {
    if a == [] {
      assert a + b == b;
    } else {
      var n := RuneLen(a);
      RuneLenAppend(a, b);
      assert (a + b)[n..] == a[n..] + b;
      ValidConcat(a[n..], b);
    }
  }

  lemma {:induction false} ValidCancel(a: Bytes, b: Bytes)
    requires Valid(a) && Valid(a + b)
    ensures Valid(b)
  {
    if a == [] {
      assert a + b == b;
    } else {
      var n := RuneLen(a);
      RuneLenAppend(a, b);
      assert (a + b)[n..] == a[n..] + b;
      ValidCancel(a[n..], b);
    }
  }

  lemma PrefixCancel(a: Bytes, b: Bytes)
    requires Valid(a) && PrefixOfValid(a + b)
    ensures PrefixOfValid(b)
  {
    var t: Bytes :| Valid(a + b + t);
    assert a + b + t == a + (b + t);
    ValidCancel(a, b + t);
  }

  lemma PrefixShorter(a: Bytes, b: Bytes)
    requires PrefixOfValid(a + b)
    ensures PrefixOfValid(a)
  {
    var t: Bytes :| Valid(a + b + t);
    assert a + b + t == a + (b + t);
  }

  lemma ValidIsPrefix(s: Bytes)
    requires Valid(s)
    ensures PrefixOfValid(s)
  {
    assert s + [] == s;
  }

  /** Four bytes are enough to complete the first character. */
  lemma PrefixHasRune(s: Bytes)
    requires PrefixOfValid(s) && |s| >= 4
    ensures RuneLen(s) > 0
  {
    var t: Bytes :| Valid(s + t);
    assert RuneLen(s + t) > 0;
  }

  lemma RuneAlone(s: Bytes)
    requires RuneLen(s) > 0
    ensures RuneLen(s[..RuneLen(s)]) == RuneLen(s)
    ensures Valid(s[..RuneLen(s)])
  {
    var n := RuneLen(s);
    assert RuneLen(s[..n]) == n;
    assert s[..n][n..] == [];
  }

  /** The first character of text that starts like s is whole if it fits into s. */
  lemma FirstRuneWhole(s: Bytes, t: Bytes)
    requires s != [] && Valid(s + t) && RuneLen(s + t) <= |s|
    ensures var n := RuneLen(s + t); n > 0 && Valid(s[..n]) && PrefixOfValid(s[n..])
  {
    var n := RuneLen(s + t);
    RuneAlone(s + t);
    assert (s + t)[..n] == s[..n];
    assert (s + t)[n..] == s[n..] + t;
  }

  lemma JoinValid(s: Bytes, n: nat, m: nat)
    requires n <= m <= |s| && Valid(s[..n]) && Valid(s[n..][..m - n])
    ensures Valid(s[..m])
  {
    assert s[n..][..m - n] == s[n..m];
    ValidConcat(s[..n], s[n..m]);
    assert s[..n] + s[n..m] == s[..m];
  }

  /** An ASCII byte ends a character, so everything up to it is complete. */
  lemma {:induction false} AsciiEndsRune(s: Bytes, i: nat)
    requires PrefixOfValid(s) && i < |s| && s[i] < 0x80
    ensures Valid(s[..i + 1])
  {
    var t: Bytes :| Valid(s + t);
    var n := RuneLen(s + t);
    if n > i {
      assert (s + t)[i] == s[i];
      assert n == 1 && i == 0;
      assert s[..1][1..] == [];
    } else {
      FirstRuneWhole(s, t);
      AsciiEndsRune(s[n..], i - n);
      JoinValid(s, n, i + 1);
    }
  }

  /** strings.ToValidUTF8 with U+FFFD: each run of invalid bytes becomes one replacement. */
  function ToValid(s: Bytes, afterInvalid: bool := false): Bytes {
    if s == [] then []
    else
      var n := RuneLen(s);
      if n > 0 then s[..n] + ToValid(s[n..], false)
      else (if afterInvalid then [] else REPLACEMENT) + ToValid(s[1..], true)
  }

  lemma ReplacementIsValid()
    ensures Valid(REPLACEMENT)
  {
    assert REPLACEMENT[3..] == [];
  }

  lemma {:induction false} ToValidIsValid(s: Bytes, afterInvalid: bool)
    ensures Valid(ToValid(s, afterInvalid))
  {
    if s != [] {
      var n := RuneLen(s);
      if n > 0 {
        RuneAlone(s);
        ToValidIsValid(s[n..], false);
        ValidConcat(s[..n], ToValid(s[n..], false));
      } else {
        ToValidIsValid(s[1..], true);
        ReplacementIsValid();
        ValidConcat(REPLACEMENT, ToValid(s[1..], true));
        assert [] + ToValid(s[1..], true) == ToValid(s[1..], true);
      }
    }
  }

  lemma {:induction false} ToValidKeepsValid(s: Bytes, afterInvalid: bool)
    requires Valid(s)
    ensures ToValid(s, afterInvalid) == s
  {
    if s != [] {
      var n := RuneLen(s);
      ToValidKeepsValid(s[n..], false);
      assert s[..n] + s[n..] == s;
    }
  }

  /** Replacement changes a string exactly when it was not valid. */
  lemma ToValidFixpoint(s: Bytes)
    ensures ToValid(s) == s <==> Valid(s)
    ensures s != [] ==> ToValid(s) != []
  {
    ToValidIsValid(s, false);
    if Valid(s) {
      ToValidKeepsValid(s, false);
    }
  }

  // ----- What replacement keeps

  /** No character starts anywhere in junk, with this text behind it. */
  ghost predicate NoStart(junk: Bytes, after: Bytes) {
    forall k :: 0 <= k < |junk| ==> RuneLen((junk + after)[k..]) == 0
  }

  /** A run of bytes at which no character starts, and the valid text up to the next run. */
  datatype Piece = Piece(junk: Bytes, text: Bytes)

  function Spelled(pieces: seq<Piece>): Bytes {
    if pieces == [] then [] else pieces[0].junk + pieces[0].text + Spelled(pieces[1..])
  }

  /** The same pieces with one U+FFFD for each run. */
  function Mended(pieces: seq<Piece>): Bytes {
    if pieces == [] then [] else REPLACEMENT + pieces[0].text + Mended(pieces[1..])
  }

  /** Runs are not empty, never touch, and hold no start of a character; what is between them is valid. */
  ghost predicate PiecesOk(pieces: seq<Piece>) {
    pieces == [] ||
    (&& pieces[0].junk != [] && Valid(pieces[0].text)
     && (pieces[0].text == [] ==> |pieces| == 1)
     && NoStart(pieces[0].junk, pieces[0].text + Spelled(pieces[1..]))
     && PiecesOk(pieces[1..]))
  }

  /** Valid text, then runs each followed by valid text. */
  ghost predicate Parts(s: Bytes, head: Bytes, pieces: seq<Piece>) {
    Valid(head) && PiecesOk(pieces) && s == head + Spelled(pieces)
  }

  /** t is s with every run of bytes at which no character starts replaced by one U+FFFD, and nothing else changed. */
  ghost predicate Mends(s: Bytes, t: Bytes) {
    exists head, pieces :: IsMending(s, t, head, pieces)
  }

  ghost predicate IsMending(s: Bytes, t: Bytes, head: Bytes, pieces: seq<Piece>) {
    Parts(s, head, pieces) && t == head + Mended(pieces)
  }

  /** Valid text in front stays as it is. */
  lemma {:induction false} ToValidAfterValid(a: Bytes, b: Bytes)
    requires Valid(a)
    ensures ToValid(a + b) == a + ToValid(b)
  {
    if a == [] {
      assert a + b == b;
      assert a + ToValid(b) == ToValid(b);
    } else {
      AfterRune(a, b);
      ToValidAfterValid(a[RuneLen(a)..], b);
    }
  }

  lemma AfterRune(a: Bytes, b: Bytes)
    requires RuneLen(a) > 0
    ensures var n := RuneLen(a); ToValid(a + b) == a[..n] + ToValid(a[n..] + b)
                                 && forall t: Bytes :: a[..n] + (a[n..] + t) == a + t
  {
    var n := RuneLen(a);
    RuneLenAppend(a, b);
    assert (a + b)[n..] == a[n..] + b && (a + b)[..n] == a[..n];
    forall t: Bytes ensures a[..n] + (a[n..] + t) == a + t {
      assert a[..n] + a[n..] == a;
    }
  }

  /** Behind the first byte of a run the rest of the run leaves nothing. */
  lemma {:induction false} RunEnds(junk: Bytes, after: Bytes)
    requires NoStart(junk, after)
    ensures ToValid(junk + after, true) == ToValid(after, true)
  {
    if junk == [] {
      assert junk + after == after;
    } else {
      var s := junk + after;
      assert s[0..] == s;
      assert s[1..] == junk[1..] + after;
      forall k | 0 <= k < |junk[1..]| ensures RuneLen((junk[1..] + after)[k..]) == 0 {
        assert s[k + 1..] == (junk[1..] + after)[k..];
      }
      RunEnds(junk[1..], after);
      assert [] + ToValid(s[1..], true) == ToValid(s[1..], true);
    }
  }

  /** A run becomes one replacement; behind it the flag no longer matters unless another invalid byte follows. */
  lemma RunMended(junk: Bytes, after: Bytes)
    requires junk != [] && NoStart(junk, after) && (after == [] || RuneLen(after) > 0)
    ensures ToValid(junk + after) == REPLACEMENT + ToValid(after)
  {
    var s := junk + after;
    assert s[0..] == s && s[1..] == junk[1..] + after;
    forall k | 0 <= k < |junk[1..]| ensures RuneLen((junk[1..] + after)[k..]) == 0 {
      assert s[k + 1..] == (junk[1..] + after)[k..];
    }
    RunEnds(junk[1..], after);
  }

  lemma ValidStarts(text: Bytes, after: Bytes)
    requires Valid(text) && (text == [] ==> after == [])
    ensures text + after == [] || RuneLen(text + after) > 0
  {
    if text != [] { RuneLenAppend(text, after); }
  }

  lemma {:induction false} PiecesMended(pieces: seq<Piece>)
    requires PiecesOk(pieces)
    ensures ToValid(Spelled(pieces)) == Mended(pieces)
  {
    if pieces != [] {
      var p, later := pieces[0], Spelled(pieces[1..]);
      assert p.text == [] ==> pieces[1..] == [];
      ValidStarts(p.text, later);
      RunMended(p.junk, p.text + later);
      assert p.junk + p.text + later == p.junk + (p.text + later);
      ToValidAfterValid(p.text, later);
      PiecesMended(pieces[1..]);
      assert REPLACEMENT + p.text + Mended(pieces[1..]) == REPLACEMENT + (p.text + Mended(pieces[1..]));
    }
  }

  lemma NoStartCons(b: Byte, junk: Bytes, after: Bytes)
    requires RuneLen([b] + (junk + after)) == 0 && NoStart(junk, after)
    ensures NoStart([b] + junk, after)
  {
    var s := [b] + (junk + after);
    assert s == [b] + junk + after;
    forall k | 0 <= k < |[b] + junk| ensures RuneLen(([b] + junk + after)[k..]) == 0 {
      if k == 0 { assert s[0..] == s; } else { assert s[k..] == (junk + after)[k - 1..]; }
    }
  }

  /** One more byte at which no character starts, in front of a run. */
  lemma JoinsRun(b: Byte, pieces: seq<Piece>)
    requires pieces != [] && PiecesOk(pieces) && RuneLen([b] + Spelled(pieces)) == 0
    ensures var all := [Piece([b] + pieces[0].junk, pieces[0].text)] + pieces[1..];
            PiecesOk(all) && Spelled(all) == [b] + Spelled(pieces)
  {
    var p, later := pieces[0], Spelled(pieces[1..]);
    Regroup(p.junk, p.text, later);
    NoStartCons(b, p.junk, p.text + later);
    Regroup([b] + p.junk, p.text, later);
    Regroup([b], p.junk, p.text + later);
    LongerRun(b, pieces);
  }

  lemma LongerRun(b: Byte, pieces: seq<Piece>)
    requires pieces != [] && PiecesOk(pieces)
    requires NoStart([b] + pieces[0].junk, pieces[0].text + Spelled(pieces[1..]))
    ensures var all := [Piece([b] + pieces[0].junk, pieces[0].text)] + pieces[1..];
            PiecesOk(all) && Spelled(all) == [b] + pieces[0].junk + pieces[0].text + Spelled(pieces[1..])
  {
    assert ([Piece([b] + pieces[0].junk, pieces[0].text)] + pieces[1..])[1..] == pieces[1..];
  }

  lemma Regroup(a: Bytes, b: Bytes, c: Bytes)
    ensures a + b + c == a + (b + c)
  {
  }

  /** One more byte at which no character starts, in front of valid text or of nothing. */
  lemma NewRun(b: Byte, head: Bytes, pieces: seq<Piece>)
    requires Valid(head) && PiecesOk(pieces) && (head == [] ==> pieces == []) && RuneLen([b] + (head + Spelled(pieces))) == 0
    ensures var all := [Piece([b], head)] + pieces; PiecesOk(all) && Spelled(all) == [b] + (head + Spelled(pieces))
  {
    var all, after := [Piece([b], head)] + pieces, head + Spelled(pieces);
    assert all[1..] == pieces;
    assert [] + after == after;
    NoStartCons(b, [], after);
    assert [b] + [] == [b];
    assert [b] + head + Spelled(pieces) == [b] + after;
  }

  lemma JunkInFront(s: Bytes, head: Bytes, pieces: seq<Piece>) returns (all: seq<Piece>)
    requires s != [] && RuneLen(s) == 0 && Parts(s[1..], head, pieces)
    ensures Parts(s, [], all)
  {
    assert s == [s[0]] + s[1..];
    if head == [] && pieces != [] {
      assert s[1..] == Spelled(pieces);
      JoinsRun(s[0], pieces);
      all := [Piece([s[0]] + pieces[0].junk, pieces[0].text)] + pieces[1..];
    } else {
      NewRun(s[0], head, pieces);
      all := [Piece([s[0]], head)] + pieces;
    }
    assert [] + Spelled(all) == Spelled(all);
  }

  lemma RuneInFront(s: Bytes, head: Bytes, pieces: seq<Piece>)
    requires RuneLen(s) > 0 && Parts(s[RuneLen(s)..], head, pieces)
    ensures Parts(s, s[..RuneLen(s)] + head, pieces)
  {
    RuneThenValid(s, head);
    Regroup(s[..RuneLen(s)], head, Spelled(pieces));
    CutInTwo(s, RuneLen(s));
  }

  lemma RuneThenValid(s: Bytes, head: Bytes)
    requires RuneLen(s) > 0 && Valid(head)
    ensures Valid(s[..RuneLen(s)] + head)
  {
    RuneAlone(s);
    ValidConcat(s[..RuneLen(s)], head);
  }

  lemma CutInTwo(s: Bytes, n: nat)
    requires n <= |s|
    ensures s == s[..n] + s[n..]
  {
  }

  /** Every byte string is valid text and runs. */
  lemma {:induction false} Pieces(s: Bytes) returns (head: Bytes, pieces: seq<Piece>)
    ensures Parts(s, head, pieces)
  {
    if s == [] {
      head, pieces := [], [];
    } else if RuneLen(s) > 0 {
      head, pieces := Pieces(s[RuneLen(s)..]);
      RuneInFront(s, head, pieces);
      head := s[..RuneLen(s)] + head;
    } else {
      var before, later := Pieces(s[1..]);
      pieces := JunkInFront(s, before, later);
      head := [];
    }
  }

  /** Replacement is mending, and there is only one way to mend. */
  lemma ToValidMends(s: Bytes, t: Bytes)
    ensures Mends(s, t) <==> t == ToValid(s)
  {
    forall head, pieces | IsMending(s, t, head, pieces) ensures t == ToValid(s) {
      ToValidAfterValid(head, Spelled(pieces));
      PiecesMended(pieces);
    }
    if t == ToValid(s) {
      var head, pieces := Pieces(s);
      ToValidAfterValid(head, Spelled(pieces));
      PiecesMended(pieces);
      assert IsMending(s, t, head, pieces);
    }
  }
}
