/**
 * The chunked log writer: bytes arrive in arbitrary pieces, rows of at most 1024 bytes leave,
 * cut at character boundaries, and an insert may fail at any time.
 */
module LogWriter {
  import opened Utf8

  const MAX_CHUNK: nat := 1024

  datatype LogRow = LogRow(item: nat, attempt: int, chunk: Bytes)

  function Concat(chunks: seq<Bytes>): Bytes {
    if chunks == [] then [] else chunks[0] + Concat(chunks[1..])
  }

  lemma {:induction false} ConcatAppend(a: seq<Bytes>, b: seq<Bytes>)
    ensures Concat(a + b) == Concat(a) + Concat(b)
  {
    if a == [] {
      assert a + b == b;
    } else {
      assert (a + b)[1..] == a[1..] + b;
      ConcatAppend(a[1..], b);
    }
  }

  /** What every stored row promises, whatever was written. */
  predicate RowOk(chunk: Bytes) {
    0 < |chunk| <= MAX_CHUNK && Valid(chunk)
  }

  predicate RowsOk(chunks: seq<Bytes>) {
    forall i :: 0 <= i < |chunks| ==> RowOk(chunks[i])
  }

  lemma {:induction false} RowsOkConcatValid(chunks: seq<Bytes>)
    requires RowsOk(chunks)
    ensures Valid(Concat(chunks))
  {
    if chunks != [] {
      RowsOkConcatValid(chunks[1..]);
      ValidConcat(chunks[0], Concat(chunks[1..]));
    }
  }

  lemma ConcatEmpty(chunks: seq<Bytes>)
    requires RowsOk(chunks)
    ensures Concat(chunks) == [] <==> chunks == []
  {
    if chunks != [] {
      assert RowOk(chunks[0]);
    }
  }

  // ----- SplitArchiveLogChunks

  /** Greedy packing of whole characters, with cur already in the builder. */
  function Pack(cur: Bytes, text: Bytes): seq<Bytes>
    requires Valid(text)
    decreases |text|
  {
    if text == [] then if cur == [] then [] else [cur]
    else
      var n := RuneLen(text);
      if |cur| + n > MAX_CHUNK then [cur] + Pack(text[..n], text[n..])
      else Pack(cur + text[..n], text[n..])
  }

  function SplitChunks(text: Bytes): seq<Bytes> {
    ToValidIsValid(text, false);
    Pack([], ToValid(text))
  }

  /** No chunk could have taken the first character of the next one. */
  predicate Greedy(chunks: seq<Bytes>) {
    forall i :: 0 <= i < |chunks| - 1 ==> |chunks[i]| + RuneLen(chunks[i + 1]) > MAX_CHUNK
  }

  /** packed is a correct cut of cur + text, cur still being in its first chunk. */
  predicate CutOf(packed: seq<Bytes>, cur: Bytes, text: Bytes) {
    Concat(packed) == cur + text && RowsOk(packed) && Greedy(packed)
    && (cur != [] ==> packed != [] && cur <= packed[0])
  }

  lemma {:induction false} PackLaw(cur: Bytes, text: Bytes)
    requires Valid(text) && Valid(cur) && |cur| <= MAX_CHUNK
    ensures CutOf(Pack(cur, text), cur, text)
    decreases |text|
  {
    if text == [] {
    } else {
      var n := RuneLen(text);
      RuneAlone(text);
      if |cur| + n > MAX_CHUNK {
        PackLaw(text[..n], text[n..]);
        PrependFull(cur, text[..n], text, Pack(text[..n], text[n..]));
      } else {
        ValidConcat(cur, text[..n]);
        PackLaw(cur + text[..n], text[n..]);
        KeepFilling(cur, text, n, Pack(cur + text[..n], text[n..]));
      }
    }
  }

  lemma KeepFilling(cur: Bytes, text: Bytes, n: nat, packed: seq<Bytes>)
    requires 0 < n <= |text| && CutOf(packed, cur + text[..n], text[n..])
    ensures CutOf(packed, cur, text)
  {
    assert cur + text[..n] + text[n..] == cur + text;
  }

  lemma PrependFull(cur: Bytes, rune: Bytes, text: Bytes, packed: seq<Bytes>)
    requires Valid(cur) && 0 < |cur| <= MAX_CHUNK && RuneLen(rune) == |rune| > 0 && rune <= text
    requires CutOf(packed, rune, text[|rune|..])
    requires |cur| + |rune| > MAX_CHUNK
    ensures CutOf([cur] + packed, cur, text)
  {
    RuneLenAppend(rune, packed[0][|rune|..]);
    assert packed[0] == rune + packed[0][|rune|..];
    assert ([cur] + packed)[1..] == packed;
    assert rune + text[|rune|..] == text;
  }

  lemma {:induction false} PackOne(cur: Bytes, text: Bytes)
    requires Valid(text) && |cur| + |text| <= MAX_CHUNK && cur + text != []
    ensures Pack(cur, text) == [cur + text]
    decreases |text|
  {
    if text == [] {
      assert cur + text == cur;
    } else {
      var n := RuneLen(text);
      PackOne(cur + text[..n], text[n..]);
      assert cur + text[..n] + text[n..] == cur + text;
    }
  }

  /** The rows of a text: nothing but the text, in whole characters, as full as they can be. */
  lemma SplitLaw(text: Bytes)
    ensures Concat(SplitChunks(text)) == ToValid(text) && Mends(text, Concat(SplitChunks(text)))
    ensures RowsOk(SplitChunks(text)) && Greedy(SplitChunks(text))
    ensures text != [] ==> SplitChunks(text) != []
    ensures Valid(text) && 0 < |text| <= MAX_CHUNK ==> SplitChunks(text) == [text]
  {
    ToValidIsValid(text, false);
    PackLaw([], ToValid(text));
    ToValidFixpoint(text);
    ToValidMends(text, ToValid(text));
    ConcatEmpty(SplitChunks(text));
    if Valid(text) && 0 < |text| <= MAX_CHUNK {
      PackOne([], text);
    }
  }

  /** Concatenation, validity and greed leave only one way to cut a text. */
  lemma {:induction false} GreedyCutUnique(a: seq<Bytes>, b: seq<Bytes>)
    requires RowsOk(a) && Greedy(a) && RowsOk(b) && Greedy(b)
    requires Concat(a) == Concat(b)
    ensures a == b
  {
    if a == [] || b == [] {
      ConcatEmpty(a);
      ConcatEmpty(b);
    } else {
      FirstNotShorter(a, b);
      FirstNotShorter(b, a);
      assert a[0] == Concat(a)[..|a[0]|];
      assert b[0] == Concat(b)[..|b[0]|];
      assert Concat(a[1..]) == Concat(a)[|a[0]|..];
      assert Concat(b[1..]) == Concat(b)[|b[0]|..];
      GreedyCutUnique(a[1..], b[1..]);
    }
  }

  lemma FirstNotShorter(a: seq<Bytes>, b: seq<Bytes>)
    requires a != [] && b != [] && RowsOk(a) && Greedy(a) && RowsOk(b)
    requires Concat(a) == Concat(b)
    ensures |a[0]| >= |b[0]|
  {
    var x, y, c := a[0], b[0], Concat(a);
    assert RowOk(x) && RowOk(y);
    if |x| < |y| {
      Overlap(x, Concat(a[1..]), y, Concat(b[1..]));
      RuneInside(x, y[|x|..], Concat(b[1..]), y);
      NextRune(a);
    }
  }

  /** Two ways to cut one text, the second later. */
  lemma Overlap(x: Bytes, afterX: Bytes, y: Bytes, afterY: Bytes)
    requires x + afterX == y + afterY && |x| < |y|
    ensures y == x + y[|x|..] && afterX == y[|x|..] + afterY && afterX != []
  {
    var c := x + afterX;
    assert x == c[..|x|] && y == c[..|y|] && afterX == c[|x|..] && afterY == c[|y|..];
    assert x == y[..|x|];
  }

  /** When y = x + tail, the character after x fits in y. */
  lemma RuneInside(x: Bytes, tail: Bytes, after: Bytes, y: Bytes)
    requires Valid(x) && Valid(y) && y == x + tail && tail != []
    ensures |x| + RuneLen(tail + after) <= |y|
  {
    ValidCancel(x, tail);
    RuneLenAppend(tail, after);
  }

  lemma NextRune(a: seq<Bytes>)
    requires a != [] && RowsOk(a) && Concat(a[1..]) != []
    ensures |a| > 1 && RuneLen(Concat(a[1..])) == RuneLen(a[1])
  {
    assert a[1..] != [];
    assert a[1..][0] == a[1] && RowOk(a[1]);
    RuneLenAppend(a[1], Concat(a[1..][1..]));
  }

  lemma PackStep(chunks: seq<Bytes>, b: Bytes, rest: Bytes)
    requires Valid(rest) && rest != []
    ensures var n := RuneLen(rest);
            chunks + Pack(b, rest) == if |b| + n > MAX_CHUNK then chunks + [b] + Pack(rest[..n], rest[n..])
                                      else chunks + Pack(b + rest[..n], rest[n..])
  {
  }

  /** The string-builder loop. */
  method SplitArchiveLogChunks(text: Bytes) returns (chunks: seq<Bytes>)
    ensures chunks == SplitChunks(text)
    ensures Mends(text, Concat(chunks)) && RowsOk(chunks) && Greedy(chunks)
  {
    var clean := ToValid(text);
    ToValidIsValid(text, false);
    chunks := [];
    var b: Bytes := [];
    var rest := clean;
    while rest != []
      invariant Valid(rest)
      invariant chunks + Pack(b, rest) == Pack([], clean)
      decreases |rest|
    {
      PackStep(chunks, b, rest);
      var part := rest[..RuneLen(rest)];
      if |b| + |part| > MAX_CHUNK {
        chunks := chunks + [b];
        b := [];
        assert [] + part == part;
      }
      b := b + part;
      rest := rest[|part|..];
    }
    if |b| > 0 {
      chunks := chunks + [b];
    }
    SplitLaw(text);
  }

  // ----- How much of the buffer one pass removes

  /** The longest valid prefix of b among its first m bytes; 0 when only the empty one is valid. */
  function LongestValid(b: Bytes, m: nat): (n: nat)
    requires m <= |b|
    ensures n <= m && Valid(b[..n])
    ensures forall k :: n < k <= m ==> !Valid(b[..k])
  {
    if m == 0 then 0
    else if Valid(b[..m]) then m
    else LongestValid(b, m - 1)
  }

  function ValidPrefixLen(b: Bytes, maxLen: nat, force: bool): (n: nat)
    ensures n <= |b| && n <= maxLen
  {
    var m := if maxLen > |b| then |b| else maxLen;
    var n := LongestValid(b, m);
    if n > 0 then n
    else if force || |b| >= MAX_CHUNK then m
    else 0
  }

  function IndexOfNewline(b: Bytes): (i: nat)
    ensures i <= |b|
    ensures i < |b| ==> b[i] == NEWLINE
    ensures forall k :: 0 <= k < i ==> b[k] != NEWLINE
  {
    if b == [] || b[0] == NEWLINE then 0 else 1 + IndexOfNewline(b[1..])
  }

  function FlushLen(b: Bytes, force: bool): (n: nat)
    ensures n <= |b|
  {
    var newline := IndexOfNewline(b);
    if b == [] then 0
    else if newline < |b| && newline + 1 <= MAX_CHUNK then newline + 1
    else if |b| < MAX_CHUNK && !force then 0
    else ValidPrefixLen(b, MAX_CHUNK, force)
  }

  method ValidUTF8PrefixLen(b: Bytes, maxLen: nat, force: bool) returns (n: nat)
    ensures n == ValidPrefixLen(b, maxLen, force)
    ensures n > 0 && Valid(b[..n]) ==> forall k :: n < k <= maxLen && k <= |b| ==> !Valid(b[..k])
    ensures n == 0 || !Valid(b[..n]) ==> forall k :: 0 < k <= maxLen && k <= |b| ==> !Valid(b[..k])
  {
    var m := maxLen;
    if m > |b| {
      m := |b|;
    }
    if m == 0 {
      return 0;
    }
    n := m;
    while n > 0
      invariant n <= m && LongestValid(b, n) == LongestValid(b, m)
    {
      if Valid(b[..n]) {
        return n;
      }
      n := n - 1;
    }
    if force || |b| >= MAX_CHUNK {
      return m;
    }
    return 0;
  }

  /** A pass takes at least one byte unless the buffer is a short unfinished line. */
  lemma FlushLenLaw(b: Bytes, force: bool)
    ensures FlushLen(b, force) <= |b| && FlushLen(b, force) <= MAX_CHUNK
    ensures FlushLen(b, true) == 0 <==> b == []
    ensures FlushLen(b, false) == 0 <==> |b| < MAX_CHUNK && NEWLINE !in b
  {
    var newline := IndexOfNewline(b);
    if newline < |b| {
      assert b[newline] in b;
    }
  }

  /**
   * What a pass takes: the first line if it ends within the bound; else, of a full or forced buffer, the longest complete
   * text within the bound, or everything within it when no text is complete.
   */
  lemma PassTakes(b: Bytes, force: bool)
    ensures var n, m := FlushLen(b, force), if |b| < MAX_CHUNK then |b| else MAX_CHUNK;
            && (NEWLINE in b[..m] ==> n > 0 && b[n - 1] == NEWLINE && NEWLINE !in b[..n - 1])
            && (NEWLINE !in b[..m] && |b| < MAX_CHUNK && !force ==> n == 0)
            && (NEWLINE !in b[..m] && (|b| >= MAX_CHUNK || force) ==>
                  || (Valid(b[..n]) && (n == 0 ==> b == []) && forall k :: n < k <= m ==> !Valid(b[..k]))
                  || (n == m && forall k :: 0 < k <= m ==> !Valid(b[..k])))
  {
    var i, m := IndexOfNewline(b), if |b| < MAX_CHUNK then |b| else MAX_CHUNK;
    assert forall k :: 0 <= k < m ==> b[..m][k] == b[k];
    if i < m { assert b[..m][i] == NEWLINE; }
  }

  lemma ForcedPassMoves(b: Bytes)
    requires b != []
    ensures FlushLen(b, true) > 0
  {
    FlushLenLaw(b, true);
  }

  /** Of a prefix of valid text, an unforced pass always takes whole characters. */
  lemma UnforcedPassIsWhole(b: Bytes)
    requires PrefixOfValid(b)
    ensures Valid(b[..FlushLen(b, false)])
  {
    var newline := IndexOfNewline(b);
    if b == [] {
    } else if newline < |b| && newline + 1 <= MAX_CHUNK {
      AsciiEndsRune(b, newline);
    } else if |b| >= MAX_CHUNK {
      PrefixHasRune(b);
      RuneAlone(b);
      assert LongestValid(b, MAX_CHUNK) >= RuneLen(b);
    }
  }

  lemma ForcedPassIsWhole(b: Bytes)
    requires Valid(b)
    ensures Valid(b[..FlushLen(b, true)])
  {
    ValidIsPrefix(b);
    var newline := IndexOfNewline(b);
    if b == [] {
    } else if newline < |b| && newline + 1 <= MAX_CHUNK {
      AsciiEndsRune(b, newline);
    } else {
      RuneAlone(b);
      assert b[..|b|] == b;
    }
  }

  // ----- Any number of successful passes

  datatype Drained = Drained(chunks: seq<Bytes>, rest: Bytes)

  /** passes successful passes over b; a pass with nothing to take changes nothing. */
  ghost function Drain(b: Bytes, force: bool, passes: nat): Drained {
    if passes == 0 then Drained([], b)
    else
      var d := Drain(b, force, passes - 1);
      var n := FlushLen(d.rest, force);
      if n == 0 then d else Pass(d, n)
  }

  ghost function Pass(d: Drained, n: nat): Drained
    requires n <= |d.rest|
  {
    Drained(d.chunks + SplitChunks(d.rest[..n]), d.rest[n..])
  }

  lemma PassRowsOk(d: Drained, n: nat)
    requires n <= |d.rest| && RowsOk(d.chunks)
    ensures RowsOk(Pass(d, n).chunks)
  {
    SplitLaw(d.rest[..n]);
  }

  lemma PassConserves(d: Drained, n: nat)
    requires n <= |d.rest| && Valid(d.rest[..n])
    ensures Concat(Pass(d, n).chunks) + Pass(d, n).rest == Concat(d.chunks) + d.rest
  {
    PassAppends(d, n);
    Regroup(Concat(d.chunks), d.rest, n);
  }

  lemma PassAppends(d: Drained, n: nat)
    requires n <= |d.rest| && Valid(d.rest[..n])
    ensures Concat(Pass(d, n).chunks) == Concat(d.chunks) + d.rest[..n]
  {
    SplitLaw(d.rest[..n]);
    ToValidFixpoint(d.rest[..n]);
    ConcatAppend(d.chunks, SplitChunks(d.rest[..n]));
  }

  lemma Regroup(a: Bytes, b: Bytes, n: nat)
    requires n <= |b|
    ensures a + b[..n] + b[n..] == a + b
  {
    assert b[..n] + b[n..] == b;
  }

  lemma {:induction false} DrainRowsOk(b: Bytes, force: bool, passes: nat)
    ensures RowsOk(Drain(b, force, passes).chunks)
  {
    if passes > 0 {
      var d := Drain(b, force, passes - 1);
      DrainRowsOk(b, force, passes - 1);
      if FlushLen(d.rest, force) > 0 {
        PassRowsOk(d, FlushLen(d.rest, force));
      }
    }
  }

  /** all is taken in order in parts, but for rest, and what is stored is the parts, each of them mended. */
  ghost predicate Accounted(all: Bytes, rest: Bytes, chunks: seq<Bytes>) {
    exists parts: seq<Bytes>, texts: seq<Bytes> :: IsAccount(all, rest, chunks, parts, texts)
  }

  ghost predicate IsAccount(all: Bytes, rest: Bytes, chunks: seq<Bytes>, parts: seq<Bytes>, texts: seq<Bytes>) {
    Concat(parts) + rest == all && Concat(texts) == Concat(chunks) && AllMended(parts, texts)
  }

  ghost predicate AllMended(parts: seq<Bytes>, texts: seq<Bytes>) {
    |parts| == |texts| && forall i :: 0 <= i < |parts| ==> 0 < |parts[i]| <= MAX_CHUNK && Mends(parts[i], texts[i])
  }

  lemma NothingTaken(b: Bytes)
    ensures Accounted(b, b, [])
  {
    assert Concat([]) + b == b;
    assert IsAccount(b, b, [], [], []);
  }

  lemma AllMendedAppend(parts: seq<Bytes>, texts: seq<Bytes>, more: seq<Bytes>, moreTexts: seq<Bytes>)
    requires AllMended(parts, texts) && AllMended(more, moreTexts)
    ensures AllMended(parts + more, texts + moreTexts)
  {
  }

  /** Accounts of two calls, one behind the other, with more bytes between them. */
  lemma AccountsJoin(all: Bytes, rest: Bytes, chunks: seq<Bytes>, more: Bytes, rest2: Bytes, chunks2: seq<Bytes>)
    requires Accounted(all, rest, chunks) && Accounted(rest + more, rest2, chunks2)
    ensures Accounted(all + more, rest2, chunks + chunks2)
  {
    var p, x: seq<Bytes> :| IsAccount(all, rest, chunks, p, x);
    var p2, x2: seq<Bytes> :| IsAccount(rest + more, rest2, chunks2, p2, x2);
    AllMendedAppend(p, x, p2, x2);
    Rejoin(p, rest, more, p2, rest2);
    ConcatAppend(x, x2);
    ConcatAppend(chunks, chunks2);
    assert IsAccount(all + more, rest2, chunks + chunks2, p + p2, x + x2);
  }

  lemma Rejoin(parts: seq<Bytes>, rest: Bytes, more: Bytes, parts2: seq<Bytes>, rest2: Bytes)
    requires Concat(parts2) + rest2 == rest + more
    ensures Concat(parts + parts2) + rest2 == Concat(parts) + rest + more
  {
    ConcatAppend(parts, parts2);
    var p, p2 := Concat(parts), Concat(parts2);
    assert p + p2 + rest2 == p + (p2 + rest2);
    assert p + rest + more == p + (rest + more);
  }

  lemma ConcatOne(x: Bytes)
    ensures Concat([x]) == x
  {
    assert [x][1..] == [];
  }

  lemma OnePart(b: Bytes, part: Bytes, rest: Bytes, chunks: seq<Bytes>)
    requires part + rest == b && 0 < |part| <= MAX_CHUNK && Mends(part, Concat(chunks))
    ensures Accounted(b, rest, chunks)
  {
    ConcatOne(part);
    ConcatOne(Concat(chunks));
    assert IsAccount(b, rest, chunks, [part], [Concat(chunks)]);
  }

  lemma PartTaken(b: Bytes, n: nat)
    requires 0 < n <= |b| && n <= MAX_CHUNK
    ensures Accounted(b, b[n..], SplitChunks(b[..n]))
  {
    SplitLaw(b[..n]);
    OnePart(b, b[..n], b[n..], SplitChunks(b[..n]));
  }

  lemma PassAccounted(b: Bytes, d: Drained, n: nat)
    requires Accounted(b, d.rest, d.chunks) && 0 < n <= |d.rest| && n <= MAX_CHUNK
    ensures Accounted(b, Pass(d, n).rest, Pass(d, n).chunks)
  {
    PartTaken(d.rest, n);
    assert d.rest + [] == d.rest && b + [] == b;
    AccountsJoin(b, d.rest, d.chunks, [], d.rest[n..], SplitChunks(d.rest[..n]));
  }

  /** Whatever the bytes, passes take them in order and store every part mended: nothing is dropped, moved or repeated. */
  lemma {:induction false} DrainAccounted(b: Bytes, force: bool, passes: nat)
    ensures Accounted(b, Drain(b, force, passes).rest, Drain(b, force, passes).chunks)
  {
    if passes == 0 {
      NothingTaken(b);
    } else {
      var d := Drain(b, force, passes - 1);
      DrainAccounted(b, force, passes - 1);
      FlushLenLaw(d.rest, force);
      if FlushLen(d.rest, force) > 0 { PassAccounted(b, d, FlushLen(d.rest, force)); }
    }
  }

  /** What the bytes must be for passes to take whole characters only. */
  ghost predicate Whole(b: Bytes, force: bool) {
    if force then Valid(b) else PrefixOfValid(b)
  }

  lemma PassIsWhole(b: Bytes, force: bool)
    requires Whole(b, force)
    ensures Valid(b[..FlushLen(b, force)]) && Whole(b[FlushLen(b, force)..], force)
  {
    var n := FlushLen(b, force);
    assert b == b[..n] + b[n..];
    if force {
      ForcedPassIsWhole(b);
      ValidCancel(b[..n], b[n..]);
    } else {
      UnforcedPassIsWhole(b);
      PrefixCancel(b[..n], b[n..]);
    }
  }

  /** Nothing of b is lost or changed, and what is left can still be taken whole. */
  ghost predicate Intact(b: Bytes, force: bool, d: Drained) {
    Concat(d.chunks) + d.rest == b && Whole(d.rest, force)
  }

  lemma PassIntact(b: Bytes, force: bool, d: Drained)
    requires Intact(b, force, d)
    ensures Intact(b, force, Pass(d, FlushLen(d.rest, force)))
  {
    PassIsWhole(d.rest, force);
    PassConserves(d, FlushLen(d.rest, force));
  }

  /** Passes that take whole characters move bytes and change none. */
  lemma {:induction false} DrainConserves(b: Bytes, force: bool, passes: nat)
    requires Whole(b, force)
    ensures Intact(b, force, Drain(b, force, passes))
  {
    if passes == 0 {
      assert Concat([]) + b == b;
    } else {
      DrainConserves(b, force, passes - 1);
      PassIntact(b, force, Drain(b, force, passes - 1));
    }
  }

  /**
   * A Flush that empties the buffer stores exactly the buffered bytes if and only if they are
   * complete characters: an unfinished last character is stored as U+FFFD.
   */
  lemma FlushConservesIffComplete(b: Bytes, passes: nat)
    requires Drain(b, true, passes).rest == []
    ensures Concat(Drain(b, true, passes).chunks) == b <==> Valid(b)
  {
    if Valid(b) {
      DrainConserves(b, true, passes);
    } else {
      DrainRowsOk(b, true, passes);
      RowsOkConcatValid(Drain(b, true, passes).chunks);
    }
  }

  lemma HalfEuro(b: Bytes)
    requires b == [0xE2]
    ensures PrefixOfValid(b)
  {
    var euro: Bytes := [0xE2, 0x82, 0xAC];
    assert Valid(euro) by { assert euro[3..] == []; }
    assert b + [0x82, 0xAC] == euro;
  }

  lemma HalfEuroTaken(b: Bytes)
    requires b == [0xE2]
    ensures FlushLen(b, true) == 1
  {
    assert IndexOfNewline(b) == 1;
    assert b[..1] == b;
    assert LongestValid(b, 1) == 0;
  }

  lemma HalfEuroStored(b: Bytes)
    requires b == [0xE2]
    ensures SplitChunks(b) == [REPLACEMENT]
  {
    assert b[1..] == [];
    assert ToValid(b) == REPLACEMENT by { assert ToValid(b[1..], true) == []; }
    ReplacementIsValid();
    PackOne([], REPLACEMENT);
    assert [] + REPLACEMENT == REPLACEMENT;
  }

  /** The concrete case: flushing after the first byte of a three-byte character. */
  lemma FlushMidCharacterLosesBytes(b: Bytes)
    requires b == [0xE2]
    ensures PrefixOfValid(b)
    ensures Drain(b, true, 1) == Drained([REPLACEMENT], [])
  {
    HalfEuro(b);
    HalfEuroTaken(b);
    HalfEuroStored(b);
    var d := Drain(b, true, 0);
    assert b[..1] == b && b[1..] == [];
    assert Drain(b, true, 1) == Pass(d, 1);
    assert [] + SplitChunks(b) == SplitChunks(b);
  }

  // ----- Whole histories

  /** passes counts the inserts that succeeded before the call returned or failed. */
  datatype Event = Write(p: Bytes, passes: nat) | Flush(passes: nat)

  ghost function Written(events: seq<Event>): Bytes {
    if events == [] then []
    else
      var last := events[|events| - 1];
      Written(events[..|events| - 1]) + (if last.Write? then last.p else [])
  }

  /** The rows stored and the buffer left by a history. */
  ghost function Run(events: seq<Event>): Drained {
    if events == [] then Drained([], [])
    else
      var before := Run(events[..|events| - 1]);
      var last := events[|events| - 1];
      var more := if last.Write? then last.p else [];
      var d := Drain(before.rest + more, last.Flush?, last.passes);
      Drained(before.chunks + d.chunks, d.rest)
  }

  /** Flush is only called when the text written so far is complete. */
  ghost predicate FlushesComplete(events: seq<Event>) {
    forall i :: 0 <= i < |events| && events[i].Flush? ==> Valid(Written(events[..i]))
  }

  /** Whatever is written and whichever inserts fail, every stored row is a well-formed row. */
  lemma {:induction false} RunRowsOk(events: seq<Event>)
    ensures RowsOk(Run(events).chunks)
  {
    if events != [] {
      var before := Run(events[..|events| - 1]);
      var last := events[|events| - 1];
      RunRowsOk(events[..|events| - 1]);
      DrainRowsOk(before.rest + (if last.Write? then last.p else []), last.Flush?, last.passes);
    }
  }

  /** The same over every history on arbitrary bytes: all that was written is stored mended, part by part, or still buffered. */
  lemma {:induction false} RunAccounted(events: seq<Event>)
    ensures Accounted(Written(events), Run(events).rest, Run(events).chunks)
  {
    if events == [] {
      NothingTaken([]);
    } else {
      var prior, last := events[..|events| - 1], events[|events| - 1];
      var before, more := Run(prior), if last.Write? then last.p else [];
      RunAccounted(prior);
      DrainAccounted(before.rest + more, last.Flush?, last.passes);
      var d := Drain(before.rest + more, last.Flush?, last.passes);
      AccountsJoin(Written(prior), before.rest, before.chunks, more, d.rest, d.chunks);
    }
  }

  /**
   * Log conservation: while the bytes written are a prefix of valid text, stored rows plus buffer
   * are exactly what was written, over every history of writes, flushes and failing inserts.
   */
  lemma {:induction false} RunConserves(events: seq<Event>)
    requires PrefixOfValid(Written(events)) && FlushesComplete(events)
    ensures Concat(Run(events).chunks) + Run(events).rest == Written(events)
  {
    if events != [] {
      var k := |events| - 1;
      var prior, last := events[..k], events[k];
      PrefixShorter(Written(prior), if last.Write? then last.p else []);
      assert forall i :: 0 <= i < k ==> prior[..i] == events[..i];
      RunConserves(prior);
      RunRowsOk(prior);
      EventConserves(Run(prior), last, Written(prior));
    }
  }

  lemma EventConserves(before: Drained, event: Event, written: Bytes)
    requires RowsOk(before.chunks) && Concat(before.chunks) + before.rest == written
    requires if event.Write? then PrefixOfValid(written + event.p) else Valid(written)
    ensures var more := if event.Write? then event.p else [];
            var d := Drain(before.rest + more, event.Flush?, event.passes);
            Concat(before.chunks + d.chunks) + d.rest == written + more
  {
    var more := if event.Write? then event.p else [];
    RowsOkConcatValid(before.chunks);
    WholeRest(Concat(before.chunks), before.rest, more, event.Flush?);
    DrainConserves(before.rest + more, event.Flush?, event.passes);
    var d := Drain(before.rest + more, event.Flush?, event.passes);
    JoinDrained(before, more, d);
  }

  lemma WholeRest(stored: Bytes, rest: Bytes, more: Bytes, force: bool)
    requires Valid(stored)
    requires if force then more == [] && Valid(stored + rest) else PrefixOfValid(stored + rest + more)
    ensures Whole(rest + more, force)
  {
    if force {
      assert rest + more == rest;
      ValidCancel(stored, rest);
    } else {
      assert stored + rest + more == stored + (rest + more);
      PrefixCancel(stored, rest + more);
    }
  }

  lemma JoinDrained(before: Drained, more: Bytes, d: Drained)
    requires Concat(d.chunks) + d.rest == before.rest + more
    ensures Concat(before.chunks + d.chunks) + d.rest == Concat(before.chunks) + before.rest + more
  {
    ConcatAppend(before.chunks, d.chunks);
    var x, y := Concat(before.chunks), Concat(d.chunks);
    assert x + y + d.rest == x + (y + d.rest);
    assert x + before.rest + more == x + (before.rest + more);
  }

  // ----- The objects

  /** Table archive_item_logs. An insert may fail; several chunks go in as one transaction. */
  class LogTable {
    var rows: seq<LogRow>
    /** How often the database has refused a statement. */
    ghost var faults: nat

    constructor ()
      ensures rows == []
    {
      rows := [];
    }

    /** One INSERT, which the database may refuse. */
    method Insert(row: LogRow) returns (ok: bool)
      modifies this
      ensures rows == if ok then old(rows) + [row] else old(rows)
      ensures faults == old(faults) + (if ok then 0 else 1)
    {
      ok := *;
      if ok {
        rows := rows + [row];
      } else {
        faults := faults + 1;
      }
    }

    method AppendChunks(item: nat, attempt: int, chunks: seq<Bytes>) returns (ok: bool)
      requires RowsOk(chunks)
      modifies this
      ensures rows == if ok then old(rows) + Rows(item, attempt, chunks) else old(rows)
      ensures faults == old(faults) + (if ok then 0 else 1)
    {
      var snapshot := rows;
      var i := 0;
      while i < |chunks|
        invariant 0 <= i <= |chunks|
        invariant rows == old(rows) + Rows(item, attempt, chunks[..i]) && faults == old(faults)
      {
        ok := false;
        if |chunks[i]| <= MAX_CHUNK {
          ok := Insert(LogRow(item, attempt, chunks[i]));
        }
        if !ok {
          rows := snapshot;
          return false;
        }
        assert chunks[..i + 1] == chunks[..i] + [chunks[i]];
        RowsAppend(item, attempt, chunks[..i], [chunks[i]]);
        i := i + 1;
      }
      assert chunks[..i] == chunks;
      return true;
    }
  }

  ghost function Rows(item: nat, attempt: int, chunks: seq<Bytes>): (rows: seq<LogRow>) {
    if chunks == [] then [] else [LogRow(item, attempt, chunks[0])] + Rows(item, attempt, chunks[1..])
  }

  lemma {:induction false} RowsAppend(item: nat, attempt: int, a: seq<Bytes>, b: seq<Bytes>)
    ensures Rows(item, attempt, a + b) == Rows(item, attempt, a) + Rows(item, attempt, b)
  {
    if a == [] {
      assert a + b == b;
    } else {
      assert (a + b)[1..] == a[1..] + b;
      RowsAppend(item, attempt, a[1..], b);
    }
  }

  /** The chunks one attempt at an item has in the table, in id order. */
  function OwnChunks(rows: seq<LogRow>, item: nat, attempt: int): seq<Bytes> {
    if rows == [] then []
    else (if rows[0].item == item && rows[0].attempt == attempt then [rows[0].chunk] else []) + OwnChunks(rows[1..], item, attempt)
  }

  lemma {:induction false} OwnAppend(a: seq<LogRow>, b: seq<LogRow>, item: nat, attempt: int)
    ensures OwnChunks(a + b, item, attempt) == OwnChunks(a, item, attempt) + OwnChunks(b, item, attempt)
  {
    if a == [] {
      assert a + b == b;
    } else {
      assert (a + b)[1..] == a[1..] + b;
      OwnAppend(a[1..], b, item, attempt);
    }
  }

  lemma {:induction false} OwnRows(item: nat, attempt: int, chunks: seq<Bytes>)
    ensures OwnChunks(Rows(item, attempt, chunks), item, attempt) == chunks
  {
    if chunks != [] { OwnRows(item, attempt, chunks[1..]); }
  }

  lemma OwnAfter(before: seq<LogRow>, item: nat, attempt: int, earlier: seq<Bytes>, chunks: seq<Bytes>, more: seq<Bytes>)
    requires OwnChunks(before, item, attempt) == earlier + chunks
    ensures OwnChunks(before + Rows(item, attempt, more), item, attempt) == earlier + (chunks + more)
  {
    OwnAppend(before, Rows(item, attempt, more), item, attempt);
    OwnRows(item, attempt, more);
    Reassociate(earlier, chunks, more);
  }

  lemma Reassociate(a: seq<Bytes>, b: seq<Bytes>, c: seq<Bytes>)
    ensures a + b + c == a + (b + c)
  {
  }

  lemma RowsOfPass(d: Drained, n: nat, before: seq<LogRow>, item: nat, attempt: int)
    requires n <= |d.rest|
    ensures before + Rows(item, attempt, Pass(d, n).chunks)
            == before + Rows(item, attempt, d.chunks) + Rows(item, attempt, SplitChunks(d.rest[..n]))
  {
    RowsAppend(item, attempt, d.chunks, SplitChunks(d.rest[..n]));
  }

  /** d is what passes passes over all leave. */
  ghost predicate IsDrain(all: Bytes, force: bool, passes: nat, d: Drained) {
    d == Drain(all, force, passes)
  }

  lemma DrainStart(b: Bytes, force: bool)
    ensures IsDrain(b, force, 0, Drained([], b))
  {
  }

  lemma DrainNext(b: Bytes, force: bool, passes: nat, d: Drained)
    requires IsDrain(b, force, passes, d) && FlushLen(d.rest, force) > 0
    ensures IsDrain(b, force, passes + 1, Pass(d, FlushLen(d.rest, force)))
  {
  }

  lemma RunNext(history: seq<Event>, event: Event, all: Bytes)
    requires if event.Write? then all == Run(history).rest + event.p else all == Run(history).rest
    ensures var d := Drain(all, event.Flush?, event.passes);
            Run(history + [event]) == Drained(Run(history).chunks + d.chunks, d.rest)
  {
    assert (history + [event])[..|history|] == history;
    assert event.Flush? ==> Run(history).rest + [] == all;
  }

  class DBLogWriter {
    const table: LogTable
    const itemID: nat
    const attempt: int
    var buffer: Bytes
    /** Every call so far, and the rows its attempt had before the first. */
    ghost var history: seq<Event>
    ghost const earlier: seq<Bytes>

    /** The table's rows of this attempt, and the buffer, are what the history of calls leaves. */
    ghost predicate Valid()
      reads this, table
    {
      buffer == Run(history).rest && OwnChunks(table.rows, itemID, attempt) == earlier + Run(history).chunks
    }

    constructor (table: LogTable, itemID: nat, attempt: int)
      ensures this.table == table && this.itemID == itemID && this.attempt == attempt
      ensures Valid() && history == [] && earlier == OwnChunks(table.rows, itemID, attempt)
    {
      this.table := table;
      this.itemID := itemID;
      this.attempt := attempt;
      this.buffer := [];
      this.history := [];
      this.earlier := OwnChunks(table.rows, itemID, attempt);
    }

    /** Log conservation, for the object: what this writer has stored, then its buffer, is all that was written to it. */
    lemma Conserves()
      requires Valid() && PrefixOfValid(Written(history)) && FlushesComplete(history)
      ensures earlier <= OwnChunks(table.rows, itemID, attempt)
      ensures Concat(OwnChunks(table.rows, itemID, attempt)[|earlier|..]) + buffer == Written(history)
    {
      RunConserves(history);
      assert (earlier + Run(history).chunks)[|earlier|..] == Run(history).chunks;
    }

    /** On arbitrary bytes: what this writer has stored is all that was written to it but for the buffer, mended part by part. */
    lemma Accounts()
      requires Valid()
      ensures earlier <= OwnChunks(table.rows, itemID, attempt)
      ensures Accounted(Written(history), buffer, OwnChunks(table.rows, itemID, attempt)[|earlier|..])
    {
      RunAccounted(history);
      assert (earlier + Run(history).chunks)[|earlier|..] == Run(history).chunks;
    }

    method NextFlushLen(force: bool) returns (n: nat)
      ensures n == FlushLen(buffer, force)
    {
      if |buffer| == 0 {
        return 0;
      }
      var newline := IndexOfNewline(buffer);
      if newline < |buffer| && newline + 1 <= MAX_CHUNK {
        return newline + 1;
      }
      if |buffer| < MAX_CHUNK && !force {
        return 0;
      }
      n := ValidUTF8PrefixLen(buffer, MAX_CHUNK, force);
    }

    method FlushPrefix(n: nat) returns (ok: bool)
      requires n <= |buffer|
      modifies this`buffer, table
      ensures ok ==> table.rows == old(table.rows) + Rows(itemID, attempt, SplitChunks(old(buffer)[..n]))
      ensures ok ==> buffer == old(buffer)[n..]
      ensures !ok ==> table.rows == old(table.rows) && buffer == old(buffer)
      ensures table.faults == old(table.faults) + (if ok then 0 else 1)
    {
      var chunk := ToValid(buffer[..n]);
      ToValidIsValid(buffer[..n], false);
      ToValidFixpoint(chunk);
      var chunks := SplitArchiveLogChunks(chunk);
      ok := table.AppendChunks(itemID, attempt, chunks);
      if ok {
        buffer := buffer[n..];
      }
    }

    /** The buffer is what was left of it, and the rows since before are the chunks taken. */
    ghost predicate Moved(d: Drained, before: seq<LogRow>)
      reads this, table
    {
      buffer == d.rest && table.rows == before + Rows(itemID, attempt, d.chunks)
    }

    /** One pass of either loop. */
    method TakePass(n: nat, force: bool, ghost all: Bytes, ghost passes: nat, ghost d: Drained, ghost before: seq<LogRow>)
      returns (ok: bool, ghost after: Drained)
      requires IsDrain(all, force, passes, d) && Moved(d, before) && n == FlushLen(buffer, force) > 0
      modifies this`buffer, table
      ensures Moved(after, before) && IsDrain(all, force, if ok then passes + 1 else passes, after)
      ensures if ok then |buffer| < |old(buffer)| else |buffer| > 0
      ensures table.faults == old(table.faults) + (if ok then 0 else 1)
    {
      DrainNext(all, force, passes, d);
      RowsOfPass(d, n, before, itemID, attempt);
      ok := FlushPrefix(n);
      after := if ok then Pass(d, n) else d;
    }

    /** A call of so many passes joins the history. */
    ghost method Remember(event: Event, all: Bytes, d: Drained, before: seq<LogRow>)
      requires IsDrain(all, event.Flush?, event.passes, d) && Moved(d, before)
      requires if event.Write? then all == Run(history).rest + event.p else all == Run(history).rest
      requires OwnChunks(before, itemID, attempt) == earlier + Run(history).chunks
      modifies this`history
      ensures Valid() && history == old(history) + [event]
    {
      RunNext(history, event, all);
      OwnAfter(before, itemID, attempt, earlier, Run(history).chunks, d.chunks);
      history := history + [event];
    }

    /** Write's loop: some whole number of passes succeeds, and without an error no pass is left to make. */
    method MoveFullChunks() returns (ok: bool, ghost passes: nat, ghost d: Drained)
      modifies this`buffer, table
      ensures IsDrain(old(buffer), false, passes, d) && Moved(d, old(table.rows))
      ensures ok ==> |buffer| < MAX_CHUNK && NEWLINE !in buffer
      ensures table.faults == old(table.faults) + (if ok then 0 else 1)
    {
      passes, ok, d := 0, true, Drained([], buffer);
      DrainStart(buffer, false);
      while true
        invariant IsDrain(old(buffer), false, passes, d) && Moved(d, old(table.rows))
        invariant ok && table.faults == old(table.faults)
        decreases |buffer|
      {
        var flushLen := NextFlushLen(false);
        if flushLen == 0 {
          FlushLenLaw(buffer, false);
          break;
        }
        ok, d := TakePass(flushLen, false, old(buffer), passes, d, old(table.rows));
        if !ok {
          break;
        }
        passes := passes + 1;
      }
    }

    /** Flush's loop. */
    method MoveAll() returns (ok: bool, ghost passes: nat, ghost d: Drained)
      modifies this`buffer, table
      ensures IsDrain(old(buffer), true, passes, d) && Moved(d, old(table.rows))
      ensures ok <==> buffer == []
      ensures table.faults == old(table.faults) + (if ok then 0 else 1)
    {
      passes, ok, d := 0, true, Drained([], buffer);
      DrainStart(buffer, true);
      while |buffer| > 0
        invariant IsDrain(old(buffer), true, passes, d) && Moved(d, old(table.rows))
        invariant ok && table.faults == old(table.faults)
        decreases |buffer|
      {
        ForcedPassMoves(buffer);
        var flushLen := NextFlushLen(true);
        if flushLen == 0 {
          flushLen := |buffer|;
        }
        ok, d := TakePass(flushLen, true, old(buffer), passes, d, old(table.rows));
        if !ok {
          break;
        }
        passes := passes + 1;
      }
    }

    /** Some whole number of passes succeeds; without an error no pass is left to make. */
    method Write(p: Bytes) returns (n: nat, ok: bool, ghost passes: nat)
      requires Valid()
      modifies this, table
      ensures n == |p|
      ensures Moved(Drain(old(buffer) + p, false, passes), old(table.rows))
      ensures Accounted(old(buffer) + p, buffer, Drain(old(buffer) + p, false, passes).chunks)
      ensures Valid() && history == old(history) + [Event.Write(p, passes)]
      ensures ok ==> |buffer| < MAX_CHUNK && NEWLINE !in buffer
      ensures table.faults == old(table.faults) + (if ok then 0 else 1)
    {
      buffer := buffer + p;
      ghost var d;
      ok, passes, d := MoveFullChunks();
      n := |p|;
      DrainAccounted(old(buffer) + p, false, passes);
      Remember(Event.Write(p, passes), old(buffer) + p, d, old(table.rows));
    }

    /** Without an error the buffer is empty. */
    method Flush() returns (ok: bool, ghost passes: nat)
      requires Valid()
      modifies this, table
      ensures Moved(Drain(old(buffer), true, passes), old(table.rows))
      ensures Accounted(old(buffer), buffer, Drain(old(buffer), true, passes).chunks)
      ensures Valid() && history == old(history) + [Event.Flush(passes)]
      ensures ok <==> buffer == []
      ensures table.faults == old(table.faults) + (if ok then 0 else 1)
    {
      ghost var d;
      ok, passes, d := MoveAll();
      DrainAccounted(old(buffer), true, passes);
      Remember(Event.Flush(passes), old(buffer), d, old(table.rows));
    }
  }
}
