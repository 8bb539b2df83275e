/** A stream passed through unchanged while a phrase is looked for across the cuts. */
module PhraseWatcher {
  import opened Utf8

  /** phrase starts somewhere in text. */
  ghost predicate Occurs(phrase: Bytes, text: Bytes) {
    exists i :: OccursAt(phrase, text, i)
  }

  predicate OccursAt(phrase: Bytes, text: Bytes, i: int) {
    0 <= i && i + |phrase| <= |text| && text[i..i + |phrase|] == phrase
  }

  /** bytes.Contains. */
  method Contains(text: Bytes, phrase: Bytes) returns (found: bool)
    ensures found <==> Occurs(phrase, text)
  {
    var i := 0;
    while i + |phrase| <= |text|
      invariant forall k :: 0 <= k < i ==> !OccursAt(phrase, text, k)
    {
      if text[i..i + |phrase|] == phrase {
        assert OccursAt(phrase, text, i);
        return true;
      }
      i := i + 1;
    }
    return false;
  }

  /** Enough of an unmatched stream's end to see any match that a later write completes. */
  ghost predicate Covers(tail: Bytes, stream: Bytes, phrase: Bytes) {
    && |tail| <= |stream| && stream[|stream| - |tail|..] == tail
    && (|tail| + 1 >= |phrase| || tail == stream)
  }

  /** A match in the longer stream is a match in the window, if there was none before. */
  lemma WindowSeesStraddlers(stream: Bytes, tail: Bytes, p: Bytes, phrase: Bytes)
    requires Covers(tail, stream, phrase) && !Occurs(phrase, stream)
    ensures Occurs(phrase, tail + p) <==> Occurs(phrase, stream + p)
  {
    var skip := |stream| - |tail|;
    assert stream + p == stream[..skip] + (tail + p);
    if i :| OccursAt(phrase, tail + p, i) {
      assert (stream + p)[skip + i..skip + i + |phrase|] == (tail + p)[i..i + |phrase|];
      assert OccursAt(phrase, stream + p, skip + i);
    }
    if j :| OccursAt(phrase, stream + p, j) {
      if j + |phrase| <= |stream| {
        MatchInsideStream(phrase, stream, p, j);
      } else {
        assert (stream + p)[j..j + |phrase|] == (tail + p)[j - skip..j - skip + |phrase|];
        assert OccursAt(phrase, tail + p, j - skip);
      }
    }
  }

  lemma MatchInsideStream(phrase: Bytes, stream: Bytes, p: Bytes, j: nat)
    requires j + |phrase| <= |stream|
    ensures OccursAt(phrase, stream + p, j) <==> OccursAt(phrase, stream, j)
  {
    assert (stream + p)[j..j + |phrase|] == stream[j..j + |phrase|];
  }

  lemma OccursStays(phrase: Bytes, stream: Bytes, p: Bytes)
    requires Occurs(phrase, stream)
    ensures Occurs(phrase, stream + p)
  {
    var i :| OccursAt(phrase, stream, i);
    MatchInsideStream(phrase, stream, p, i);
  }

  class Sink {
    var received: Bytes

    constructor ()
      ensures received == []
    {
      received := [];
    }

    /** io.Writer: a failing sink may take only part of p. */
    method Write(p: Bytes) returns (n: nat, ok: bool)
      modifies this
      ensures n <= |p| && (ok ==> n == |p|)
      ensures received == old(received) + p[..n]
    {
      ok := *;
      n := |p|;
      if !ok {
        n :| 0 <= n <= |p|;
      }
      received := received + p[..n];
    }
  }

  class Watcher {
    const out: Sink
    const phrase: Bytes
    var tail: Bytes
    var seen: bool
    ghost var writes: nat
    ghost var stream: Bytes

    /** seen is exactly "something was written and the phrase occurs in all of it". */
    ghost predicate Valid()
      reads this
    {
      && (seen <==> writes > 0 && Occurs(phrase, stream))
      && (!seen ==> Covers(tail, stream, phrase))
      && (writes == 0 ==> stream == [])
    }

    constructor (out: Sink, phrase: Bytes)
      ensures Valid() && this.out == out && this.phrase == phrase && writes == 0 && stream == []
    {
      this.out := out;
      this.phrase := phrase;
      tail := [];
      seen := false;
      writes := 0;
      stream := [];
    }

    method Write(p: Bytes) returns (n: nat, ok: bool)
      requires Valid()
      modifies this, out
      ensures Valid() && writes == old(writes) + 1 && stream == old(stream) + p
      ensures n <= |p| && (ok ==> n == |p|) && out.received == old(out.received) + p[..n]
      ensures |tail| < |phrase| || |phrase| == 1 || seen
    {
      if !seen {
        if Occurs(phrase, stream) {
          assert writes == 0;
          assert phrase == [];
          assert OccursAt(phrase, tail + p, 0);
          assert OccursAt(phrase, stream + p, 0);
        } else {
          WindowSeesStraddlers(stream, tail, p, phrase);
        }
        var window := tail + p;
        var found := Contains(window, phrase);
        var overlap := |phrase| - 1;
        assert !found ==> (stream + p)[|stream| - |tail|..] == window;
        if found {
          seen := true;
          tail := [];
        } else if overlap > 0 && |window| > overlap {
          tail := window[|window| - overlap..];
        } else {
          tail := window;
        }
        if !found && |phrase| == 0 {
          assert OccursAt(phrase, window, 0);
        }
      } else {
        OccursStays(phrase, stream, p);
      }
      writes := writes + 1;
      stream := stream + p;
      n, ok := out.Write(p);
    }

    /** For a phrase that is not empty, Seen is the whole-stream match. */
    method Seen() returns (r: bool)
      requires Valid()
      ensures phrase != [] ==> (r <==> Occurs(phrase, stream))
      ensures phrase == [] ==> (r <==> writes > 0)
    {
      assert phrase == [] ==> OccursAt(phrase, stream, 0);
      r := seen;
    }
  }
}
