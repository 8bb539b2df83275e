/** Paid downloads through a remote browser: exact bytes, and an exact account of what was spent. */
module BrowserFetch {
  import opened Utf8

  /** 6 << 20 */
  const MEDIA_CHUNK_BYTES: nat := 6_291_456

  // ----- The server, and one chunk

  datatype Reply = Data(chunk: Bytes, total: nat, status: int) | Error(status: int)

  /** Failures another attempt cannot fix. */
  predicate Deterministic(reply: Reply) {
    reply.Error? && reply.status in {416, 401, 403, 404, 410}
  }

  /** A range of the file as section 14.1.2 of RFC 9110 selects it; end is inclusive. */
  function Slice(file: Bytes, start: nat, end: nat): Bytes
    requires start < |file| && start <= end
  {
    if end + 1 < |file| then file[start..end + 1] else file[start..]
  }

  /**
   * A server with a fixed file that either honours every range, answering one that starts past
   * the end with 416 (section 15.5.17 of RFC 9110), or ignores them all. It may disclose the size
   * (total > 0) or not, and any request may fail in some other way.
   */
  ghost predicate Answers(file: Bytes, honoursRanges: bool, start: nat, end: nat, reply: Reply)
    requires start <= end
  {
    match reply
    case Error(status) => status == 416 ==> honoursRanges && start >= |file|
    case Data(chunk, total, status) =>
      if honoursRanges then
        status == 206 && start < |file| && chunk == Slice(file, start, end) && (total == 0 || total == |file|)
      else
        status == 200 && chunk == file && total == 0
  }

  class Page {
    const file: Bytes
    const honoursRanges: bool
    /** How often a request, the context or the temporary file has failed. */
    ghost var faults: nat

    constructor (file: Bytes, honoursRanges: bool)
      ensures this.file == file && this.honoursRanges == honoursRanges
    {
      this.file := file;
      this.honoursRanges := honoursRanges;
    }

    /** Anything outside the server's answer that may go wrong. */
    method Fails() returns (b: bool)
      modifies this
      ensures faults == old(faults) + (if b then 1 else 0)
    {
      b := *;
      if b {
        faults := faults + 1;
      }
    }

    method Evaluate(start: nat, end: nat) returns (reply: Reply)
      requires start <= end
      modifies this
      ensures Answers(file, honoursRanges, start, end, reply)
      ensures faults >= old(faults)
      ensures faults == old(faults) ==> (reply.Data? <==> !honoursRanges || start < |file|)
      ensures faults == old(faults) && reply.Error? ==> reply.status == 416
    {
      var disclosed: bool := *;
      var failed := Fails();
      if failed {
        var status: int :| status != 416;
        reply := Error(status);
      } else if !honoursRanges {
        reply := Data(file, 0, 200);
      } else if start >= |file| {
        reply := Error(416);
      } else {
        reply := Data(Slice(file, start, end), if disclosed then |file| else 0, 206);
      }
    }
  }

  /** Up to three tries; the last reply stands. */
  method FetchOneChunk(page: Page, start: nat, end: nat) returns (reply: Reply, tries: nat)
    requires start <= end
    modifies page
    ensures Answers(page.file, page.honoursRanges, start, end, reply)
    ensures page.faults >= old(page.faults)
    ensures page.faults == old(page.faults) ==> (reply.Data? <==> !page.honoursRanges || start < |page.file|)
    ensures page.faults == old(page.faults) && reply.Error? ==> reply.status == 416
    ensures 1 <= tries <= 3 && (reply.Error? && tries < 3 ==> Deterministic(reply))
  {
    reply, tries := Error(0), 0;
    var done := false;
    while tries < 3 && !done
      invariant tries <= 3 && (done ==> tries > 0)
      invariant tries > 0 ==> Answers(page.file, page.honoursRanges, start, end, reply)
      invariant page.faults >= old(page.faults)
      invariant page.faults == old(page.faults) && tries > 0 ==> (reply.Data? <==> !page.honoursRanges || start < |page.file|)
      invariant page.faults == old(page.faults) && tries > 0 && reply.Error? ==> reply.status == 416
      invariant done <==> tries > 0 && (reply.Data? || Deterministic(reply))
      decreases 3 - tries
    {
      reply := page.Evaluate(start, end);
      tries := tries + 1;
      done := reply.Data? || Deterministic(reply);
    }
  }

  // ----- fetchURLThroughPage

  datatype Fetched = Stored(file: Bytes) | Lost

  function Min(a: nat, b: nat): nat {
    if a < b then a else b
  }

  /**
   * What a success stores. Without a hint, or with one no smaller than the file, it is the file;
   * a server that honours ranges is only asked for the first hint bytes.
   */
  function Expected(file: Bytes, honoursRanges: bool, hint: nat): Bytes {
    if hint == 0 || !honoursRanges then file else file[..Min(hint, |file|)]
  }

  lemma HintExact(file: Bytes, honoursRanges: bool, hint: nat)
    ensures Expected(file, honoursRanges, hint) == file <==> hint == 0 || hint >= |file| || !honoursRanges
  {
  }

  /** What one piece adds. */
  lemma PieceLaw(file: Bytes, honoursRanges: bool, offset: nat, requested: nat, reply: Reply)
    requires requested > 0 && offset <= |file| && (!honoursRanges ==> offset == 0)
    requires Answers(file, honoursRanges, offset, offset + requested - 1, reply) && reply.Data?
    ensures offset + |reply.chunk| <= |file| && file[..offset] + reply.chunk == file[..offset + |reply.chunk|]
    ensures honoursRanges ==> 0 < |reply.chunk| <= requested && reply.status == 206
    ensures honoursRanges ==> (reply.total == 0 || reply.total == |file|)
    ensures honoursRanges && |reply.chunk| < requested ==> offset + |reply.chunk| == |file|
    ensures !honoursRanges ==> reply.status == 200 && reply.chunk == file && reply.total == 0
  {
    if honoursRanges {
      assert file[..offset] + file[offset..] == file;
    }
  }

  /** What is known of the size before each request. */
  predicate SizeKnown(file: Bytes, honoursRanges: bool, totalHint: nat, total: nat, offset: nat) {
    && (if totalHint > 0 then total == totalHint else total == 0 || (honoursRanges && total == |file|))
    && (total > 0 ==> offset < total)
  }

  /** Where the loop stops: at the end of the file, or of what was asked for. */
  predicate AtEnd(file: Bytes, honoursRanges: bool, totalHint: nat, total: nat, offset: nat) {
    && offset <= |file|
    && (if totalHint > 0 then total == totalHint else total == 0 || (honoursRanges && total == |file|))
    && (offset == |file| || (honoursRanges && 0 < total == offset))
    && (honoursRanges && total > 0 ==> offset <= total)
  }

  lemma EndIsExact(file: Bytes, honoursRanges: bool, totalHint: nat, total: nat, offset: nat)
    requires AtEnd(file, honoursRanges, totalHint, total, offset)
    ensures offset == 0 || (total > 0 && offset < total) <==> file == [] || totalHint > |file|
    ensures file != [] && totalHint <= |file| ==> file[..offset] == Expected(file, honoursRanges, totalHint)
  {
    assert offset == |file| ==> file[..offset] == file;
  }

  /**
   * The chunk loop. count is the number of bytes written to the temporary file on every path;
   * written is those bytes. A success is exact and is never shorter than the hint; without a fault
   * only an empty file and a file shorter than the hint are lost.
   */
  method FetchURLThroughPage(page: Page, totalHint: nat) returns (r: Fetched, count: nat, ghost written: Bytes)
    modifies page
    ensures page.faults == old(page.faults) ==> (r.Stored? <==> page.file != [] && totalHint <= |page.file|)
    ensures count == |written|
    ensures r.Stored? ==> r.file == written != [] && totalHint <= |page.file|
    ensures r.Stored? ==> r.file == Expected(page.file, page.honoursRanges, totalHint)
    ensures page.honoursRanges ==> written <= page.file
    ensures !page.honoursRanges ==> written == [] || written == page.file
  {
    written := [];
    count := 0;
    r := Lost;
    var createFails := page.Fails();
    if createFails {
      return;
    }
    var out: Bytes := [];
    var total: nat := totalHint;
    var offset: nat := 0;
    while true
      invariant out == written && count == offset == |written| && r.Lost?
      invariant offset <= |page.file| && written == page.file[..offset]
      invariant !page.honoursRanges ==> offset == 0
      invariant SizeKnown(page.file, page.honoursRanges, totalHint, total, offset)
      invariant page.faults >= old(page.faults)
      decreases |page.file| - offset
    {
      var cancelled := page.Fails();
      if cancelled {
        return;
      }
      var requested := MEDIA_CHUNK_BYTES;
      if total > 0 && total - offset < requested {
        requested := total - offset;
      }
      var reply, _ := FetchOneChunk(page, offset, offset + requested - 1);
      if reply.Error? {
        if offset > 0 && reply.status == 416 {
          break;
        }
        return;
      }
      var writeFailed := page.Fails();
      if writeFailed {
        return;
      }
      PieceLaw(page.file, page.honoursRanges, offset, requested, reply);
      out := out + reply.chunk;
      written := out;
      offset := offset + |reply.chunk|;
      count := offset;
      if total == 0 && reply.total > 0 {
        total := reply.total;
      }
      if reply.status == 200 || |reply.chunk| < requested || (total > 0 && offset >= total) {
        break;
      }
    }
    r := Finish(page, out, totalHint, total, offset);
  }

  /** After the loop: nothing, or less than was expected, is no file. */
  method Finish(page: Page, out: Bytes, totalHint: nat, total: nat, offset: nat) returns (r: Fetched)
    requires AtEnd(page.file, page.honoursRanges, totalHint, total, offset) && out == page.file[..offset]
    modifies page
    ensures page.faults >= old(page.faults)
    ensures page.faults == old(page.faults) ==> (r.Stored? <==> page.file != [] && totalHint <= |page.file|)
    ensures r.Stored? ==> r.file == out != [] && totalHint <= |page.file|
    ensures r.Stored? ==> r.file == Expected(page.file, page.honoursRanges, totalHint)
  {
    EndIsExact(page.file, page.honoursRanges, totalHint, total, offset);
    if offset == 0 {
      return Lost;
    }
    if total > 0 && offset < total {
      return Lost;
    }
    var closeFailed := page.Fails();
    r := if closeFailed then Lost else Stored(out);
  }
}
