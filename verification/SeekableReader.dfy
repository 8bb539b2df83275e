/** A seekable reader over ranged object requests, and random access through one shared cursor. */
module SeekableReader {
  import opened Utf8
  import opened Models
  import opened Strings

  // ----- Keys under a prefix

  function BuildKey(prefix: string, key: string): string {
    if prefix == "" then key
    else if prefix[|prefix| - 1] == '/' then prefix + key
    else prefix + "/" + key
  }

  /** The key Seek asks the size of, given the key the reader was opened with. */
  function SizeKey(prefix: string, fullKey: string): string {
    BuildKey(prefix, TrimPrefix(fullKey, prefix))
  }

  predicate PrefixOk(prefix: string) {
    prefix == "" || prefix[|prefix| - 1] == '/'
  }

  /** Seek sizes the object it reads exactly when the configured prefix is empty or ends in '/'. */
  lemma SizeKeyIsOwnKey(prefix: string, key: string)
    ensures SizeKey(prefix, BuildKey(prefix, key)) == BuildKey(prefix, key) <==> PrefixOk(prefix)
  {
    if !PrefixOk(prefix) {
      assert TrimPrefix(prefix + "/" + key, prefix) == "/" + key;
      assert |SizeKey(prefix, BuildKey(prefix, key))| == |BuildKey(prefix, key)| + 1;
    }
  }

  // ----- One response body

  datatype Status = Ok | Eof | Failed

  /** The unread part of a response. Reads may be short, and may fail at any point. */
  class Body {
    var rest: Bytes

    constructor (rest: Bytes)
      ensures this.rest == rest
    {
      this.rest := rest;
    }

    method Read(max: nat) returns (data: Bytes, status: Status, ghost fault: bool)
      modifies this
      ensures |data| <= max && data + rest == old(rest)
      ensures status.Failed? <==> fault
      ensures status.Eof? ==> rest == []
      ensures status.Ok? && max > 0 ==> |data| > 0
    {
      var n: nat :| n <= max && n <= |rest|;
      var broken: bool := *;
      data := rest[..n];
      rest := rest[n..];
      fault := broken;
      if broken {
        status := Failed;
      } else if rest == [] && (n == 0 || max == 0) {
        status := if max == 0 then Ok else Eof;
      } else if n == 0 && max > 0 {
        data, rest := [rest[0]], rest[1..];
        status := Ok;
      } else {
        status := Ok;
      }
    }
  }

  // ----- s3SeekableReader

  const SEEK_START := 0
  const SEEK_CURRENT := 1
  const SEEK_END := 2

  /** A seek to wish in an object of n bytes ends there, or at the nearer end of the object. */
  predicate Lands(wish: int, n: nat, at: int) {
    (0 <= wish <= n ==> at == wish) && (wish < 0 ==> at == 0) && (wish > n ==> at == n)
  }

  class S3Reader {
    /** What the storage holds under every key while the reader lives. */
    const bucket: map<string, Bytes>
    const prefix: string
    const name: string
    var pos: int
    var body: Body?
    var size: int
    var sizeSet: bool

    function Key(): string {
      BuildKey(prefix, name)
    }

    /** The object's bytes; none when there is no such object. */
    function Content(): Bytes {
      if Key() in bucket then bucket[Key()] else []
    }

    /** The object whose size bounds the position, which is the reader's own exactly when the prefix is well formed. */
    function Sized(): Option<nat> {
      var k := SizeKey(prefix, Key());
      if k in bucket then Some(|bucket[k]|) else None
    }

    lemma SizedIsOwn()
      requires PrefixOk(prefix)
      ensures Sized() == if Key() in bucket then Some(|Content()|) else None
    {
      SizeKeyIsOwnKey(prefix, name);
    }

    /** An open body holds exactly what a plain reader at pos has left. */
    ghost predicate Valid()
      reads this, body
    {
      && 0 <= pos
      && (PrefixOk(prefix) ==> pos <= |Content()|)
      && (sizeSet ==> Sized() == Some(size))
      && (body != null ==> Key() in bucket && pos <= |Content()| && body.rest == Content()[pos..])
    }

    ghost function Repr(): set<object>
      reads this
    {
      if body == null then {this} else {this, body}
    }

    constructor (bucket: map<string, Bytes>, prefix: string, name: string)
      ensures Valid() && fresh(Repr())
      ensures pos == 0 && body == null && this.bucket == bucket && this.prefix == prefix && this.name == name
    {
      this.bucket := bucket;
      this.prefix := prefix;
      this.name := name;
      pos, size, sizeSet, body := 0, 0, false, null;
    }

    /** Storage refuses a range that starts at or past the end of the object, and everything about a missing one. */
    predicate Refused(at: int) {
      Key() !in bucket || (at > 0 && at >= |Content()|)
    }

    /** GetObject, from pos on. */
    method OpenReader() returns (ok: bool, ghost fault: bool)
      requires Valid() && body == null
      modifies this`body
      ensures Valid() && fresh(Repr() - {this})
      ensures ok <==> body != null
      ensures !ok <==> fault || Refused(pos)
    {
      var broken: bool := *;
      fault := broken;
      ok := !broken && !Refused(pos);
      if ok {
        body := new Body(Content()[pos..]);
      }
    }

    /**
     * The bytes a plain reader at pos would give, some positive number of them. Without a fault
     * a read fails only where opening is refused: no object, or no open body at the end.
     */
    method Read(max: nat) returns (data: Bytes, status: Status, ghost fault: bool)
      requires Valid()
      modifies Repr()
      ensures Valid() && fresh(Repr() - old(Repr()))
      ensures sizeSet == old(sizeSet) && size == old(size)
      ensures |data| <= max && pos == old(pos) + |data|
      ensures data == [] || (pos <= |Content()| && data == Content()[old(pos)..pos])
      ensures status.Ok? && max > 0 ==> |data| > 0
      ensures status.Eof? ==> pos == |Content()|
      ensures status.Failed? <==> fault || (old(body) == null && Refused(old(pos)))
      ensures !status.Failed? ==> body != null
    {
      fault := false;
      if body == null {
        var ok, f := OpenReader();
        if !ok {
          return [], Failed, f;
        }
      }
      ghost var content, at := Content(), pos;
      data, status, fault := body.Read(max);
      BodyAdvances(content, at, data, body.rest);
      pos := pos + |data|;
    }

    /** HeadObject on the key the reader's own key trims to. */
    method Size() returns (found: Option<nat>, ghost fault: bool)
      ensures fault ==> found.None?
      ensures !fault ==> found == Sized()
    {
      var broken: bool := *;
      fault := broken;
      found := if broken then None else Sized();
    }

    /** The seek that is skipped: an open body is already there. */
    predicate Stays(offset: int, whence: int)
      reads this
    {
      body != null && ((whence == 0 && offset == pos) || (whence == 1 && offset == 0))
    }

    /** The new position, clamped into the bounding object. */
    method MoveTo(offset: int, whence: int) returns (ok: bool)
      requires Valid() && sizeSet && body == null
      modifies this`pos
      ensures Valid() && (ok <==> 0 <= whence <= 2) && (!ok ==> pos == old(pos))
      ensures whence == 0 ==> Lands(offset, Sized().value, pos)
      ensures whence == 1 ==> Lands(old(pos) + offset, Sized().value, pos)
      ensures whence == 2 ==> Lands(Sized().value + offset, Sized().value, pos)
    {
      if PrefixOk(prefix) { SizedIsOwn(); }
      if whence == SEEK_START {
        pos := offset;
      } else if whence == SEEK_CURRENT {
        pos := pos + offset;
      } else if whence == SEEK_END {
        pos := size + offset;
      } else {
        return false;
      }
      if pos < 0 {
        pos := 0;
      }
      if pos > size {
        pos := size;
      }
      return true;
    }

    /**
     * From the start (0), the position (1) or the end (2), to a position in the bounding object. With a well-formed prefix
     * that is the object itself, so the reader goes where a plain one would, and a seek to the end tells its size. Seeking
     * to where an open body already is keeps it.
     */
    method Seek(offset: int, whence: int) returns (newPos: int, ok: bool, ghost fault: bool)
      requires Valid()
      modifies this
      ensures Valid() && (body == null || body == old(body))
      ensures old(body) != null ==> old(body).rest == old(body.rest)
      ensures body != null <==> old(Stays(offset, whence))
      ensures old(Stays(offset, whence)) ==> ok && !fault && newPos == pos == old(pos)
      ensures ok ==> newPos == pos
      ensures ok ==> whence == 0 || whence == 1 || whence == 2
      ensures ok && !old(Stays(offset, whence)) ==> Sized().Some?
      ensures ok && !old(Stays(offset, whence)) && whence == 0 ==> Lands(offset, Sized().value, newPos)
      ensures ok && !old(Stays(offset, whence)) && whence == 1 ==> Lands(old(pos) + offset, Sized().value, newPos)
      ensures ok && !old(Stays(offset, whence)) && whence == 2 ==> Lands(Sized().value + offset, Sized().value, newPos)
      ensures ok && PrefixOk(prefix) && whence == 0 ==> Lands(offset, |Content()|, newPos)
      ensures ok && PrefixOk(prefix) && whence == 1 ==> Lands(old(pos) + offset, |Content()|, newPos)
      ensures ok && PrefixOk(prefix) && whence == 2 ==> Lands(|Content()| + offset, |Content()|, newPos)
      ensures ok && PrefixOk(prefix) && whence == 2 && offset == 0 ==> newPos == |Content()|
      ensures !ok ==> pos == old(pos) && (fault || !(0 <= whence <= 2) || Sized().None?)
      ensures fault || !(0 <= whence <= 2) ==> !ok
    {
      fault := false;
      if PrefixOk(prefix) { SizedIsOwn(); }
      if whence == SEEK_START && body != null && offset == pos {
        return pos, true, false;
      }
      if whence == SEEK_CURRENT && offset == 0 && body != null {
        return pos, true, false;
      }
      body := null;
      if !sizeSet {
        var found, f := Size();
        if found.None? {
          return 0, false, f;
        }
        size := found.value;
        sizeSet := true;
      }
      ok := MoveTo(offset, whence);
      newPos := if ok then pos else 0;
    }
  }

  lemma BodyAdvances(content: Bytes, at: nat, data: Bytes, rest: Bytes)
    requires at <= |content| && data + rest == content[at..]
    ensures at + |data| <= |content| && data == content[at..at + |data|] && rest == content[at + |data|..]
  {
    assert content[at..][..|data|] == data && content[at..][|data|..] == rest;
  }

  // ----- seekerReaderAt

  function Min(a: int, b: int): int {
    if a < b then a else b
  }

  /** What one read adds to the slice already read. */
  lemma SliceGrows(content: Bytes, start: nat, data: Bytes, more: Bytes)
    requires data == [] || (start + |data| <= |content| && data == content[start..start + |data|])
    requires more == [] || (start + |data| + |more| <= |content| && more == content[start + |data|..start + |data| + |more|])
    ensures data + more == [] || (start + |data + more| <= |content| && data + more == content[start..start + |data + more|])
  {
    if more == [] {
      assert data + more == data;
    } else {
      assert data == content[start..start + |data|];
      assert content[start..start + |data|] + content[start + |data|..start + |data| + |more|] == content[start..start + |data| + |more|];
    }
  }

  /** io.ReadFull: reads until max bytes have come or a read reports something else than Ok. */
  method ReadFull(r: S3Reader, max: nat) returns (data: Bytes, status: Status, ghost fault: bool)
    requires r.Valid()
    modifies r.Repr()
    ensures r.Valid() && fresh(r.Repr() - old(r.Repr()))
    ensures |data| <= max && r.pos == old(r.pos) + |data|
    ensures data == [] || (r.pos <= |r.Content()| && data == r.Content()[old(r.pos)..r.pos])
    ensures status.Ok? <==> |data| == max
    ensures status.Eof? ==> r.pos == |r.Content()|
    ensures status.Failed? ==> fault || (data == [] && r.Refused(old(r.pos)))
  {
    data, status, fault := [], Ok, false;
    ghost var start := r.pos;
    while |data| < max && status.Ok?
      invariant r.Valid() && fresh(r.Repr() - old(r.Repr()))
      invariant |data| <= max && r.pos == start + |data|
      invariant data == [] || (r.pos <= |r.Content()| && data == r.Content()[start..r.pos])
      invariant |data| > 0 && status.Ok? ==> r.body != null
      invariant status.Eof? ==> r.pos == |r.Content()|
      invariant status.Failed? ==> fault || (data == [] && r.Refused(start))
      decreases max - |data|, status.Ok?
    {
      var more, s, f := r.Read(max - |data|);
      SliceGrows(r.Content(), start, data, more);
      data := data + more;
      status, fault := s, f;
    }
    if |data| == max {
      status := Ok;
    }
  }

  class ReaderAt {
    const seeker: S3Reader

    constructor (seeker: S3Reader)
      ensures this.seeker == seeker
    {
      this.seeker := seeker;
    }

    /** copy: the front of the buffer becomes the data. */
    method Fill(p: array<Byte>, data: Bytes)
      requires |data| <= p.Length
      modifies p
      ensures p[..|data|] == data && p[|data|..] == old(p[|data|..])
    {
      for i := 0 to |data|
        invariant p[..i] == data[..i]
        invariant p[i..] == old(p[i..])
      {
        p[i] := data[i];
      }
      assert data[..|data|] == data;
    }

    /** The seek to off from the start. */
    method SeekTo(off: int) returns (ok: bool, ghost fault: bool)
      requires seeker.Valid()
      modifies seeker
      ensures seeker.Valid() && fresh(seeker.Repr() - old(seeker.Repr()))
      ensures seeker.body != null ==> seeker.body in old(seeker.Repr())
      ensures ok && !old(seeker.Stays(off, 0)) ==> seeker.Sized().Some? && Lands(off, seeker.Sized().value, seeker.pos)
      ensures ok && old(seeker.Stays(off, 0)) ==> seeker.pos == off
      ensures ok && PrefixOk(seeker.prefix) ==> Lands(off, |seeker.Content()|, seeker.pos)
      ensures ok && PrefixOk(seeker.prefix) && seeker.body == null ==> seeker.Key() in seeker.bucket
      ensures !ok && PrefixOk(seeker.prefix) ==> fault || seeker.Key() !in seeker.bucket
    {
      if PrefixOk(seeker.prefix) { seeker.SizedIsOwn(); }
      var newPos, done, f := seeker.Seek(off, SEEK_START);
      ok, fault := done, f;
    }

    /** The buffer filled from the position on. */
    method ReadInto(p: array<Byte>) returns (n: nat, status: Status, ghost fault: bool)
      requires seeker.Valid()
      modifies seeker.Repr(), p
      ensures seeker.Valid() && fresh(seeker.Repr() - old(seeker.Repr()))
      ensures n <= p.Length && p[n..] == old(p[n..]) && seeker.pos == old(seeker.pos) + n
      ensures n > 0 ==> seeker.pos <= |seeker.Content()| && p[..n] == seeker.Content()[old(seeker.pos)..seeker.pos]
      ensures status.Ok? <==> n == p.Length
      ensures status.Eof? ==> seeker.pos == |seeker.Content()|
      ensures status.Failed? ==> fault || (n == 0 && seeker.Refused(old(seeker.pos)))
    {
      var data, s, f := ReadFull(seeker, p.Length);
      Fill(p, data);
      n, status, fault := |data|, s, f;
    }

    /**
     * A slice of the object from the position the seek lands at, and an error exactly when it is short. With a well-formed
     * prefix that position is off whenever off lies in the object, and without a fault the slice is as long as the
     * object allows; with any other prefix it is off exactly while the object that was sized reaches that far.
     */
    method ReadAt(p: array<Byte>, off: int) returns (n: nat, status: Status, ghost fault: bool, ghost at: nat)
      requires seeker.Valid()
      modifies seeker.Repr(), p
      ensures seeker.Valid() && fresh(seeker.Repr() - old(seeker.Repr()))
      ensures n <= p.Length && p[n..] == old(p[n..])
      ensures n > 0 ==> at + n <= |seeker.Content()| && p[..n] == seeker.Content()[at..at + n]
      ensures n > 0 && !old(seeker.Stays(off, 0)) ==> seeker.Sized().Some? && Lands(off, seeker.Sized().value, at)
      ensures n > 0 && old(seeker.Stays(off, 0)) ==> at == off
      ensures n > 0 && off >= 0 && PrefixOk(seeker.prefix) ==> at == off
      ensures n < p.Length ==> !status.Ok?
      ensures n == p.Length > 0 ==> status.Ok?
      ensures !fault && off >= 0 && PrefixOk(seeker.prefix) ==>
                n == Min(p.Length, if off > |seeker.Content()| then 0 else |seeker.Content()| - off)
      ensures !fault && 0 <= off < |seeker.Content()| && PrefixOk(seeker.prefix) ==> !status.Failed?
    {
      at := 0;
      ghost var f;
      var ok;
      ok, f := SeekTo(off);
      if !ok {
        assert p[0..] == old(p[0..]);
        return 0, Failed, f, at;
      }
      at := seeker.pos;
      ghost var g;
      n, status, g := ReadInto(p);
      fault := f || g;
    }
  }
}
