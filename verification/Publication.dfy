/** Publishing an archive: objects first, then the row that names them, in a bucket that forbids overwrites. */
module Publication {
  import opened Models
  import opened Subtitles
  import opened Archivers

  /** A stored object, as far as publication looks into it. */
  datatype Object = Blob | Sidecar(metadata: Metadata)

  /** The item columns publication writes. */
  datatype Row = Row(completed: bool, storageKey: string, metadataKey: string, rawMetadataKey: string, thumbnailKey: string)

  /** One row update: what it found and what it left. */
  datatype Update = Update(row: nat, before: Row, after: Row)

  const METADATA_SUFFIX := ".metadata.json"
  const RAW_METADATA_SUFFIX := ".raw-metadata.json"
  const THUMB_SUFFIX := "-thumb.jpg"

  // ----- What readers rely on

  predicate TracksStored(store: map<string, Object>, tracks: seq<Track>) {
    forall i :: 0 <= i < |tracks| ==> tracks[i].storageKey in store
  }

  /** A record's tracks were reconciled with the store; a record with none has nothing to check. */
  predicate ObjectOk(store: map<string, Object>, o: Object) {
    o.Sidecar? && o.metadata.VideoRecord? ==> TracksStored(store, o.metadata.subtitles)
  }

  /** An empty metadata key means the archive has no sidecar. */
  predicate Stored(store: map<string, Object>, key: string) {
    key == "" || key in store
  }

  predicate RowOk(store: map<string, Object>, row: Row) {
    && (row.completed ==> row.storageKey in store && Stored(store, row.metadataKey) && Stored(store, row.rawMetadataKey))
    && Stored(store, row.thumbnailKey)
  }

  predicate StoreOk(store: map<string, Object>) {
    forall k :: k in store ==> ObjectOk(store, store[k])
  }

  predicate RowsOk(store: map<string, Object>, rows: seq<Row>) {
    forall i :: 0 <= i < |rows| ==> RowOk(store, rows[i])
  }

  /** Objects stay as they are, forever. */
  predicate Grows(before: map<string, Object>, after: map<string, Object>) {
    forall k :: k in before ==> k in after && after[k] == before[k]
  }

  lemma GrowthKeeps(before: map<string, Object>, after: map<string, Object>, rows: seq<Row>)
    requires Grows(before, after) && RowsOk(before, rows)
    ensures RowsOk(after, rows)
  {
  }

  // ----- Key names

  /** The suffixes an attempt may write under its key base, in the order it writes them. */
  function ExtraSuffixes(extras: seq<Extra>): seq<string> {
    if extras == [] then []
    else
      var last := extras[|extras| - 1];
      ExtraSuffixes(extras[..|extras| - 1]) + (if last.suffix == "" || last.empty then [] else [last.suffix])
  }

  function DocumentSuffixes(r: Result): seq<string> {
    (if r.metadata.Some? then [METADATA_SUFFIX] else []) + (if r.rawMetadata.Some? then [RAW_METADATA_SUFFIX] else [])
  }

  function ArchiveSuffixes(r: Result): seq<string> {
    [r.extension] + ExtraSuffixes(r.extras) + DocumentSuffixes(r)
  }

  function PreviewSuffixes(r: Result): seq<string> {
    if r.thumbnail.Some? && !r.thumbnail.value.empty then [THUMB_SUFFIX] else []
  }

  function Suffixes(r: Result): seq<string> {
    ArchiveSuffixes(r) + PreviewSuffixes(r)
  }

  /** The JSON documents that come with the archive can be stored. */
  predicate DocumentsValid(r: Result) {
    (r.metadata.Some? ==> r.metadata.value.valid) && (r.rawMetadata.Some? ==> r.rawMetadata.value.valid)
  }

  predicate Distinct(s: seq<string>) {
    forall i, j :: 0 <= i < j < |s| ==> s[i] != s[j]
  }

  function Keys(base: string, suffixes: seq<string>): seq<string> {
    seq(|suffixes|, i requires 0 <= i < |suffixes| => base + suffixes[i])
  }

  /** One attempt writes no key twice exactly when its suffixes are distinct. */
  lemma KeysDistinct(base: string, suffixes: seq<string>)
    ensures Distinct(Keys(base, suffixes)) <==> Distinct(suffixes)
  {
    var keys := Keys(base, suffixes);
    forall i, j | 0 <= i < j < |suffixes| ensures keys[i] != keys[j] <==> suffixes[i] != suffixes[j] {
      assert keys[i][|base|..] == suffixes[i] && keys[j][|base|..] == suffixes[j];
    }
  }

  // ----- The suffixes of what archivers hand over

  /** How the suffix of every caption starts. */
  predicate IsSub(suffix: string) {
    |suffix| >= 5 && suffix[0] == '.' && suffix[1] == 's' && suffix[2] == 'u' && suffix[3] == 'b' && suffix[4] == '.'
  }

  lemma CaptionIsSub(c: Caption)
    requires IsNamed(c)
    ensures IsSub(c.suffix)
  {
  }

  lemma ExtrasStep(init: seq<Caption>, last: Caption)
    ensures ExtraSuffixes(ExtrasOf(init + [last])) ==
              ExtraSuffixes(ExtrasOf(init)) + (if last.suffix == "" || last.data == [] then [] else [last.suffix])
  {
    var extras := ExtrasOf(init + [last]);
    assert extras == ExtrasOf(init) + [ExtraOf(last)];
    assert extras[..|extras| - 1] == ExtrasOf(init);
  }

  /** A suffix written is a caption's. */
  lemma {:induction false} ExtrasNamed(captions: seq<Caption>, s: string)
    requires s in ExtraSuffixes(ExtrasOf(captions))
    ensures exists i :: 0 <= i < |captions| && captions[i].suffix == s
  {
    assert ExtrasOf([]) == [];
    if captions != [] {
      var init, last := captions[..|captions| - 1], captions[|captions| - 1];
      assert captions == init + [last];
      ExtrasStep(init, last);
      if s in ExtraSuffixes(ExtrasOf(init)) {
        ExtrasNamed(init, s);
        var i :| 0 <= i < |init| && init[i].suffix == s;
        assert captions[i].suffix == s;
      }
    }
  }

  lemma NotWritten(captions: seq<Caption>, s: string)
    requires forall i :: 0 <= i < |captions| ==> captions[i].suffix != s
    ensures s !in ExtraSuffixes(ExtrasOf(captions))
  {
    if s in ExtraSuffixes(ExtrasOf(captions)) { ExtrasNamed(captions, s); }
  }

  /** Every caption with bytes is written. */
  lemma {:induction false} ExtrasAll(captions: seq<Caption>, k: nat)
    requires k < |captions| && captions[k].data != [] && captions[k].suffix != ""
    ensures captions[k].suffix in ExtraSuffixes(ExtrasOf(captions))
  {
    var init, last := captions[..|captions| - 1], captions[|captions| - 1];
    assert captions == init + [last];
    ExtrasStep(init, last);
    if k < |init| { ExtrasAll(init, k); }
  }

  /** No suffix is written twice. */
  lemma {:induction false} ExtrasDistinct(captions: seq<Caption>)
    requires DistinctSuffixes(captions)
    ensures Distinct(ExtraSuffixes(ExtrasOf(captions)))
  {
    if captions != [] {
      var init, last := captions[..|captions| - 1], captions[|captions| - 1];
      assert captions == init + [last];
      ExtrasDistinct(init);
      ExtrasStep(init, last);
      forall i | 0 <= i < |init| ensures init[i].suffix != last.suffix {
        assert captions[i].suffix != captions[|captions| - 1].suffix;
      }
      NotWritten(init, last.suffix);
    }
  }

  predicate IsArchiveExtension(extension: string) {
    extension in {".mhtml", ".jpg", ".webp", ".tar", ".zip", ".mp4"}
  }

  /** A result of this shape has distinct suffixes: the fixed ones differ, and captions start like none of them. */
  lemma ShapeDistinct(r: Result)
    requires IsArchiveExtension(r.extension) && Distinct(ExtraSuffixes(r.extras))
    requires forall s :: s in ExtraSuffixes(r.extras) ==> IsSub(s)
    ensures Distinct(Suffixes(r))
  {
    var first, extras, rest := r.extension, ExtraSuffixes(r.extras), DocumentSuffixes(r) + PreviewSuffixes(r);
    assert Suffixes(r) == [first] + extras + rest;
    FixedSuffixes(r);
    forall i, j | 0 <= i < j < |Suffixes(r)| ensures Suffixes(r)[i] != Suffixes(r)[j] {
      if 0 < i <= |extras| { assert extras[i - 1] in extras; }
      if j <= |extras| { assert extras[j - 1] in extras; }
    }
  }

  /** The suffixes beside the captions'. */
  lemma FixedSuffixes(r: Result)
    requires IsArchiveExtension(r.extension)
    ensures !IsSub(r.extension)
    ensures var rest := DocumentSuffixes(r) + PreviewSuffixes(r);
            && Distinct(rest) && r.extension !in rest
            && forall i :: 0 <= i < |rest| ==> !IsSub(rest[i])
  {
    assert |METADATA_SUFFIX| == 14 && |RAW_METADATA_SUFFIX| == 18 && |THUMB_SUFFIX| == 10;
    assert |r.extension| <= 6;
  }

  /** Whatever an archiver hands over, its suffixes are distinct. */
  lemma ArchivedDistinct(a: Archived)
    ensures Distinct(Suffixes(ResultOf(a))) && Distinct(ArchiveSuffixes(ResultOf(a)))
  {
    var r := ResultOf(a);
    if a.Video? {
      var captions := Captions(a.base, a.files);
      CaptionsLaw(a.base, a.files);
      ExtrasDistinct(captions);
      forall s | s in ExtraSuffixes(r.extras) ensures IsSub(s) {
        ExtrasNamed(captions, s);
        var k :| 0 <= k < |captions| && captions[k].suffix == s;
        assert captions[k] in captions;
        CaptionIsSub(captions[k]);
      }
    }
    ShapeDistinct(r);
    assert ArchiveSuffixes(r) <= Suffixes(r);
    DistinctPrefix(Suffixes(r), ArchiveSuffixes(r));
  }

  /** So one attempt uploads no key twice. */
  lemma NoKeyTwice(base: string, a: Archived)
    ensures Distinct(Keys(base, Suffixes(ResultOf(a))))
  {
    ArchivedDistinct(a);
    KeysDistinct(base, Suffixes(ResultOf(a)));
  }

  /** The track list of a video all of whose captions were stored under its base. */
  function StoredTracks(base: string, captions: seq<Caption>): seq<Track> {
    seq(|captions|, i requires 0 <= i < |captions| => TrackOf(captions[i]).(storageKey := base + captions[i].suffix))
  }

  lemma {:induction false} AllTracksStored(base: string, captions: seq<Caption>, keys: map<string, string>)
    requires forall c :: c in captions ==> c.suffix in keys && keys[c.suffix] == base + c.suffix
    ensures Reconciled(TracksOf(captions), keys) == StoredTracks(base, captions)
  {
    if captions != [] {
      var init, last := captions[..|captions| - 1], captions[|captions| - 1];
      AllTracksStored(base, init, keys);
      assert last in captions;
      assert TracksOf(captions) == TracksOf(init) + [TrackOf(last)];
      assert TracksOf(captions)[..|captions| - 1] == TracksOf(init);
      assert StoredTracks(base, captions) == StoredTracks(base, init) + [TrackOf(last).(storageKey := base + last.suffix)];
    }
  }

  /** Then the record lists every caption with its key, and keeps its transcript. */
  lemma AllCaptionsPublished(base: string, a: Archived, keys: map<string, string>)
    requires a.Video? && forall c :: c in Captions(a.base, a.files) ==> c.data != []
    requires forall s :: s in keys ==> keys[s] == base + s
    requires forall s :: s in ExtraSuffixes(ResultOf(a).extras) ==> s in keys
    ensures WithStoredTracks(ResultOf(a).metadata.value.metadata, keys)
            == VideoRecord(StoredTracks(base, Captions(a.base, a.files)), a.transcript)
  {
    var captions := Captions(a.base, a.files);
    CaptionsLaw(a.base, a.files);
    forall c | c in captions ensures c.suffix in keys && keys[c.suffix] == base + c.suffix {
      CaptionIsSub(c);
      var k :| 0 <= k < |captions| && captions[k] == c;
      ExtrasAll(captions, k);
    }
    AllTracksStored(base, captions, keys);
  }

  /** Neither text starts with the other; what fresh nonces give two key bases. */
  predicate Apart(a: string, b: string) {
    !(a <= b) && !(b <= a)
  }

  /** A key under one base never extends the other. */
  lemma ApartKeys(a: string, b: string, t: string)
    ensures a <= b + t ==> !Apart(a, b)
  {
    if a <= b + t {
      assert forall i :: 0 <= i < |a| ==> a[i] == (b + t)[i];
      assert forall i :: 0 <= i < |a| && i < |b| ==> a[i] == b[i];
      assert |a| <= |b| ==> a <= b;
    }
  }

  /** Every key under this base is one of those already tried. */
  predicate OnlyTried(written: seq<string>, base: string, tried: seq<string>) {
    forall i :: 0 <= i < |written| && base <= written[i] ==> exists j :: 0 <= j < |tried| && written[i] == base + tried[j]
  }

  /** A base apart from every base in use has no keys yet. */
  lemma FreshBase(written: seq<string>, bases: set<string>, base: string)
    requires forall i :: 0 <= i < |written| ==> exists b :: b in bases && b <= written[i]
    requires forall b :: b in bases ==> Apart(base, b)
    ensures OnlyTried(written, base, [])
  {
    forall i | 0 <= i < |written| ensures !(base <= written[i]) {
      var b :| b in bases && b <= written[i];
      ApartKeys(base, b, written[i][|b|..]);
      assert b + written[i][|b|..] == written[i];
    }
  }

  /** Keys under other bases do not matter. */
  lemma TriedKept(before: seq<string>, after: seq<string>, base: string, tried: seq<string>)
    requires OnlyTried(before, base, tried)
    requires |before| <= |after| && after[..|before|] == before
    requires forall i :: |before| <= i < |after| ==> !(base <= after[i])
    ensures OnlyTried(after, base, tried)
  {
    forall i | 0 <= i < |after| && base <= after[i] ensures exists j :: 0 <= j < |tried| && after[i] == base + tried[j] {
      assert after[i] == before[i];
    }
  }

  lemma NextKeyIsNew(written: seq<string>, base: string, tried: seq<string>, suffix: string)
    requires OnlyTried(written, base, tried) && Distinct(tried + [suffix])
    ensures base + suffix !in written
  {
    forall i | 0 <= i < |written| ensures written[i] != base + suffix {
      if base <= written[i] {
        var j :| 0 <= j < |tried| && written[i] == base + tried[j];
        assert (tried + [suffix])[j] == tried[j] && (tried + [suffix])[|tried|] == suffix;
        SuffixesDiffer(base, tried[j], suffix);
      }
    }
  }

  lemma SuffixesDiffer(base: string, s: string, t: string)
    ensures base + s == base + t <==> s == t
  {
    assert (base + s)[|base|..] == s && (base + t)[|base|..] == t;
  }

  /** Where no other worker has been, and but for these, the rows are as they were. */
  predicate KeepsRows(rows0: seq<Row>, foreign0: seq<nat>, rows: seq<Row>, foreign: seq<nat>, but: set<nat>) {
    && |rows| == |rows0| == |foreign| == |foreign0|
    && forall j :: 0 <= j < |rows| ==>
         foreign[j] >= foreign0[j] && (j !in but && foreign[j] == foreign0[j] ==> rows[j] == rows0[j])
  }

  lemma KeptThenKept(rows0: seq<Row>, foreign0: seq<nat>, rows1: seq<Row>, foreign1: seq<nat>,
                     rows2: seq<Row>, foreign2: seq<nat>, i: nat)
    requires KeepsRows(rows0, foreign0, rows1, foreign1, {}) && KeepsRows(rows1, foreign1, rows2, foreign2, {i})
    ensures KeepsRows(rows0, foreign0, rows2, foreign2, {i})
  {
  }

  /** The rows publish the same archive: everything but the preview agrees. */
  predicate SameArchive(a: Row, b: Row) {
    a.completed == b.completed && a.storageKey == b.storageKey
    && a.metadataKey == b.metadataKey && a.rawMetadataKey == b.rawMetadataKey
  }

  /** The row publishes this result under this base. */
  predicate Publishes(row: Row, base: string, r: Result) {
    && row.completed && row.storageKey == base + r.extension
    && row.metadataKey == (if r.metadata.Some? then base + METADATA_SUFFIX else "")
    && row.rawMetadataKey == (if r.rawMetadata.Some? then base + RAW_METADATA_SUFFIX else "")
  }

  /** An attempt's updates: the one that publishes, then at most one that repoints the preview and nothing else. */
  predicate IsPublishing(updates: seq<Update>, i: nat, base: string, r: Result) {
    && 1 <= |updates| <= 2 && updates[0].row == i && Publishes(updates[0].after, base, r)
    && updates[0].after.thumbnailKey == updates[0].before.thumbnailKey
    && (|updates| == 2 ==> updates[1].row == i && SameArchive(updates[1].before, updates[1].after)
                           && updates[1].after.thumbnailKey == base + THUMB_SUFFIX)
  }

  /** The bucket and the rows, shared by every worker. */
  class Archive {
    var store: map<string, Object>
    var written: seq<string>
    var rows: seq<Row>
    /** How often one of this worker's uploads or updates has failed by itself. */
    ghost var faults: nat
    /** How often other workers have updated each row, and the updates of this one. */
    ghost var foreign: seq<nat>
    ghost var own: seq<Update>

    /** Everything a reader can reach is there; written lists every key an upload was started for. */
    ghost predicate Valid()
      reads this
    {
      StoreOk(store) && RowsOk(store, rows) && (forall k :: k in store ==> k in written) && |foreign| == |rows|
    }

    /** No row but these has changed by this worker: where no other one was, the row is as it was. */
    twostate predicate RowsKept(but: set<nat>)
      reads this
    {
      KeepsRows(old(rows), old(foreign), rows, foreign, but)
    }

    /** This worker has written no row. */
    twostate predicate NoRowWritten()
      reads this
    {
      own == old(own) && RowsKept({})
    }

    /** This worker has updated row i once, and nobody since; the update found what was there if nobody was before it. */
    twostate predicate UpdatedOnce(i: nat)
      reads this
      requires i < |rows|
    {
      && |own| == |old(own)| + 1 && own[..|old(own)|] == old(own) && RowsKept({i})
      && own[|old(own)|].row == i && own[|old(own)|].after == rows[i]
      && (foreign[i] == old(foreign)[i] ==> own[|old(own)|].before == old(rows)[i])
    }

    method Fails() returns (b: bool)
      modifies this`faults
      ensures faults == old(faults) + (if b then 1 else 0)
    {
      b := *;
      if b {
        faults := faults + 1;
      }
    }

    constructor (n: nat)
      ensures Valid() && store == map[] && written == [] && |rows| == n
    {
      store, written := map[], [];
      rows := seq(n, i => Row(false, "", "", "", ""));
      foreign, own := seq(n, i => 0), [];
    }

    /** What this worker may assume of the others while it works under its own base. */
    twostate predicate OthersDid(base: string)
      reads this
    {
      && Valid() && Grows(old(store), store) && |rows| == |old(rows)|
      && |old(written)| <= |written| && written[..|old(written)|] == old(written)
      && (forall i :: |old(written)| <= i < |written| ==> !(base <= written[i]))
      && (Distinct(old(written)) ==> Distinct(written))
    }

    /** What one step of this worker does, its suffixes being distinct: an upload under its own base, or a row. */
    twostate predicate StepOf(base: string)
      reads this
    {
      && Valid() && Grows(old(store), store) && |rows| == |old(rows)|
      && |old(written)| <= |written| && written[..|old(written)|] == old(written)
      && (forall i :: |old(written)| <= i < |written| ==> base <= written[i])
      && (Distinct(old(written)) ==> Distinct(written))
    }

    /** A step under one base is what a worker under a base apart from it assumes of others. */
    twostate lemma GuaranteeIsRely(base: string, other: string)
      requires StepOf(base) && Apart(other, base)
      ensures OthersDid(other)
    {
      forall i | |old(written)| <= i < |written| ensures !(other <= written[i]) {
        var t := written[i][|base|..];
        assert base + t == written[i];
        ApartKeys(other, base, t);
      }
    }

    /** Other attempts upload under other bases, and publish or fail other rows and this one. */
    method Others(base: string)
      requires Valid()
      modifies this
      ensures OthersDid(base) && faults == old(faults) && NoRowWritten()
    {
      var rounds: nat := *;
      while rounds > 0
        invariant OthersDid(base) && faults == old(faults) && NoRowWritten()
      {
        var key: string, i: nat, row: Row, o: Object, stored: bool := *, *, *, *, *;
        if !(base <= key) && key !in written {
          written := written + [key];
          if stored && key !in store && ObjectOk(store, o) {
            Put(key, o);
          }
        } else if i < |rows| && RowOk(store, row) {
          rows, foreign := rows[i := row], foreign[i := foreign[i] + 1];
        }
        rounds := rounds - 1;
      }
    }

    /** What the others do leaves this worker's keys and row updates alone. */
    method AwaitOthers(base: string, ghost tried: seq<string>)
      requires Valid() && OnlyTried(written, base, tried)
      modifies this
      ensures Valid() && Grows(old(store), store) && OnlyTried(written, base, tried) && NoRowWritten()
      ensures faults == old(faults) && (Distinct(old(written)) ==> Distinct(written))
    {
      Others(base);
      TriedKept(old(written), written, base, tried);
    }

    method Put(key: string, o: Object)
      requires Valid() && key !in store && key in written && ObjectOk(store, o)
      modifies this`store
      ensures Valid() && store == old(store)[key := o] && Grows(old(store), store)
    {
      store := store[key := o];
      GrowthKeeps(old(store), store, rows);
    }

    /** One upload. The bucket refuses a key it holds; any upload may fail part-way. */
    method Upload(base: string, suffix: string, o: Object, ghost tried: seq<string>) returns (ok: bool)
      requires Valid() && ObjectOk(store, o) && OnlyTried(written, base, tried)
      modifies this`store, this`written, this`faults
      ensures Valid() && Grows(old(store), store) && OnlyTried(written, base, tried + [suffix])
      ensures faults >= old(faults) && (Distinct(tried + [suffix]) ==> faults == old(faults) + (if ok then 0 else 1))
      ensures written == old(written) + [base + suffix]
      ensures ok ==> base + suffix in store && store[base + suffix] == o
      ensures !ok ==> store == old(store)
      ensures Distinct(old(written)) && Distinct(tried + [suffix]) ==> Distinct(written)
      ensures Distinct(tried + [suffix]) ==> StepOf(base)
    {
      if Distinct(tried + [suffix]) { NextKeyIsNew(written, base, tried, suffix); }
      written := written + [base + suffix];
      assert written[|written| - 1] == base + (tried + [suffix])[|tried|];
      assert forall j :: 0 <= j < |tried| ==> (tried + [suffix])[j] == tried[j];
      var fails := Fails();
      ok := !fails && base + suffix !in store;
      if ok {
        Put(base + suffix, o);
      }
    }

    /** One row update. */
    method SetRow(i: nat, row: Row, ghost base: string)
      requires Valid() && i < |rows| && RowOk(store, row)
      modifies this`rows, this`own
      ensures rows == old(rows)[i := row] && Valid() && StepOf(base)
      ensures own == old(own) + [Update(i, old(rows)[i], row)]
    {
      own := own + [Update(i, rows[i], row)];
      rows := rows[i := row];
    }

    /** The extras, each on its own: one that will not store is left out. */
    method StoreExtras(base: string, extras: seq<Extra>, ghost first: string)
      returns (extraKeys: map<string, string>, ghost tried: seq<string>)
      requires Valid() && OnlyTried(written, base, [first])
      modifies this
      ensures Valid() && Grows(old(store), store) && |rows| == |old(rows)|
      ensures tried == [first] + ExtraSuffixes(extras) && OnlyTried(written, base, tried) && NoRowWritten()
      ensures forall s :: s in extraKeys ==> extraKeys[s] == base + s && extraKeys[s] in store
      ensures faults >= old(faults)
      ensures faults == old(faults) && Distinct(tried) ==> forall s :: s in ExtraSuffixes(extras) ==> s in extraKeys
      ensures Distinct(old(written)) && Distinct(tried) ==> Distinct(written)
    {
      extraKeys, tried := map[], [first];
      for e := 0 to |extras|
        invariant Valid() && Grows(old(store), store) && |rows| == |old(rows)|
        invariant tried == [first] + ExtraSuffixes(extras[..e]) && OnlyTried(written, base, tried) && NoRowWritten()
        invariant forall s :: s in extraKeys ==> extraKeys[s] == base + s && extraKeys[s] in store
        invariant faults >= old(faults)
        invariant faults == old(faults) && Distinct(tried) ==> forall s :: s in ExtraSuffixes(extras[..e]) ==> s in extraKeys
        invariant Distinct(old(written)) && Distinct(tried) ==> Distinct(written)
      {
        assert extras[..e + 1][..e] == extras[..e];
        if extras[e].suffix != "" && !extras[e].empty {
          var suffix := extras[e].suffix;
          var ok := UploadAmongOthers(base, suffix, Blob, tried);
          DistinctPrefix(tried + [suffix], tried);
          tried := tried + [suffix];
          if ok {
            extraKeys := extraKeys[suffix := base + suffix];
          }
        }
      }
      assert extras[..|extras|] == extras;
    }

    /** An upload, with whatever the others do before it. */
    method UploadAmongOthers(base: string, suffix: string, o: Object, ghost tried: seq<string>) returns (ok: bool)
      requires Valid() && ObjectOk(store, o) && OnlyTried(written, base, tried)
      modifies this
      ensures Valid() && Grows(old(store), store) && |rows| == |old(rows)|
      ensures OnlyTried(written, base, tried + [suffix]) && NoRowWritten()
      ensures ok ==> base + suffix in store && store[base + suffix] == o
      ensures faults >= old(faults) && (Distinct(tried + [suffix]) ==> faults == old(faults) + (if ok then 0 else 1))
      ensures Distinct(old(written)) && Distinct(tried + [suffix]) ==> Distinct(written)
    {
      AwaitOthers(base, tried);
      ok := Upload(base, suffix, o, tried);
    }

    /** One sidecar, if the archive has it; an empty or malformed document fails before the upload starts. */
    method StoreSidecar(base: string, suffix: string, valid: Option<bool>, o: Object, ghost tried: seq<string>)
      returns (ok: bool, key: string, ghost after: seq<string>)
      requires Valid() && ObjectOk(store, o) && OnlyTried(written, base, tried)
      modifies this
      ensures Valid() && Grows(old(store), store) && |rows| == |old(rows)|
      ensures OnlyTried(written, base, after) && NoRowWritten()
      ensures after == tried || (valid.Some? && after == tried + [suffix])
      ensures ok ==> after == tried + (if valid.Some? then [suffix] else [])
      ensures ok ==> key == (if valid.Some? then base + suffix else "") && Stored(store, key)
      ensures ok && valid.Some? ==> key in store && store[key] == o
      ensures faults >= old(faults)
      ensures !ok ==> valid.Some? && (faults > old(faults) || !valid.value || !Distinct(tried + [suffix]))
      ensures Distinct(old(written)) && Distinct(after) ==> Distinct(written)
    {
      after, key := tried, "";
      if valid.None? {
        return true, key, after;
      }
      if !valid.value {
        return false, key, after;
      }
      ok := UploadAmongOthers(base, suffix, o, tried);
      after, key := tried + [suffix], base + suffix;
    }

    /** The metadata, its track list reconciled with what was stored, and the raw record. */
    method StoreDocuments(base: string, r: Result, extraKeys: map<string, string>, ghost tried: seq<string>)
      returns (ok: bool, metadataKey: string, rawMetadataKey: string, ghost after: seq<string>)
      requires Valid() && OnlyTried(written, base, tried)
      requires forall s :: s in extraKeys ==> extraKeys[s] in store
      modifies this
      ensures Valid() && Grows(old(store), store) && |rows| == |old(rows)|
      ensures OnlyTried(written, base, after) && tried <= after <= tried + DocumentSuffixes(r) && NoRowWritten()
      ensures ok ==> after == tried + DocumentSuffixes(r)
      ensures ok ==> metadataKey == (if r.metadata.Some? then base + METADATA_SUFFIX else "") && Stored(store, metadataKey)
      ensures ok ==> rawMetadataKey == (if r.rawMetadata.Some? then base + RAW_METADATA_SUFFIX else "")
      ensures ok ==> Stored(store, rawMetadataKey)
      ensures ok && r.metadata.Some? ==>
                metadataKey in store && store[metadataKey] == Sidecar(WithStoredTracks(r.metadata.value.metadata, extraKeys))
      ensures faults >= old(faults)
      ensures !ok && faults == old(faults) ==> !DocumentsValid(r) || !Distinct(tried + DocumentSuffixes(r))
      ensures Distinct(old(written)) && Distinct(after) ==> Distinct(written)
    {
      var m := OtherRecord("");
      if r.metadata.Some? {
        m := SetSubtitleStorageKeys(r.metadata.value.metadata, extraKeys);
        ReconciledStored(r.metadata.value.metadata, extraKeys, store);
      }
      rawMetadataKey := "";
      var valid := if r.metadata.Some? then Some(r.metadata.value.valid) else None;
      ok, metadataKey, after := StoreSidecar(base, METADATA_SUFFIX, valid, Sidecar(m), tried);
      ghost var middle := after;
      DistinctPrefix(tried + DocumentSuffixes(r), middle);
      if ok {
        valid := if r.rawMetadata.Some? then Some(r.rawMetadata.value.valid) else None;
        ok, rawMetadataKey, after := StoreSidecar(base, RAW_METADATA_SUFFIX, valid, Blob, after);
        DistinctPrefix(after, middle);
        assert r.rawMetadata.Some? ==> middle + [RAW_METADATA_SUFFIX] == tried + DocumentSuffixes(r);
      } else {
        assert r.metadata.Some? ==> tried + [METADATA_SUFFIX] <= tried + DocumentSuffixes(r);
        if r.metadata.Some? { DistinctPrefix(tried + DocumentSuffixes(r), tried + [METADATA_SUFFIX]); }
      }
    }

    /** The status update that publishes the archive. */
    method MarkCompleted(i: nat, base: string, extension: string, metadataKey: string, rawMetadataKey: string, ghost tried: seq<string>)
      returns (ok: bool)
      requires Valid() && i < |rows| && base + extension in store && Stored(store, metadataKey) && Stored(store, rawMetadataKey)
      requires OnlyTried(written, base, tried)
      modifies this
      ensures Valid() && Grows(old(store), store) && |rows| == |old(rows)|
      ensures OnlyTried(written, base, tried)
      ensures Distinct(old(written)) ==> Distinct(written)
      ensures faults == old(faults) + (if ok then 0 else 1)
      ensures ok ==> rows[i].completed && rows[i].storageKey == base + extension
                     && rows[i].metadataKey == metadataKey && rows[i].rawMetadataKey == rawMetadataKey
      ensures ok ==> UpdatedOnce(i) && rows[i].thumbnailKey == own[|old(own)|].before.thumbnailKey
      ensures !ok ==> NoRowWritten()
    {
      AwaitOthers(base, tried);
      var fails := Fails();
      if fails {
        return false;
      }
      SetRow(i, rows[i].(completed := true, storageKey := base + extension,
                         metadataKey := metadataKey, rawMetadataKey := rawMetadataKey), base);
      return true;
    }

    /** Every object of the result: the artifact, the extras, the metadata, the raw metadata. */
    method StoreObjects(base: string, r: Result)
      returns (ok: bool, metadataKey: string, rawMetadataKey: string, ghost tried: seq<string>, ghost extraKeys: map<string, string>)
      requires Valid() && OnlyTried(written, base, [])
      modifies this
      ensures Valid() && Grows(old(store), store) && |rows| == |old(rows)| && NoRowWritten()
      ensures OnlyTried(written, base, tried) && tried <= ArchiveSuffixes(r)
      ensures ok ==> tried == ArchiveSuffixes(r) && base + r.extension in store
      ensures ok ==> metadataKey == (if r.metadata.Some? then base + METADATA_SUFFIX else "") && Stored(store, metadataKey)
      ensures ok ==> rawMetadataKey == (if r.rawMetadata.Some? then base + RAW_METADATA_SUFFIX else "")
      ensures ok ==> Stored(store, rawMetadataKey)
      ensures ok && r.metadata.Some? ==>
                metadataKey in store && store[metadataKey] == Sidecar(WithStoredTracks(r.metadata.value.metadata, extraKeys))
      ensures forall s :: s in extraKeys ==> extraKeys[s] == base + s && extraKeys[s] in store
      ensures faults >= old(faults)
      ensures ok && faults == old(faults) && Distinct(ArchiveSuffixes(r)) ==>
                forall s :: s in ExtraSuffixes(r.extras) ==> s in extraKeys
      ensures Distinct(old(written)) && Distinct(tried) ==> Distinct(written)
      ensures !ok ==> faults > old(faults) || !DocumentsValid(r) || !Distinct(ArchiveSuffixes(r))
    {
      extraKeys, metadataKey, rawMetadataKey := map[], "", "";
      ok := UploadAmongOthers(base, r.extension, Blob, []);
      tried := [r.extension];
      assert [] + [r.extension] == tried;
      if !ok {
        return;
      }
      var keys;
      keys, tried := StoreExtras(base, r.extras, r.extension);
      extraKeys := keys;
      ghost var before := tried;
      DistinctPrefix(ArchiveSuffixes(r), before);
      ok, metadataKey, rawMetadataKey, tried := StoreDocuments(base, r, keys, tried);
      DistinctPrefix(tried, before);
    }

    /**
     * saveArchiveResult, for any result at all: the artifact, the extras, the metadata, the raw metadata, and only then
     * the row. The ghost results list the suffixes uploads were started for and the extras that were stored.
     */
    method Save(i: nat, base: string, r: Result)
      returns (ok: bool, ghost tried: seq<string>, ghost extraKeys: map<string, string>)
      requires Valid() && i < |rows| && OnlyTried(written, base, [])
      modifies this
      ensures Valid() && Grows(old(store), store) && |rows| == |old(rows)|
      ensures OnlyTried(written, base, tried) && tried <= ArchiveSuffixes(r)
      ensures ok ==> tried == ArchiveSuffixes(r)
      ensures ok ==> rows[i].completed && rows[i].storageKey == base + r.extension
      ensures ok ==> rows[i].metadataKey == (if r.metadata.Some? then base + METADATA_SUFFIX else "")
      ensures ok ==> rows[i].rawMetadataKey == (if r.rawMetadata.Some? then base + RAW_METADATA_SUFFIX else "")
      ensures ok && r.metadata.Some? ==>
                rows[i].metadataKey in store
                && store[rows[i].metadataKey] == Sidecar(WithStoredTracks(r.metadata.value.metadata, extraKeys))
      ensures forall s :: s in extraKeys ==> extraKeys[s] == base + s && extraKeys[s] in store
      ensures ok && faults == old(faults) && Distinct(ArchiveSuffixes(r)) ==>
                forall s :: s in ExtraSuffixes(r.extras) ==> s in extraKeys
      ensures Distinct(old(written)) && Distinct(tried) ==> Distinct(written)
      ensures !ok ==> faults > old(faults) || !DocumentsValid(r) || !Distinct(ArchiveSuffixes(r))
      ensures ok ==> UpdatedOnce(i) && rows[i].thumbnailKey == own[|old(own)|].before.thumbnailKey
      ensures faults >= old(faults) && (!ok ==> NoRowWritten())
    {
      var metadataKey, rawMetadataKey;
      ok, metadataKey, rawMetadataKey, tried, extraKeys := StoreObjects(base, r);
      if ok {
        ghost var rows1, foreign1 := rows, foreign;
        ok := MarkCompleted(i, base, r.extension, metadataKey, rawMetadataKey, tried);
        if ok { KeptThenKept(old(rows), old(foreign), rows1, foreign1, rows, foreign, i); }
      }
    }

    /**
     * The same for what an archiver hands over. No key is written twice; without a fault every extra is stored, and a
     * video's record lists all its captions; and only a fault or a malformed document keeps the archive unpublished.
     */
    method SaveArchiveResult(i: nat, base: string, a: Archived)
      returns (ok: bool, ghost tried: seq<string>, ghost extraKeys: map<string, string>)
      requires Valid() && i < |rows| && OnlyTried(written, base, [])
      modifies this
      ensures Valid() && Grows(old(store), store) && |rows| == |old(rows)|
      ensures OnlyTried(written, base, tried) && tried <= ArchiveSuffixes(ResultOf(a))
      ensures Distinct(Keys(base, tried)) && (Distinct(old(written)) ==> Distinct(written))
      ensures !ok ==> faults > old(faults) || !DocumentsValid(ResultOf(a))
      ensures ok ==> UpdatedOnce(i) && rows[i].thumbnailKey == own[|old(own)|].before.thumbnailKey
      ensures faults >= old(faults) && (!ok ==> NoRowWritten())
      ensures ok ==> tried == ArchiveSuffixes(ResultOf(a))
      ensures ok ==> rows[i].completed && rows[i].storageKey == base + ResultOf(a).extension
      ensures ok ==> rows[i].metadataKey == (if ResultOf(a).metadata.Some? then base + METADATA_SUFFIX else "")
      ensures ok ==> rows[i].rawMetadataKey == (if ResultOf(a).rawMetadata.Some? then base + RAW_METADATA_SUFFIX else "")
      ensures ok && ResultOf(a).metadata.Some? ==>
                rows[i].metadataKey in store
                && store[rows[i].metadataKey] == Sidecar(WithStoredTracks(ResultOf(a).metadata.value.metadata, extraKeys))
      ensures forall s :: s in extraKeys ==> extraKeys[s] == base + s && extraKeys[s] in store
      ensures ok && faults == old(faults) ==> forall s :: s in ExtraSuffixes(ResultOf(a).extras) ==> s in extraKeys
      ensures ok && faults == old(faults) && a.Video? && (forall c :: c in Captions(a.base, a.files) ==> c.data != []) ==>
                store[rows[i].metadataKey] == Sidecar(VideoRecord(StoredTracks(base, Captions(a.base, a.files)), a.transcript))
    {
      var r := ResultOf(a);
      ArchivedDistinct(a);
      ok, tried, extraKeys := Save(i, base, r);
      DistinctPrefix(ArchiveSuffixes(r), tried);
      KeysDistinct(base, tried);
      if ok && faults == old(faults) && a.Video? && forall c :: c in Captions(a.base, a.files) ==> c.data != [] {
        AllCaptionsPublished(base, a, extraKeys);
      }
    }

    /** StoreThumbnail, once the archive is published: the row is repointed only at a stored preview. */
    method StoreThumbnail(i: nat, base: string, t: Thumb, ghost tried: seq<string>) returns (ok: bool, ghost after: seq<string>)
      requires Valid() && i < |rows| && OnlyTried(written, base, tried)
      modifies this
      ensures Valid() && Grows(old(store), store) && |rows| == |old(rows)|
      ensures OnlyTried(written, base, after)
      ensures after == tried + (if t.empty then [] else [THUMB_SUFFIX])
      ensures ok ==> rows[i].thumbnailKey == base + THUMB_SUFFIX && rows[i].thumbnailKey in store
      ensures Distinct(old(written)) && Distinct(after) ==> Distinct(written)
      ensures !ok ==> t.empty || faults > old(faults) || !Distinct(after)
      ensures ok ==> UpdatedOnce(i) && SameArchive(own[|old(own)|].before, rows[i])
      ensures !ok ==> NoRowWritten()
      ensures faults >= old(faults)
    {
      after := tried;
      if t.empty {
        return false, after;
      }
      ok := UploadAmongOthers(base, THUMB_SUFFIX, Blob, tried);
      after := tried + [THUMB_SUFFIX];
      if !ok {
        return;
      }
      var fails := Fails();
      if fails {
        return false, after;
      }
      SetRow(i, rows[i].(thumbnailKey := base + THUMB_SUFFIX), base);
    }

    /** The preview of a published archive, if it has one; whether it can be stored does not matter. */
    method AddPreview(i: nat, base: string, r: Result, ghost tried: seq<string>) returns (ghost after: seq<string>)
      requires Valid() && i < |rows| && OnlyTried(written, base, tried)
      modifies this
      ensures Valid() && Grows(old(store), store) && |rows| == |old(rows)|
      ensures OnlyTried(written, base, after) && after == tried + PreviewSuffixes(r)
      ensures Distinct(old(written)) && Distinct(after) ==> Distinct(written)
      ensures faults >= old(faults)
      ensures NoRowWritten() ||
              (UpdatedOnce(i) && SameArchive(own[|old(own)|].before, rows[i]) && rows[i].thumbnailKey == base + THUMB_SUFFIX)
      ensures PreviewSuffixes(r) != [] && faults == old(faults) && Distinct(after) ==> own != old(own)
    {
      after := tried;
      if r.thumbnail.Some? {
        var stored;
        stored, after := StoreThumbnail(i, base, r.thumbnail.value, tried);
      }
    }

    /**
     * The publishing half of processArchiveJob, for a result with distinct suffixes: a published archive stays published
     * whatever its thumbnail does. This worker writes no row but its own, and unless another one has, that row ends up
     * published under its base.
     */
    method PublishResult(i: nat, base: string, r: Result) returns (ok: bool, ghost tried: seq<string>)
      requires Valid() && i < |rows| && OnlyTried(written, base, []) && Distinct(Suffixes(r))
      modifies this
      ensures Valid() && Grows(old(store), store) && |rows| == |old(rows)|
      ensures OnlyTried(written, base, tried) && tried <= Suffixes(r)
      ensures ok ==> tried == Suffixes(r) && base + r.extension in store
      ensures Distinct(old(written)) ==> Distinct(written)
      ensures faults >= old(faults) && (!ok ==> faults > old(faults) || !DocumentsValid(r))
      ensures RowsKept({i}) && (!ok ==> NoRowWritten())
      ensures ok ==> |own| > |old(own)| && own[..|old(own)|] == old(own) && IsPublishing(own[|old(own)|..], i, base, r)
      ensures ok && foreign[i] == old(foreign)[i] ==> Publishes(rows[i], base, r)
      ensures ok && foreign[i] == old(foreign)[i] && faults == old(faults) && PreviewSuffixes(r) != [] ==>
                rows[i].thumbnailKey == base + THUMB_SUFFIX
    {
      ghost var extraKeys;
      assert ArchiveSuffixes(r) <= Suffixes(r);
      DistinctPrefix(Suffixes(r), ArchiveSuffixes(r));
      ok, tried, extraKeys := Save(i, base, r);
      DistinctPrefix(ArchiveSuffixes(r), tried);
      if ok {
        StoredSurvives(i, base, r.extension);
        ghost var first := own;
        tried := AddPreview(i, base, r, tried);
        PublishingJoined(old(own), first, own, i, base, r);
      }
    }

    /** The same for what an archiver hands over. */
    method Publish(i: nat, base: string, a: Archived) returns (ok: bool, ghost tried: seq<string>)
      requires Valid() && i < |rows| && OnlyTried(written, base, [])
      modifies this
      ensures Valid() && Grows(old(store), store) && |rows| == |old(rows)|
      ensures OnlyTried(written, base, tried) && tried <= Suffixes(ResultOf(a))
      ensures ok ==> tried == Suffixes(ResultOf(a)) && base + ResultOf(a).extension in store
      ensures Distinct(Keys(base, tried)) && (Distinct(old(written)) ==> Distinct(written))
      ensures !ok ==> faults > old(faults) || !DocumentsValid(ResultOf(a))
      ensures RowsKept({i}) && (!ok ==> NoRowWritten())
      ensures ok ==> |own| > |old(own)| && own[..|old(own)|] == old(own) && IsPublishing(own[|old(own)|..], i, base, ResultOf(a))
      ensures ok && foreign[i] == old(foreign)[i] ==> Publishes(rows[i], base, ResultOf(a))
      ensures ok && foreign[i] == old(foreign)[i] && faults == old(faults) && PreviewSuffixes(ResultOf(a)) != [] ==>
                rows[i].thumbnailKey == base + THUMB_SUFFIX
    {
      var r := ResultOf(a);
      ArchivedDistinct(a);
      ok, tried := PublishResult(i, base, r);
      DistinctPrefix(Suffixes(r), tried);
      KeysDistinct(base, tried);
    }

    lemma StoredSurvives(i: nat, base: string, extension: string)
      requires Valid() && i < |rows| && rows[i].completed && rows[i].storageKey == base + extension
      ensures base + extension in store
    {
      assert RowOk(store, rows[i]);
    }
  }

  lemma PublishingJoined(before: seq<Update>, first: seq<Update>, after: seq<Update>, i: nat, base: string, r: Result)
    requires |first| == |before| + 1 && first[..|before|] == before
    requires var u := first[|before|]; u.row == i && Publishes(u.after, base, r) && u.after.thumbnailKey == u.before.thumbnailKey
    requires after == first || IsRepointing(first, after, i, base)
    ensures |after| > |before| && after[..|before|] == before && IsPublishing(after[|before|..], i, base, r)
  {
    assert after[..|first|] == first;
    assert after[..|before|] == first[..|before|];
    assert after[|before|] == first[|before|];
  }

  predicate IsRepointing(first: seq<Update>, after: seq<Update>, i: nat, base: string) {
    && |after| == |first| + 1 && after[..|first|] == first && after[|first|].row == i
    && SameArchive(after[|first|].before, after[|first|].after) && after[|first|].after.thumbnailKey == base + THUMB_SUFFIX
  }

  lemma DistinctPrefix(all: seq<string>, tried: seq<string>)
    requires tried <= all
    ensures Distinct(all) ==> Distinct(tried)
  {
  }

  /** Once the kept tracks are reconciled with what was stored, the record lists nothing else. */
  lemma ReconciledStored(m: Metadata, keys: map<string, string>, store: map<string, Object>)
    requires forall s :: s in keys ==> keys[s] in store
    ensures ObjectOk(store, Sidecar(WithStoredTracks(m, keys)))
  {
    if m.VideoRecord? {
      ReconciledLaw(m.subtitles, keys);
      var kept := Reconciled(m.subtitles, keys);
      assert forall i :: 0 <= i < |kept| ==> kept[i] in kept;
    }
  }
}
