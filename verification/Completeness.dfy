/** How much of a post an archive holds, from the download loop to the answer an API caller reads. */
module Completeness {
  import opened Models
  import opened Strings

  const COMPLETE := "complete"
  const PARTIAL := "partial"
  const UNKNOWN := "unknown"

  datatype Verdict = Verdict(state: string, expected: Option<int>, stored: nat, missing: seq<nat>)

  function NormalizeCompletenessState(state: string): string {
    if state == COMPLETE || state == PARTIAL || state == UNKNOWN then state else UNKNOWN
  }

  function CompletenessFromCounts(expected: Option<int>, stored: nat, runFailed: bool): Verdict {
    if expected.Some? && expected.value > 0 then
      Verdict(if stored >= expected.value then COMPLETE else PARTIAL, expected, stored, [])
    else Verdict(if runFailed then PARTIAL else UNKNOWN, None, stored, [])
  }

  /**
   * Complete needs a positive promised count that was reached; a promise fallen short of, or a failed run without one, is
   * partial; the rest is unknown.
   */
  lemma CompleteNeedsEvidence(expected: Option<int>, stored: nat, runFailed: bool)
    ensures var v, promised := CompletenessFromCounts(expected, stored, runFailed), expected.Some? && expected.value > 0;
            && (v.state == COMPLETE <==> promised && stored >= expected.value)
            && (v.state == PARTIAL <==> (promised && stored < expected.value) || (!promised && runFailed))
            && (v.state == UNKNOWN <==> !promised && !runFailed)
            && v.expected == (if promised then expected else None) && v.stored == stored && v.missing == []
    ensures NormalizeCompletenessState(CompletenessFromCounts(expected, stored, runFailed).state)
              == CompletenessFromCounts(expected, stored, runFailed).state
  {
    StateNames();
  }

  lemma StateNames()
    ensures COMPLETE == "complete" && PARTIAL == "partial" && UNKNOWN == "unknown"
    ensures COMPLETE != "" && COMPLETE != PARTIAL && COMPLETE != UNKNOWN && PARTIAL != UNKNOWN
  {
    assert COMPLETE[0] == 'c' && PARTIAL[0] == 'p' && UNKNOWN[0] == 'u';
  }

  // ----- buildGalleryArchive

  /** What one entry's download came to: its stored size, or nothing. */
  datatype Slide = Kept(size: nat) | Dropped

  datatype GalleryFile = GalleryFile(index: nat, size: nat)

  datatype GalleryResult =
    | Built(files: seq<GalleryFile>, verdict: Verdict, totalBytes: nat)
    | NoMedia
    | NoTempDir
    | AllFailed(totalBytes: nat)
    | InspectFailed(totalBytes: nat)
    | BundleFailed(verdict: Verdict, totalBytes: nat)

  function Kept(slides: seq<Slide>): (files: seq<GalleryFile>) {
    if slides == [] then []
    else
      var k := |slides| - 1;
      Kept(slides[..k]) + (if slides[k].Kept? then [GalleryFile(k + 1, slides[k].size)] else [])
  }

  function Missing(slides: seq<Slide>): seq<nat> {
    if slides == [] then []
    else
      var k := |slides| - 1;
      Missing(slides[..k]) + (if slides[k].Dropped? then [k + 1] else [])
  }

  function TotalSize(files: seq<GalleryFile>): nat {
    if files == [] then 0 else TotalSize(files[..|files| - 1]) + files[|files| - 1].size
  }

  lemma {:induction false} CountsAdd(slides: seq<Slide>)
    ensures |Kept(slides)| + |Missing(slides)| == |slides|
  {
    if slides != [] { CountsAdd(slides[..|slides| - 1]); }
  }

  lemma {:induction false} MissingLaw(slides: seq<Slide>, m: nat)
    ensures m in Missing(slides) <==> 1 <= m <= |slides| && slides[m - 1].Dropped?
  {
    if slides != [] {
      var init := slides[..|slides| - 1];
      MissingLaw(init, m);
      assert m <= |init| && 1 <= m ==> slides[m - 1] == init[m - 1];
    }
  }

  lemma {:induction false} KeptLaw(slides: seq<Slide>, f: GalleryFile)
    ensures f in Kept(slides) <==> 1 <= f.index <= |slides| && slides[f.index - 1] == Slide.Kept(f.size)
  {
    if slides != [] {
      var init := slides[..|slides| - 1];
      KeptLaw(init, f);
      assert f.index <= |init| && 1 <= f.index ==> slides[f.index - 1] == init[f.index - 1];
    }
  }

  predicate Increasing(indices: seq<nat>) {
    forall i, j :: 0 <= i < j < |indices| ==> indices[i] < indices[j]
  }

  lemma {:induction false} MissingIncreases(slides: seq<Slide>)
    ensures Increasing(Missing(slides))
  {
    if slides != [] {
      var init := slides[..|slides| - 1];
      MissingIncreases(init);
      forall i | 0 <= i < |Missing(init)| ensures Missing(init)[i] < |slides| {
        MissingLaw(init, Missing(init)[i]);
      }
    }
  }

  /** Stored plus missing is declared; the missing list is increasing and names each lost slide. */
  lemma SlidesAccounted(slides: seq<Slide>)
    ensures |Kept(slides)| + |Missing(slides)| == |slides| && Increasing(Missing(slides))
    ensures forall m :: m in Missing(slides) <==> 1 <= m <= |slides| && slides[m - 1].Dropped?
    ensures forall f :: f in Kept(slides) <==> 1 <= f.index <= |slides| && slides[f.index - 1] == Slide.Kept(f.size)
  {
    CountsAdd(slides);
    MissingIncreases(slides);
    forall m: nat ensures m in Missing(slides) <==> 1 <= m <= |slides| && slides[m - 1].Dropped? {
      MissingLaw(slides, m);
    }
    forall f ensures f in Kept(slides) <==> 1 <= f.index <= |slides| && slides[f.index - 1] == Slide.Kept(f.size) {
      KeptLaw(slides, f);
    }
  }

  /** How one entry fared: not fetched, fetched but no media, fetched and uninspectable, or usable. */
  datatype Download = Lost | Rejected | Unreadable | Usable(size: nat)

  function SlideOf(d: Download): Slide {
    if d.Usable? then Slide.Kept(d.size) else Dropped
  }

  function SlidesOf(downloads: seq<Download>): seq<Slide> {
    seq(|downloads|, i requires 0 <= i < |downloads| => SlideOf(downloads[i]))
  }

  /** What the loop keeps: the files, the missing indices and the bytes. */
  datatype Tally = Tally(files: seq<GalleryFile>, missing: seq<nat>, totalBytes: nat)

  function TallyOf(downloads: seq<Download>): Tally {
    var slides := SlidesOf(downloads);
    Tally(Kept(slides), Missing(slides), TotalSize(Kept(slides)))
  }

  lemma TallyStep(downloads: seq<Download>, i: nat)
    requires i < |downloads|
    ensures var t, d := TallyOf(downloads[..i]), downloads[i];
            TallyOf(downloads[..i + 1]) ==
              if d.Usable? then Tally(t.files + [GalleryFile(i + 1, d.size)], t.missing, t.totalBytes + d.size)
              else Tally(t.files, t.missing + [i + 1], t.totalBytes)
  {
    var slides, slide := SlidesOf(downloads[..i]), SlideOf(downloads[i]);
    assert SlidesOf(downloads[..i + 1]) == slides + [slide];
    assert (slides + [slide])[..i] == slides;
    assert Kept(slides) + [] == Kept(slides) && Missing(slides) + [] == Missing(slides);
    if slide.Kept? {
      var file := GalleryFile(i + 1, slide.size);
      assert (Kept(slides) + [file])[..|Kept(slides)|] == Kept(slides);
    }
  }

  /** The download loop, up to the first file that cannot be inspected. */
  method TallyDownloads(downloads: seq<Download>) returns (t: Tally, stopped: Option<nat>)
    ensures stopped.None? ==> Unreadable !in downloads && t == TallyOf(downloads)
    ensures stopped.Some? ==> IsFirstUnreadable(downloads, stopped.value) && t == TallyOf(downloads[..stopped.value])
  {
    t := Tally([], [], 0);
    for i := 0 to |downloads|
      invariant Unreadable !in downloads[..i]
      invariant t == TallyOf(downloads[..i])
    {
      TallyStep(downloads, i);
      match downloads[i]
      case Lost =>
        t := t.(missing := t.missing + [i + 1]);
      case Rejected =>
        t := t.(missing := t.missing + [i + 1]);
      case Unreadable =>
        return t, Some(i);
      case Usable(size) =>
        t := Tally(t.files + [GalleryFile(i + 1, size)], t.missing, t.totalBytes + size);
    }
    assert downloads[..|downloads|] == downloads;
    return t, None;
  }

  predicate IsFirstUnreadable(downloads: seq<Download>, i: nat) {
    i < |downloads| && downloads[i].Unreadable? && Unreadable !in downloads[..i]
  }

  /** What is stored, what is missing and the verdict are those of the slides; a whole gallery is complete, any other partial. */
  ghost predicate IsAccount(downloads: seq<Download>, verdict: Verdict, totalBytes: nat) {
    var slides := SlidesOf(downloads);
    && verdict.expected == Some(|downloads|) && verdict.stored == |Kept(slides)| && verdict.missing == Missing(slides)
    && totalBytes == TotalSize(Kept(slides))
    && verdict.state == if forall i :: 0 <= i < |downloads| ==> downloads[i].Usable? then COMPLETE else PARTIAL
  }

  /**
   * Whether the temporary directory, the ZIP and its reader can be had is up to the system. An uninspectable file ends
   * the build with the bytes so far; once the loop is over, the account of the slides is handed on even if the bundle fails.
   */
  method BuildGalleryArchive(downloads: seq<Download>, tempDir: bool, zip: bool, reader: bool) returns (r: GalleryResult)
    ensures r.NoMedia? <==> downloads == []
    ensures r.NoTempDir? <==> downloads != [] && !tempDir
    ensures r.InspectFailed? <==> tempDir && Unreadable in downloads
    ensures r.InspectFailed? ==>
              exists i: nat :: IsFirstUnreadable(downloads, i) && r.totalBytes == TallyOf(downloads[..i]).totalBytes
    ensures r.AllFailed? <==> downloads != [] && tempDir && Unreadable !in downloads && Kept(SlidesOf(downloads)) == []
    ensures r.AllFailed? ==> r.totalBytes == 0
    ensures r.Built? ==> zip && reader && r.files == Kept(SlidesOf(downloads)) && IsAccount(downloads, r.verdict, r.totalBytes)
    ensures r.BundleFailed? ==> !(zip && reader) && IsAccount(downloads, r.verdict, r.totalBytes)
  {
    if |downloads| == 0 {
      return NoMedia;
    }
    if !tempDir {
      return NoTempDir;
    }
    var t, stopped := TallyDownloads(downloads);
    if stopped.Some? {
      return InspectFailed(t.totalBytes);
    }
    if |t.files| == 0 {
      return AllFailed(t.totalBytes);
    }
    BuiltIsComplete(downloads);
    var verdict := CompletenessFromCounts(Some(|downloads|), |t.files|, false).(missing := t.missing);
    if !zip || !reader {
      return BundleFailed(verdict, t.totalBytes);
    }
    r := Built(t.files, verdict, t.totalBytes);
  }

  lemma BuiltIsComplete(downloads: seq<Download>)
    requires downloads != []
    ensures CompletenessFromCounts(Some(|downloads|), |Kept(SlidesOf(downloads))|, false).state
            == if forall i :: 0 <= i < |downloads| ==> downloads[i].Usable? then COMPLETE else PARTIAL
  {
    var slides := SlidesOf(downloads);
    CountsAdd(slides);
    CompleteNeedsEvidence(Some(|downloads|), |Kept(slides)|, false);
    AllUsable(downloads);
  }

  lemma AllUsable(downloads: seq<Download>)
    ensures Missing(SlidesOf(downloads)) == [] <==> forall i :: 0 <= i < |downloads| ==> downloads[i].Usable?
  {
    var slides := SlidesOf(downloads);
    var missing := Missing(slides);
    if missing != [] {
      MissingLaw(slides, missing[0]);
    }
    if i :| 0 <= i < |downloads| && !downloads[i].Usable? {
      MissingLaw(slides, i + 1);
    }
  }

  // ----- Reuse by find-or-create

  predicate CompletedSocialItemIsReusable(item: Item) {
    if NormalizeCompletenessState(item.completeness) != COMPLETE || item.storageKey == "" then false
    else if ArchiveTypesEqual(item.typ, YT_DLP) then item.metadataKey != "" && item.rawMetadataKey != ""
    else ArchiveTypesEqual(item.typ, GALLERY_DL)
  }

  /** A video by its current or retired type name. */
  predicate IsVideoType(typ: string) {
    TrimSpace(typ) == "yt-dlp" || ToLower(TrimSpace(typ)) == "youtube"
  }

  lemma SocialTypes(typ: string)
    ensures ArchiveTypesEqual(typ, YT_DLP) <==> IsVideoType(typ)
    ensures ArchiveTypesEqual(typ, GALLERY_DL) <==> TrimSpace(typ) == "gallery-dl"
  {
    NormalNames();
    if ToLower(TrimSpace(typ)) == YOUTUBE && TrimSpace(typ) == GALLERY_DL { LowerLaw(GALLERY_DL); }
  }

  /** A trimmed name whose length is not the retired name's is its own normal form. */
  lemma NormalName(t: string)
    requires Trimmed(t) && |t| != |YOUTUBE|
    ensures NormalizeArchiveType(t) == t
  {
    TrimLaw(t);
    LowerLaw(t);
  }

  lemma PlainNames()
    ensures Trimmed(YT_DLP) && |YT_DLP| != |YOUTUBE| && Trimmed(GALLERY_DL) && |GALLERY_DL| != |YOUTUBE|
    ensures |YT_DLP| != |GALLERY_DL|
  {
  }

  lemma NormalNames()
    ensures NormalizeArchiveType(YT_DLP) == YT_DLP && NormalizeArchiveType(GALLERY_DL) == GALLERY_DL && YT_DLP != GALLERY_DL
  {
    PlainNames();
    NormalName(YT_DLP);
    NormalName(GALLERY_DL);
  }

  /** Reuse by the columns: recorded complete and stored, and for a video both metadata documents. */
  lemma ReusableColumns(item: Item)
    ensures CompletedSocialItemIsReusable(item) <==>
              && item.completeness == "complete" && item.storageKey != ""
              && (IsVideoType(item.typ) || TrimSpace(item.typ) == "gallery-dl")
              && (IsVideoType(item.typ) ==> item.metadataKey != "" && item.rawMetadataKey != "")
  {
    SocialTypes(item.typ);
    StateNames();
  }

  // ----- The API's verdict

  predicate IsStructurallyCompleteVideo(item: Item) {
    ArchiveTypesEqual(item.typ, YT_DLP) && item.storageKey != "" && item.metadataKey != "" && item.rawMetadataKey != ""
  }

  function SocialCompletenessFor(item: Item, fromArchive: Option<Verdict>, storedMedia: nat): Verdict {
    var expected0 := if fromArchive.Some? then fromArchive.value.expected else None;
    var missing := if fromArchive.Some? then fromArchive.value.missing else [];
    var recorded :=
      if item.completeness != "" then NormalizeCompletenessState(item.completeness)
      else if fromArchive.Some? && fromArchive.value.state != "" then NormalizeCompletenessState(fromArchive.value.state)
      else if IsStructurallyCompleteVideo(item) then COMPLETE
      else UNKNOWN;
    var expected := if recorded == COMPLETE && expected0.None? && ArchiveTypesEqual(item.typ, YT_DLP) then Some(1) else expected0;
    var state :=
      if expected.Some? && storedMedia < expected.value then PARTIAL
      else if storedMedia == 0 && recorded == COMPLETE then PARTIAL
      else recorded;
    Verdict(state, expected, storedMedia, missing)
  }

  /** What the verdict of an answer says besides being complete: short of a known count, or recorded partial, is partial. */
  lemma ServedVerdict(item: Item, fromArchive: Option<Verdict>, storedMedia: nat)
    ensures var v := SocialCompletenessFor(item, fromArchive, storedMedia);
            && v.stored == storedMedia
            && v.missing == (if fromArchive.Some? then fromArchive.value.missing else [])
            && (fromArchive.Some? && fromArchive.value.expected.Some? ==> v.expected == fromArchive.value.expected)
            && (v.expected.Some? && storedMedia < v.expected.value ==> v.state == PARTIAL)
            && (item.completeness == PARTIAL ==> v.state == PARTIAL)
            && (item.completeness == UNKNOWN && !(v.expected.Some? && storedMedia < v.expected.value) ==> v.state == UNKNOWN)
  {
    StateNames();
  }

  datatype Answer = Answer(fulfilled: bool, status: string)

  /** The tail of buildSocialPost for a completed item. */
  method BuildSocialPost(item: Item, fromArchive: Option<Verdict>, storedMedia: nat,
                         hasPost: bool, validPost: bool, rawAvailable: bool) returns (a: Answer)
    requires validPost ==> hasPost
    ensures a.fulfilled <==> Fulfilled(item, fromArchive, storedMedia, validPost, rawAvailable)
    ensures a.status == if a.fulfilled then "fulfilled" else if storedMedia > 0 || hasPost then "partial" else "failed"
  {
    var completeness := SocialCompletenessFor(item, fromArchive, storedMedia);
    var fulfilled := validPost && rawAvailable && storedMedia > 0 && completeness.state == COMPLETE;
    var status := "failed";
    if fulfilled {
      status := "fulfilled";
    } else if storedMedia > 0 || hasPost {
      status := "partial";
    }
    FulfilledMeaning(item, fromArchive, storedMedia, validPost, rawAvailable);
    a := Answer(fulfilled, status);
  }

  /** Someone vouched for completeness: the item's column, else the archive itself, else a legacy video's keys. */
  predicate VouchedComplete(item: Item, fromArchive: Option<Verdict>) {
    || item.completeness == COMPLETE
    || (item.completeness == "" && fromArchive.Some? && fromArchive.value.state == COMPLETE)
    || (item.completeness == "" && !(fromArchive.Some? && fromArchive.value.state != "") && IsStructurallyCompleteVideo(item))
  }

  /** What "fulfilled" tells an API caller. */
  predicate Fulfilled(item: Item, fromArchive: Option<Verdict>, storedMedia: nat, validPost: bool, rawAvailable: bool) {
    && validPost && rawAvailable && storedMedia > 0
    && VouchedComplete(item, fromArchive)
    && (fromArchive.Some? && fromArchive.value.expected.Some? ==> storedMedia >= fromArchive.value.expected.value)
  }

  /** The branching verdict is complete exactly when it is vouched for and still servable. */
  lemma FulfilledMeaning(item: Item, fromArchive: Option<Verdict>, storedMedia: nat, validPost: bool, rawAvailable: bool)
    ensures validPost && rawAvailable && storedMedia > 0
              && SocialCompletenessFor(item, fromArchive, storedMedia).state == COMPLETE
            <==> Fulfilled(item, fromArchive, storedMedia, validPost, rawAvailable)
  {
    assert COMPLETE != "" && COMPLETE[0] != PARTIAL[0] && UNKNOWN[0] != COMPLETE[0];
  }

  /** Whenever a count is known to the answer, a fulfilled post serves at least that many. */
  lemma FulfilledReachesExpected(item: Item, fromArchive: Option<Verdict>, storedMedia: nat, validPost: bool, rawAvailable: bool)
    requires Fulfilled(item, fromArchive, storedMedia, validPost, rawAvailable)
    ensures var v := SocialCompletenessFor(item, fromArchive, storedMedia);
            v.expected.Some? ==> v.stored >= v.expected.value
  {
    FulfilledMeaning(item, fromArchive, storedMedia, validPost, rawAvailable);
    assert COMPLETE[0] != PARTIAL[0];
  }

  /**
   * Partial never reads green: an item recorded from a gallery build that lost a slide, or recorded
   * unknown, is neither reusable nor fulfilled, whatever the archive or the server says later.
   */
  lemma PartialNeverGreen(item: Item, slides: seq<Slide>, fromArchive: Option<Verdict>, storedMedia: nat,
                          validPost: bool, rawAvailable: bool)
    requires || (item.completeness == NormalizeCompletenessState(CompletenessFromCounts(Some(|slides|), |Kept(slides)|, false).state)
                 && Missing(slides) != [])
             || item.completeness == PARTIAL
             || item.completeness == UNKNOWN
    ensures !CompletedSocialItemIsReusable(item)
    ensures !Fulfilled(item, fromArchive, storedMedia, validPost, rawAvailable)
  {
    CountsAdd(slides);
    CompleteNeedsEvidence(Some(|slides|), |Kept(slides)|, false);
    assert |PARTIAL| != |COMPLETE| && |UNKNOWN| != |COMPLETE|;
  }

  // ----- selectSocialItem

  /** Not a social item, or how it ranks: routed type counts two, completion one. */
  datatype Grade = Skipped | Grade(rank: nat, updatedAt: int)

  function GradeOf(item: Item, preferred: string): Grade {
    if !ArchiveTypesEqual(item.typ, YT_DLP) && !ArchiveTypesEqual(item.typ, GALLERY_DL) then Skipped
    else
      Grade((if preferred != "" && ArchiveTypesEqual(item.typ, preferred) then 2 else 0)
            + (if item.status == COMPLETED then 1 else 0), item.updatedAt)
  }

  function Grading(preferred: string): Item -> Grade {
    (item: Item) => GradeOf(item, preferred)
  }

  predicate Below(a: Grade, b: Grade) {
    a.Grade? && b.Grade? && (a.rank < b.rank || (a.rank == b.rank && a.updatedAt < b.updatedAt))
  }

  /** best is the first social item that no social item ranks above. */
  ghost predicate Selects(items: seq<Item>, n: nat, grade: Item -> Grade, best: Option<nat>)
    requires n <= |items|
  {
    match best
    case None => forall k :: 0 <= k < n ==> grade(items[k]).Skipped?
    case Some(b) =>
      && b < n && grade(items[b]).Grade?
      && (forall k :: 0 <= k < n ==> !Below(grade(items[b]), grade(items[k])))
      && (forall k :: 0 <= k < b && grade(items[k]).Grade? ==> Below(grade(items[k]), grade(items[b])))
  }

  method SelectByGrade(items: seq<Item>, grade: Item -> Grade) returns (best: Option<nat>)
    ensures Selects(items, |items|, grade, best)
  {
    best := None;
    var i := 0;
    while i < |items|
      invariant 0 <= i <= |items| && Selects(items, i, grade, best)
    {
      var g := grade(items[i]);
      if g.Grade? {
        if best.None? || Below(grade(items[best.value]), g) {
          best := Some(i);
        }
      }
      i := i + 1;
    }
  }

  predicate IsSocial(item: Item) {
    ArchiveTypesEqual(item.typ, YT_DLP) || ArchiveTypesEqual(item.typ, GALLERY_DL)
  }

  predicate IsRouted(item: Item, preferred: string) {
    preferred != "" && ArchiveTypesEqual(item.typ, preferred)
  }

  /** The routed type comes first, then completion, then the time of the last update. */
  predicate Outranks(a: Item, b: Item, preferred: string) {
    if IsRouted(a, preferred) != IsRouted(b, preferred) then IsRouted(a, preferred)
    else if (a.status == COMPLETED) != (b.status == COMPLETED) then a.status == COMPLETED
    else a.updatedAt > b.updatedAt
  }

  lemma GradesRank(a: Item, b: Item, preferred: string)
    ensures GradeOf(a, preferred).Grade? <==> IsSocial(a)
    ensures IsSocial(a) && IsSocial(b) ==> (Below(GradeOf(b, preferred), GradeOf(a, preferred)) <==> Outranks(a, b, preferred))
  {
  }

  method SelectSocialItem(items: seq<Item>, preferred: string) returns (best: Option<nat>)
    ensures Selects(items, |items|, Grading(preferred), best)
    ensures best.None? <==> forall k :: 0 <= k < |items| ==> !IsSocial(items[k])
    ensures best.Some? ==> best.value < |items| && IsSocial(items[best.value])
    ensures best.Some? ==>
              forall k :: 0 <= k < |items| && IsSocial(items[k]) ==> !Outranks(items[k], items[best.value], preferred)
    ensures best.Some? ==>
              forall k :: 0 <= k < best.value && IsSocial(items[k]) ==> Outranks(items[best.value], items[k], preferred)
  {
    best := SelectByGrade(items, Grading(preferred));
    forall k, b | 0 <= k < |items| && 0 <= b < |items|
      ensures Grading(preferred)(items[k]).Grade? <==> IsSocial(items[k])
      ensures IsSocial(items[k]) && IsSocial(items[b]) ==>
                (Below(Grading(preferred)(items[b]), Grading(preferred)(items[k])) <==> Outranks(items[k], items[b], preferred))
    {
      GradesRank(items[k], items[b], preferred);
    }
  }
}
