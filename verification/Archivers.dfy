/** What the archivers hand over to be stored: the caption artifacts of a video, and every shape of result. */
module Archivers {
  import opened Strings
  import opened Models
  import opened Utf8
  import opened Subtitles
  import Lex
  import Url

  // ----- Caption files

  const CAPTION_EXTENSIONS := [".vtt", ".srt", ".ttml", ".srv1", ".srv2", ".srv3", ".json3"]

  /** 8 << 20 */
  const MAX_CAPTION_BYTES: nat := 8_388_608

  /** What os.Stat and os.ReadFile give; None when they fail. */
  datatype TempFile = TempFile(size: Option<nat>, content: Option<Bytes>)

  /** The files yt-dlp left beside the video, by base name; each name extends the video's own by a dot and more. */
  type TempFiles = map<string, TempFile>

  datatype Caption = Caption(language: string, format: string, suffix: string, data: Bytes)

  /** SubtitleLangFromFilename: what stands between the video's name and the extension. */
  function LanguageOf(name: string, base: string): string {
    var rest := TrimPrefix(TrimPrefix(name, base), ".");
    match Url.CutLast(rest, '.')
    case None => rest
    case Some((language, _)) => if language == "" then rest else language
  }

  function ArtifactSuffix(language: string, format: string): string {
    ".sub." + language + "." + (if format == "" then "vtt" else format)
  }

  /** A file that is a caption track worth storing. */
  function CaptionOf(base: string, name: string, file: TempFile): Option<Caption> {
    var extension := ToLower(Ext(name));
    var language := LanguageOf(name, base);
    if extension !in CAPTION_EXTENSIONS || language == "" then None
    else if file.size.None? || file.size.value == 0 || file.size.value > MAX_CAPTION_BYTES || file.content.None? then None
    else
      var format := TrimPrefix(extension, ".");
      Some(Caption(language, format, ArtifactSuffix(language, format), file.content.value))
  }

  predicate IsReadable(file: TempFile) {
    file.size.Some? && 0 < file.size.value <= MAX_CAPTION_BYTES && file.content.Some?
  }

  lemma CaptionExtension(extension: string)
    requires extension in CAPTION_EXTENSIONS
    ensures |extension| > 1 && extension[0] == '.' && '.' !in extension[1..]
    ensures forall i :: 0 <= i < |extension| ==> LowerChar(extension[i]) == extension[i]
  {
  }

  lemma LanguageStands(base: string, language: string, extension: string)
    requires |extension| > 1 && extension[0] == '.' && '.' !in extension[1..] && language != ""
    ensures LanguageOf(base + ("." + (language + extension)), base) == language
  {
    PrefixTrims(base, "." + (language + extension));
    PrefixTrims(".", language + extension);
    assert language + extension == language + ['.'] + extension[1..];
    Url.CutLastAt(language, '.', extension[1..]);
  }

  lemma CaptionName(base: string, language: string, extension: string)
    ensures base + "." + language + extension == base + ("." + (language + extension))
  {
  }

  lemma CaptionSuffix(language: string, extension: string)
    requires |extension| > 1 && extension[0] == '.'
    ensures TrimPrefix(extension, ".") == extension[1..]
    ensures ArtifactSuffix(language, extension[1..]) == ".sub." + language + extension
  {
    assert extension == "." + extension[1..];
  }

  lemma CaptionRead(base: string, name: string, language: string, extension: string, file: TempFile)
    requires extension in CAPTION_EXTENSIONS && language != "" && IsReadable(file)
    requires ToLower(Ext(name)) == extension && LanguageOf(name, base) == language
    ensures var format := TrimPrefix(extension, ".");
            CaptionOf(base, name, file) == Some(Caption(language, format, ArtifactSuffix(language, format), file.content.value))
  {
  }

  /** A readable file named after the video, a language and a format is the caption of that language in that format. */
  lemma CaptionFound(base: string, language: string, extension: string, file: TempFile)
    requires extension in CAPTION_EXTENSIONS && language != "" && IsReadable(file)
    ensures CaptionOf(base, base + "." + language + extension, file)
            == Some(Caption(language, extension[1..], ".sub." + language + extension, file.content.value))
  {
    CaptionExtension(extension);
    CaptionName(base, language, extension);
    LanguageStands(base, language, extension);
    LowerExt(base + "." + language, extension);
    CaptionRead(base, base + "." + language + extension, language, extension, file);
    CaptionSuffix(language, extension);
  }

  /** The caption a name stands for, if its file is one. */
  type Reading = string -> Option<Caption>

  function ReadIn(base: string, files: TempFiles): Reading {
    (name: string) => if name in files then CaptionOf(base, name, files[name]) else None
  }

  predicate Holds(captions: seq<Caption>, suffix: string) {
    exists i :: 0 <= i < |captions| && captions[i].suffix == suffix
  }

  /** One more file; a suffix already taken is skipped. */
  function Joined(before: seq<Caption>, found: Option<Caption>): seq<Caption> {
    if found.None? || Holds(before, found.value.suffix) then before else before + [found.value]
  }

  /** The captions these names stand for, in order. */
  function CaptionsOf(read: Reading, names: seq<string>): seq<Caption> {
    if names == [] then [] else Joined(CaptionsOf(read, names[..|names| - 1]), read(names[|names| - 1]))
  }

  /** What the archiver finds, whatever order the directory is read in. */
  function Captions(base: string, files: TempFiles): seq<Caption> {
    CaptionsOf(ReadIn(base, files), Lex.InOrder(files.Keys))
  }

  ghost predicate DistinctSuffixes(captions: seq<Caption>) {
    forall i, j :: 0 <= i < j < |captions| ==> captions[i].suffix != captions[j].suffix
  }

  lemma {:induction false} CaptionsDistinct(read: Reading, names: seq<string>)
    ensures DistinctSuffixes(CaptionsOf(read, names))
  {
    if names != [] {
      CaptionsDistinct(read, names[..|names| - 1]);
    }
  }

  /** Each caption is what some name stands for. */
  lemma {:induction false} CaptionsRead(read: Reading, names: seq<string>, c: Caption)
    requires c in CaptionsOf(read, names)
    ensures exists n :: n in names && read(n) == Some(c)
  {
    var init, last := names[..|names| - 1], names[|names| - 1];
    if c in CaptionsOf(read, init) {
      CaptionsRead(read, init, c);
    } else {
      assert last in names && read(last) == Some(c);
    }
  }

  lemma HoldsMore(captions: seq<Caption>, found: Option<Caption>, suffix: string)
    ensures Holds(Joined(captions, found), suffix) <==>
              Holds(captions, suffix) || (found.Some? && found.value.suffix == suffix)
  {
    var after := Joined(captions, found);
    if Holds(captions, suffix) {
      var i :| 0 <= i < |captions| && captions[i].suffix == suffix;
      assert after[i].suffix == suffix;
    } else if found.Some? && found.value.suffix == suffix {
      assert after[|captions|].suffix == suffix;
    }
  }

  /** No usable file is lost: its suffix is stored, from it or from an earlier one. */
  lemma {:induction false} CaptionsComplete(read: Reading, names: seq<string>, k: nat)
    requires k < |names| && read(names[k]).Some?
    ensures Holds(CaptionsOf(read, names), read(names[k]).value.suffix)
  {
    var n := |names| - 1;
    if k < n {
      CaptionsComplete(read, names[..n], k);
    }
    HoldsMore(CaptionsOf(read, names[..n]), read(names[n]), read(names[k]).value.suffix);
  }

  /** A caption's suffix is built from the language and one of the formats. */
  predicate IsNamed(c: Caption) {
    ['.'] + c.format in CAPTION_EXTENSIONS && c.language != "" && c.suffix == ArtifactSuffix(c.language, c.format)
  }

  lemma ExtensionTrims(extension: string)
    requires extension in CAPTION_EXTENSIONS
    ensures ['.'] + TrimPrefix(extension, ".") == extension
  {
    assert forall i :: 0 <= i < |CAPTION_EXTENSIONS| ==> CAPTION_EXTENSIONS[i][0] == '.';
  }

  lemma CaptionNamed(base: string, name: string, file: TempFile)
    requires CaptionOf(base, name, file).Some?
    ensures IsNamed(CaptionOf(base, name, file).value)
  {
    ExtensionTrims(ToLower(Ext(name)));
  }

  /**
   * No suffix is used twice and each names a language and a format; every file that is a usable caption has its suffix
   * among them.
   */
  lemma CaptionsLaw(base: string, files: TempFiles)
    ensures DistinctSuffixes(Captions(base, files))
    ensures forall c :: c in Captions(base, files) ==> IsNamed(c)
    ensures forall n :: n in files && CaptionOf(base, n, files[n]).Some? ==>
              Holds(Captions(base, files), CaptionOf(base, n, files[n]).value.suffix)
  {
    var read, names := ReadIn(base, files), Lex.InOrder(files.Keys);
    CaptionsDistinct(read, names);
    forall c | c in Captions(base, files) ensures IsNamed(c) {
      CaptionsRead(read, names, c);
      var n :| n in names && read(n) == Some(c);
      CaptionNamed(base, n, files[n]);
    }
    Lex.InOrderLaw(files.Keys);
    forall n | n in files && CaptionOf(base, n, files[n]).Some?
      ensures Holds(Captions(base, files), CaptionOf(base, n, files[n]).value.suffix)
    {
      var k :| 0 <= k < |names| && names[k] == n;
      CaptionsComplete(read, names, k);
    }
  }

  // ----- collectSubtitleArtifacts

  /** An extra artifact; one without a suffix or without bytes is skipped when it is stored. */
  datatype Extra = Extra(suffix: string, empty: bool)

  function ExtraOf(c: Caption): Extra {
    Extra(c.suffix, c.data == [])
  }

  function TrackOf(c: Caption): Track {
    Track(c.language, c.suffix, "")
  }

  function ExtrasOf(captions: seq<Caption>): seq<Extra> {
    seq(|captions|, i requires 0 <= i < |captions| => ExtraOf(captions[i]))
  }

  function TracksOf(captions: seq<Caption>): seq<Track> {
    seq(|captions|, i requires 0 <= i < |captions| => TrackOf(captions[i]))
  }

  /** Sorting what the directory lists gives the one order of its names. */
  lemma ListingSorted(files: TempFiles, matches: seq<string>)
    requires Lex.Distinct(matches) && forall n :: n in matches <==> n in files
    ensures Lex.Sort(matches) == Lex.InOrder(files.Keys)
  {
    Lex.SortLaw(matches);
    Lex.SortForgetsOrder(matches, matches);
    Lex.InOrderLaw(files.Keys);
    forall n ensures n in Lex.Sort(matches) <==> n in Lex.InOrder(files.Keys) {
      assert n in Lex.Sort(matches) <==> n in matches;
    }
    Lex.SortedUnique(Lex.Sort(matches), Lex.InOrder(files.Keys));
  }

  /** One artifact and one track a caption, for every order in which the directory is read. */
  method CollectSubtitleArtifacts(base: string, files: TempFiles, matches: seq<string>)
    returns (extras: seq<Extra>, tracks: seq<Track>)
    requires Lex.Distinct(matches) && forall n :: n in matches <==> n in files
    ensures extras == ExtrasOf(Captions(base, files)) && tracks == TracksOf(Captions(base, files))
  {
    var names := Lex.SortStrings(matches);
    ListingSorted(files, matches);
    extras, tracks := CollectInOrder(names, ReadIn(base, files));
  }

  /** The loop over the sorted names. */
  method CollectInOrder(names: seq<string>, read: Reading) returns (extras: seq<Extra>, tracks: seq<Track>)
    ensures extras == ExtrasOf(CaptionsOf(read, names)) && tracks == TracksOf(CaptionsOf(read, names))
  {
    extras, tracks := [], [];
    var seen: set<string> := {};
    ghost var captions: seq<Caption> := [];
    for i := 0 to |names|
      invariant captions == CaptionsOf(read, names[..i])
      invariant extras == ExtrasOf(captions) && tracks == TracksOf(captions)
      invariant forall s :: s in seen <==> Holds(captions, s)
    {
      assert names[..i + 1][..i] == names[..i];
      var found := read(names[i]);
      forall s ensures Holds(Joined(captions, found), s) <==> Holds(captions, s) || (found.Some? && found.value.suffix == s) {
        HoldsMore(captions, found, s);
      }
      captions := Joined(captions, found);
      if found.Some? && found.value.suffix !in seen {
        extras := extras + [ExtraOf(found.value)];
        tracks := tracks + [TrackOf(found.value)];
        seen := seen + {found.value.suffix};
      }
    }
    assert names[..|names|] == names;
  }

  // ----- Results

  /** A JSON document; one that is empty or no JSON is refused. */
  datatype Document = Document(valid: bool, metadata: Metadata)

  datatype Thumb = Thumb(empty: bool)

  /** What an archiver hands over, by what can be stored of it. */
  datatype Result = Result(
    extension: string,
    extras: seq<Extra>,
    metadata: Option<Document>,
    rawMetadata: Option<Document>,
    thumbnail: Option<Thumb>)

  /** Every way an archiver ends well: the four page archivers, gallery-dl, yt-dlp, and the provider's fallbacks. */
  datatype Archived =
    | Page
    | Screenshot(tall: bool, thumbnail: Option<Thumb>)
    | Repository
    | Game
    | Gallery(metadata: Option<Document>, rawMetadata: Option<Document>, thumbnail: Option<Thumb>)
    | Video(base: string, files: TempFiles, transcript: Option<string>, rawMetadata: Option<Document>, thumbnail: Option<Thumb>)
    | ProviderVideo(metadata: Option<Document>, rawMetadata: Option<Document>, thumbnail: Option<Thumb>)

  function ResultOf(a: Archived): Result {
    match a
    case Page => Result(".mhtml", [], None, None, None)
    case Screenshot(tall, thumbnail) => Result(if tall then ".jpg" else ".webp", [], None, None, thumbnail)
    case Repository => Result(".tar", [], None, None, None)
    case Game => Result(".zip", [], None, None, None)
    case Gallery(metadata, rawMetadata, thumbnail) => Result(".zip", [], metadata, rawMetadata, thumbnail)
    case Video(base, files, transcript, rawMetadata, thumbnail) =>
      var captions := Captions(base, files);
      Result(".mp4", ExtrasOf(captions), Some(Document(true, VideoRecord(TracksOf(captions), transcript))), rawMetadata, thumbnail)
    case ProviderVideo(metadata, rawMetadata, thumbnail) => Result(".mp4", [], metadata, rawMetadata, thumbnail)
  }
}
