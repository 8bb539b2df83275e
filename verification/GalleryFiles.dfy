/** Renaming downloaded media after their bytes, without losing or overwriting any file. */
module GalleryFiles {
  import opened Utf8
  import opened Models
  import opened Strings
  import Lex

  const JSON := ".json"

  predicate HasJSONSuffix(name: string) {
    |name| >= 5 && name[|name| - 5..] == JSON
  }

  /** The formats leading bytes are recognized as. */
  datatype Format = JPEG | PNG | GIF | WebP | MP3 | MP4 | WebM | QuickTime | AVIF | HEIC | HEIF {
    function Extension(): string {
      match this
      case JPEG => ".jpg"
      case PNG => ".png"
      case GIF => ".gif"
      case WebP => ".webp"
      case MP3 => ".mp3"
      case MP4 => ".mp4"
      case WebM => ".webm"
      case QuickTime => ".mov"
      case AVIF => ".avif"
      case HEIC => ".heic"
      case HEIF => ".heif"
    }
  }

  /** InspectGalleryMediaFile: the name with the extension its bytes call for, if they are recognized. */
  function CanonicalName(name: string, detected: Option<Format>): string {
    ExtFits(name);
    name[..|name| - |Ext(name)|] + (if detected.Some? then detected.value.Extension() else Ext(name))
  }

  lemma ExtensionShape(format: Format)
    ensures var e := format.Extension(); |e| >= 4 && e[0] == '.' && '.' !in e[1..] && e[|e| - 1] != 'n'
  {
  }

  /** The media type the bytes are recognized as. */
  function MediaType(format: Format): string {
    match format
    case JPEG => "image/jpeg"
    case PNG => "image/png"
    case GIF => "image/gif"
    case WebP => "image/webp"
    case MP3 => "audio/mpeg"
    case MP4 => "video/mp4"
    case WebM => "video/webm"
    case QuickTime => "video/quicktime"
    case AVIF => "image/avif"
    case HEIC => "image/heic"
    case HEIF => "image/heif"
  }

  /** galleryContentType: what a file is served as by its name alone; other extensions go to the system's table. */
  function ContentTypeOf(e: string): Option<string> {
    if e == ".jpg" || e == ".jpeg" then Some("image/jpeg")
    else if e == ".png" then Some("image/png")
    else if e == ".gif" then Some("image/gif")
    else if e == ".webp" then Some("image/webp")
    else if e == ".avif" then Some("image/avif")
    else if e == ".heic" then Some("image/heic")
    else if e == ".heif" then Some("image/heif")
    else if e == ".mp4" || e == ".m4v" then Some("video/mp4")
    else if e == ".webm" then Some("video/webm")
    else if e == ".mov" then Some("video/quicktime")
    else if e == ".mkv" then Some("video/x-matroska")
    else if e == ".mp3" then Some("audio/mpeg")
    else if e == ".m4a" then Some("audio/mp4")
    else if e == ".json" then Some("application/json")
    else None
  }

  function GalleryContentType(name: string): Option<string> {
    ContentTypeOf(ToLower(Ext(name)))
  }

  lemma ExtensionLower(format: Format)
    ensures forall i :: 0 <= i < |format.Extension()| ==> LowerChar(format.Extension()[i]) == format.Extension()[i]
  {
  }

  lemma ExtensionServes(format: Format)
    ensures ContentTypeOf(format.Extension()) == Some(MediaType(format))
  {
  }

  /** A renamed file is served as what its bytes are. */
  lemma ServedAsDetected(name: string, format: Format)
    ensures GalleryContentType(CanonicalName(name, Some(format))) == Some(MediaType(format))
  {
    ExtFits(name);
    ExtensionShape(format);
    ExtensionLower(format);
    LowerExt(name[..|name| - |Ext(name)|], format.Extension());
    ExtensionServes(format);
  }

  lemma EndsOtherwise(stem: string, e: string)
    requires e != "" && e[|e| - 1] != 'n'
    ensures !HasJSONSuffix(stem + e)
  {
    assert (stem + e)[|stem + e| - 1] == e[|e| - 1];
    assert JSON[4] == 'n';
  }

  /** The new name is no JSON name either, and the bytes call for no other. */
  lemma CanonicalNameLaw(name: string, detected: Option<Format>)
    requires !HasJSONSuffix(name)
    ensures var new' := CanonicalName(name, detected);
            !HasJSONSuffix(new') && CanonicalName(new', detected) == new'
  {
    ExtFits(name);
    var stem := name[..|name| - |Ext(name)|];
    assert name == stem + Ext(name);
    if detected.Some? {
      var e := detected.value.Extension();
      ExtensionShape(detected.value);
      EndsOtherwise(stem, e);
      ExtOfExtended(stem, e);
      assert (stem + e)[..|stem + e| - |e|] == stem;
    }
  }

  type Files = map<string, Bytes>

  /** No two files are in one place. */
  ghost predicate Injective(at: map<string, string>) {
    forall x, y {:trigger at[x], at[y]} :: x in at && y in at && at[x] == at[y] ==> x == y
  }

  /** after is before with each file moved to at[its name]: no byte string lost, merged or altered, and none added. */
  ghost predicate Renaming(before: Files, after: Files, at: map<string, string>) {
    && at.Keys == before.Keys && |after| == |before|
    && (forall x :: x in at ==> at[x] in after && after[at[x]] == before[x])
    && Injective(at)
  }

  function Moved(files: Files, old': string, new': string): Files
    requires old' in files
  {
    (files - {old'})[new' := files[old']]
  }

  lemma RenamingStep(before: Files, after: Files, at: map<string, string>, x: string, new': string)
    requires Renaming(before, after, at) && x in at && new' !in after
    ensures Renaming(before, Moved(after, at[x], new'), at[x := new'])
  {
    MovedSize(after, at[x], new');
    InjectiveStep(at, x, new');
    forall y | y in at && y != x ensures at[y] in Moved(after, at[x], new') && Moved(after, at[x], new')[at[y]] == before[y] {
      OthersElsewhere(at, x, y);
    }
  }

  lemma OthersElsewhere(at: map<string, string>, x: string, y: string)
    requires Injective(at) && x in at && y in at && x != y
    ensures at[x] != at[y]
  {
  }

  lemma InjectiveStep(at: map<string, string>, x: string, new': string)
    requires Injective(at) && x in at && forall y :: y in at && y != x ==> at[y] != new'
    ensures Injective(at[x := new'])
  {
  }

  lemma MovedSize(files: Files, old': string, new': string)
    requires old' in files && new' !in files
    ensures |Moved(files, old', new')| == |files|
  {
    assert Moved(files, old', new').Keys == files.Keys - {old'} + {new'};
  }

  lemma MovedBack(files: Files, old': string, new': string)
    requires old' in files && new' !in files
    ensures Moved(Moved(files, old', new'), new', old') == files
  {
  }

  /** The places of some files, counted. */
  lemma {:induction false} PlacesCounted(at: map<string, string>, xs: set<string>)
    requires Injective(at) && xs <= at.Keys
    ensures |set x | x in xs :: at[x]| == |xs|
  {
    var places := set x | x in xs :: at[x];
    if xs != {} {
      var y :| y in xs;
      PlacesCounted(at, xs - {y});
      assert places == (set x | x in xs - {y} :: at[x]) + {at[y]};
    } else {
      assert places == {};
    }
  }

  /** Every file there is was somewhere before. */
  lemma RenamingOnto(before: Files, after: Files, at: map<string, string>, c: string)
    requires Renaming(before, after, at) && c in after
    ensures exists x :: x in at && at[x] == c
  {
    PlacesCounted(at, at.Keys);
    var places := set x | x in at.Keys :: at[x];
    assert places <= after.Keys;
    if c !in places {
      SmallerSet(places, after.Keys - {c});
    }
  }

  lemma SmallerSet(a: set<string>, b: set<string>)
    requires a <= b
    ensures |a| <= |b|
  {
    assert b == a + (b - a);
  }

  /** Whether a file system takes two names for one: equal names, and where case does not count, some others. */
  type SameName = (string, string) -> bool

  ghost predicate IsSameName(same: SameName) {
    && (forall a :: same(a, a))
    && (forall a, b :: same(a, b) ==> same(b, a) && |a| == |b|)
    && (forall a, b, c :: same(a, b) && same(b, c) ==> same(a, c))
  }

  /** No two files have names the file system takes for one. */
  ghost predicate Unaliased(files: Files, same: SameName) {
    forall x, y :: x in files && y in files && same(x, y) ==> x == y
  }

  /** Only the file old' may be in the way of the name new'. */
  predicate FreeFor(files: Files, same: SameName, old': string, new': string) {
    forall x :: x in files && same(x, new') ==> x == old'
  }

  /** After a rename: whatever the destination held is gone. */
  function Replaced(files: Files, same: SameName, old': string, new': string): Files
    requires old' in files
  {
    (map x | x in files && x != old' && !same(x, new') :: files[x])[new' := files[old']]
  }

  lemma FreeMoves(files: Files, same: SameName, old': string, new': string)
    requires IsSameName(same) && Unaliased(files, same) && old' in files && FreeFor(files, same, old', new')
    ensures Replaced(files, same, old', new') == Moved(files, old', new')
    ensures Unaliased(Moved(files, old', new'), same) && (new' != old' ==> new' !in files)
  {
    var after := Moved(files, old', new');
    forall x, y | x in after && y in after && same(x, y) ensures x == y {
      assert same(y, x);
    }
    assert same(new', new');
  }

  class Directory {
    var files: Files
    const same: SameName
    /** How often a system call has failed by itself. */
    ghost var faults: nat

    constructor (files: Files, same: SameName)
      requires IsSameName(same) && Unaliased(files, same)
      ensures this.files == files && this.same == same && Valid()
    {
      this.files := files;
      this.same := same;
    }

    ghost predicate Valid()
      reads this
    {
      IsSameName(same) && Unaliased(files, same)
    }

    method Fails() returns (b: bool)
      modifies this`faults
      ensures faults == old(faults) + (if b then 1 else 0)
    {
      b := *;
      if b {
        faults := faults + 1;
      }
    }

    /** os.Stat finds a file under any of its names. */
    predicate Finds(name: string)
      reads this
    {
      exists x :: x in files && same(x, name)
    }

    /**
     * galleryRenameAvailable: the source must be there, and at the destination there must be nothing or the same file,
     * as there is when only the case of a name changes and case does not count.
     */
    method RenameAvailable(old': string, new': string) returns (ok: bool)
      requires Valid()
      modifies this`faults
      ensures Valid() && faults >= old(faults) && (ok ==> faults == old(faults))
      ensures ok ==> Finds(old') && (!Finds(new') || same(old', new'))
      ensures !ok && faults == old(faults) ==> !Finds(old') || (Finds(new') && !same(old', new'))
    {
      var statFails := Fails();
      ok := !statFails && Finds(old') && (!Finds(new') || same(old', new'));
    }

    /** os.Rename of a file by its own name. */
    method Rename(old': string, new': string) returns (ok: bool)
      requires old' in files
      modifies this
      ensures files == if ok then Replaced(old(files), same, old', new') else old(files)
      ensures faults == old(faults) + (if ok then 0 else 1)
    {
      var fails := Fails();
      ok := !fails;
      if ok {
        files := Replaced(files, same, old', new');
      }
    }
  }

  // ----- collectGalleryFiles

  /** Media are the files that are not JSON; a JSON file named after another file is its sidecar. */
  ghost predicate Collected(files: Files, media: seq<string>, sidecars: map<string, string>) {
    && Lex.Distinct(media)
    && (forall m :: m in media <==> m in files && !HasJSONSuffix(m))
    && (forall k :: k in sidecars <==> k + JSON in files)
    && (forall k :: k in sidecars ==> sidecars[k] == k + JSON)
  }

  method CollectGalleryFiles(dir: Directory, entries: seq<string>) returns (media: seq<string>, sidecars: map<string, string>)
    requires Lex.Distinct(entries) && forall e :: e in entries <==> e in dir.files
    ensures Collected(dir.files, media, sidecars) && Lex.Sorted(media)
  {
    var found: seq<string> := [];
    sidecars := map[];
    var i := 0;
    while i < |entries|
      invariant 0 <= i <= |entries|
      invariant Lex.Distinct(found)
      invariant forall m :: m in found <==> m in entries[..i] && !HasJSONSuffix(m)
      invariant forall k :: k in sidecars <==> k + JSON in entries[..i]
      invariant forall k :: k in sidecars ==> sidecars[k] == k + JSON
    {
      var name := entries[i];
      assert entries[..i + 1] == entries[..i] + [name];
      if HasJSONSuffix(name) {
        var stem := name[..|name| - 5];
        assert stem + JSON == name;
        assert forall k :: k + JSON == name ==> k == name[..|name| - 5];
        sidecars := sidecars[stem := name];
      } else {
        assert forall k: string :: HasJSONSuffix(k + JSON);
        found := found + [name];
      }
      i := i + 1;
    }
    assert entries[..i] == entries;
    media := Lex.SortStrings(found);
    Lex.SortLaw(found);
    Lex.SortForgetsOrder(found, found);
  }

  // ----- canonicalizeGalleryFiles

  /** What bytes are recognized as. */
  type Detection = Bytes -> Option<Format>

  /** The name a file of this name and these bytes should have. */
  type Naming = (string, Bytes) -> string

  function NamedBy(detect: Detection): Naming {
    (name: string, bytes: Bytes) => CanonicalName(name, detect(bytes))
  }

  /** New names are no JSON names, and are what the bytes call for once more. */
  ghost predicate Settles(naming: Naming) {
    forall name, bytes :: !HasJSONSuffix(name) ==>
      !HasJSONSuffix(naming(name, bytes)) && naming(naming(name, bytes), bytes) == naming(name, bytes)
  }

  lemma NamedBySettles(detect: Detection)
    ensures Settles(NamedBy(detect))
  {
    forall name, bytes: Bytes | !HasJSONSuffix(name)
      ensures var new' := NamedBy(detect)(name, bytes); !HasJSONSuffix(new') && NamedBy(detect)(new', bytes) == new'
    {
      CanonicalNameLaw(name, detect(bytes));
    }
  }

  /** The name each file should have. */
  type Targets = map<string, string>

  function TargetsOf(files: Files, naming: Naming): (targets: Targets)
  {
    map name | name in files :: naming(name, files[name])
  }

  lemma JSONInjective(a: string, b: string)
    ensures HasJSONSuffix(a + JSON) && (a + JSON == b + JSON ==> a == b)
  {
    assert (a + JSON)[..|a + JSON| - 5] == a && (b + JSON)[..|b + JSON| - 5] == b;
  }

  function SidecarOf(sidecars: map<string, string>, name: string): string {
    if name in sidecars then sidecars[name] else ""
  }

  ghost function InPlace(before: Files): map<string, string> {
    map x | x in before :: x
  }

  lemma InPlaceIsRenaming(before: Files)
    ensures Renaming(before, before, InPlace(before))
  {
    var at := InPlace(before);
    assert at.Keys == before.Keys;
    assert forall x :: x in before ==> at[x] == x;
  }

  /** Where one file and its sidecar are after its turn. */
  ghost function TurnOf(at: map<string, string>, name: string, sidecar: string, canonicalName: string): map<string, string> {
    if canonicalName == name then at
    else if sidecar == "" then at[name := canonicalName]
    else at[name := canonicalName][sidecar := canonicalName + JSON]
  }

  /** x is this medium or its sidecar. */
  predicate Belongs(sidecars: map<string, string>, m: string, x: string) {
    x == m || (m in sidecars && x == sidecars[m])
  }

  /** x is one of the first n media or a sidecar of one. */
  ghost predicate Touched(media: seq<string>, sidecars: map<string, string>, n: nat, x: string)
    requires n <= |media|
  {
    exists k :: 0 <= k < n && Belongs(sidecars, media[k], x)
  }

  /** The medium is at its target and its sidecar beside it. */
  ghost predicate IsPlaced(targets: Targets, sidecars: map<string, string>, at: map<string, string>, m: string) {
    && m in targets && m in at && at[m] == targets[m]
    && (m in sidecars ==> sidecars[m] in at && at[sidecars[m]] == targets[m] + JSON)
  }

  /** The first n media are placed, and nothing else has moved. */
  ghost predicate Placed(targets: Targets, media: seq<string>, sidecars: map<string, string>, n: nat, at: map<string, string>)
    requires n <= |media|
  {
    && (forall k :: 0 <= k < n ==> IsPlaced(targets, sidecars, at, media[k]))
    && (forall x :: x in at && !Touched(media, sidecars, n, x) ==> at[x] == x)
  }

  /** What belongs to one medium belongs to no other. */
  ghost predicate Separate(media: seq<string>, sidecars: map<string, string>) {
    forall k, n, x {:trigger Belongs(sidecars, media[k], x), Belongs(sidecars, media[n], x)} ::
      0 <= k < n < |media| && Belongs(sidecars, media[k], x) ==> !Belongs(sidecars, media[n], x)
  }

  /** The names handed on so far: each medium's target, and the sidecars that moved with them. */
  ghost predicate Listed(targets: Targets, media: seq<string>, sidecars: map<string, string>, n: nat,
                         names: seq<string>, kept: map<string, string>)
    requires n <= |media|
  {
    && |names| == n && (forall k :: 0 <= k < n ==> media[k] in targets && names[k] == targets[media[k]])
    && (forall k :: 0 <= k < n && media[k] in sidecars ==> names[k] in kept)
    && (forall c :: c in kept ==> kept[c] == c + JSON && exists k :: 0 <= k < n && media[k] in sidecars && names[k] == c)
  }

  /** No medium is a sidecar, and no two media or sidecars are the same. */
  lemma CollectedSeparate(files: Files, media: seq<string>, sidecars: map<string, string>)
    requires Collected(files, media, sidecars)
    ensures Separate(media, sidecars)
  {
    forall k, n, x | 0 <= k < n < |media| && Belongs(sidecars, media[k], x) ensures !Belongs(sidecars, media[n], x) {
      assert media[k] in media && media[n] in media;
      JSONInjective(media[k], media[n]);
      JSONInjective(media[n], media[k]);
    }
  }

  lemma OwnUntouched(media: seq<string>, sidecars: map<string, string>, n: nat, x: string)
    requires Separate(media, sidecars) && n < |media| && Belongs(sidecars, media[n], x)
    ensures !Touched(media, sidecars, n, x)
  {
  }

  /** Before its turn a file is in place. */
  lemma BeforeTurn(before: Files, targets: Targets, media: seq<string>, sidecars: map<string, string>, n: nat,
                   at: map<string, string>)
    requires Collected(before, media, sidecars) && Separate(media, sidecars) && n < |media| && at.Keys == before.Keys
    requires Placed(targets, media, sidecars, n, at)
    ensures media[n] in at && at[media[n]] == media[n]
    ensures media[n] in sidecars ==>
              sidecars[media[n]] == media[n] + JSON && sidecars[media[n]] in at && at[sidecars[media[n]]] == sidecars[media[n]]
  {
    assert media[n] in media;
    OwnUntouched(media, sidecars, n, media[n]);
    if media[n] in sidecars {
      OwnUntouched(media, sidecars, n, sidecars[media[n]]);
    }
  }

  /** A turn places one medium and leaves the others placed. */
  lemma PlaceNext(targets: Targets, media: seq<string>, sidecars: map<string, string>, n: nat, at: map<string, string>)
    requires Separate(media, sidecars) && n < |media| && Placed(targets, media, sidecars, n, at)
    requires media[n] in targets && media[n] in at && at[media[n]] == media[n]
    requires media[n] in sidecars ==> sidecars[media[n]] in at && sidecars[media[n]] == media[n] + JSON
    requires media[n] in sidecars ==> at[sidecars[media[n]]] == sidecars[media[n]]
    ensures Placed(targets, media, sidecars, n + 1, TurnOf(at, media[n], SidecarOf(sidecars, media[n]), targets[media[n]]))
  {
    var m, sidecar := media[n], SidecarOf(sidecars, media[n]);
    var at2 := TurnOf(at, m, sidecar, targets[m]);
    OneMore(m);
    forall k | 0 <= k < n + 1 ensures IsPlaced(targets, sidecars, at2, media[k]) {
      if k < n {
        assert Belongs(sidecars, media[k], media[k]);
        assert media[k] in sidecars ==> Belongs(sidecars, media[k], sidecars[media[k]]);
        StaysPlaced(targets, sidecars, at, media[k], m, targets[m]);
      } else {
        TurnPlaces(targets, sidecars, at, m);
      }
    }
    forall x | x in at2 && !Touched(media, sidecars, n + 1, x) ensures at2[x] == x {
      assert !Belongs(sidecars, media[n], x);
      assert !Touched(media, sidecars, n, x);
    }
  }

  lemma TurnPlaces(targets: Targets, sidecars: map<string, string>, at: map<string, string>, m: string)
    requires m in targets && m in at && at[m] == m
    requires m in sidecars ==> sidecars[m] == m + JSON && sidecars[m] in at && at[sidecars[m]] == sidecars[m]
    ensures IsPlaced(targets, sidecars, TurnOf(at, m, SidecarOf(sidecars, m), targets[m]), m)
  {
    OneMore(m);
  }

  lemma StaysPlaced(targets: Targets, sidecars: map<string, string>, at: map<string, string>, placed: string,
                    m: string, canonicalName: string)
    requires IsPlaced(targets, sidecars, at, placed)
    requires !Belongs(sidecars, m, placed) && (placed in sidecars ==> !Belongs(sidecars, m, sidecars[placed]))
    ensures IsPlaced(targets, sidecars, TurnOf(at, m, SidecarOf(sidecars, m), canonicalName), placed)
  {
  }

  lemma OneMore(name: string)
    ensures name + JSON != name && name + JSON != ""
  {
    assert |name + JSON| == |name| + 5;
  }

  datatype RenameError = InspectFailed | Unavailable | RenameFailed

  /** The files after a medium's turn. */
  function TurnFiles(files: Files, name: string, sidecar: string, canonicalName: string): Files
    requires name in files && (sidecar != "" ==> sidecar in files && sidecar != name)
  {
    if canonicalName == name then files
    else if sidecar == "" then Moved(files, name, canonicalName)
    else Moved(Moved(files, name, canonicalName), sidecar, canonicalName + JSON)
  }

  /** Nothing else is in the way of the new names. */
  predicate Free(files: Files, same: SameName, name: string, sidecar: string, canonicalName: string) {
    FreeFor(files, same, name, canonicalName) && (sidecar != "" ==> FreeFor(files, same, sidecar, canonicalName + JSON))
  }

  /** What lets a file of the directory through is that nothing else is in the way. */
  lemma AvailableIsFree(files: Files, same: SameName, old': string, new': string)
    requires IsSameName(same) && Unaliased(files, same) && old' in files
    ensures (!(exists x :: x in files && same(x, new')) || same(old', new')) ==> FreeFor(files, same, old', new')
    ensures FreeFor(files, same, old', new') ==> !(exists x :: x in files && same(x, new')) || same(old', new')
  {
    if same(old', new') {
      assert same(new', old');
      forall x | x in files && same(x, new') ensures x == old' {
        assert same(x, old');
      }
    }
  }

  /** One file: both destinations are checked before either rename, and a failed pair is undone if that does not fail too. */
  method RenamePair(dir: Directory, name: string, sidecar: string, canonicalName: string, canonicalSidecar: string)
    returns (error: Option<RenameError>)
    requires dir.Valid() && name in dir.files && canonicalName != name
    requires sidecar != "" ==> sidecar in dir.files && sidecar != name && sidecar != canonicalSidecar
    requires sidecar != "" ==> canonicalSidecar == canonicalName + JSON
    modifies dir
    ensures dir.Valid()
    ensures error.None? ==> Free(old(dir.files), dir.same, name, sidecar, canonicalName)
    ensures error.None? ==> dir.files == TurnFiles(old(dir.files), name, sidecar, canonicalName)
    ensures error.Some? && dir.files != old(dir.files) ==>
              canonicalName !in old(dir.files) && dir.files == Moved(old(dir.files), name, canonicalName)
    ensures dir.faults >= old(dir.faults) && (error.None? ==> dir.faults == old(dir.faults))
    ensures error.Some? && dir.faults == old(dir.faults) ==>
              error == Some(Unavailable) && !Free(dir.files, dir.same, name, sidecar, canonicalName)
  {
    ghost var files, same := dir.files, dir.same;
    AvailableIsFree(files, same, name, canonicalName);
    var ok := dir.RenameAvailable(name, canonicalName);
    if !ok {
      return Some(Unavailable);
    }
    if sidecar != "" {
      AvailableIsFree(files, same, sidecar, canonicalSidecar);
      ok := dir.RenameAvailable(sidecar, canonicalSidecar);
      if !ok {
        return Some(Unavailable);
      }
    }
    FreeMoves(files, same, name, canonicalName);
    ok := dir.Rename(name, canonicalName);
    if !ok {
      return Some(RenameFailed);
    }
    if sidecar != "" {
      SidecarStillFree(files, same, name, sidecar, canonicalName);
      FreeMoves(dir.files, same, sidecar, canonicalSidecar);
      ok := dir.Rename(sidecar, canonicalSidecar);
      if !ok {
        MovesBack(files, same, name, canonicalName);
        var undone := dir.Rename(canonicalName, name);
        return Some(RenameFailed);
      }
    }
    error := None;
  }

  /** The first rename is not in the second one's way. */
  lemma SidecarStillFree(files: Files, same: SameName, name: string, sidecar: string, canonicalName: string)
    requires IsSameName(same) && name in files && sidecar in files && sidecar != name
    requires FreeFor(files, same, name, canonicalName) && FreeFor(files, same, sidecar, canonicalName + JSON)
    ensures sidecar in Moved(files, name, canonicalName)
    ensures FreeFor(Moved(files, name, canonicalName), same, sidecar, canonicalName + JSON)
  {
    assert same(canonicalName, canonicalName + JSON) ==> |canonicalName| == |canonicalName + JSON|;
  }

  /** Undoing a rename restores the directory. */
  lemma MovesBack(files: Files, same: SameName, name: string, canonicalName: string)
    requires IsSameName(same) && Unaliased(files, same) && name in files && canonicalName != name
    requires FreeFor(files, same, name, canonicalName)
    ensures canonicalName in Moved(files, name, canonicalName)
    ensures Replaced(Moved(files, name, canonicalName), same, canonicalName, name) == files
  {
    FreeMoves(files, same, name, canonicalName);
    MovedBack(files, name, canonicalName);
    FreeMoves(Moved(files, name, canonicalName), same, canonicalName, name);
  }

  /** Some other file already has a medium's new name, or its sidecar's. */
  predicate TargetTaken(files: Files, same: SameName, name: string, canonicalName: string) {
    !FreeFor(files, same, name, canonicalName) || !FreeFor(files, same, name + JSON, canonicalName + JSON)
  }


  /** InspectGalleryMediaFile and, where the name disagrees with the bytes, the renames. */
  method CanonicalizeOne(dir: Directory, name: string, sidecar: string, naming: Naming)
    returns (error: Option<RenameError>, canonicalName: string, canonicalSidecar: string)
    requires dir.Valid() && name in dir.files && (sidecar != "" ==> sidecar == name + JSON && sidecar in dir.files)
    modifies dir
    ensures dir.Valid()
    ensures error.None? ==> canonicalName == naming(name, old(dir.files)[name])
    ensures error.None? ==> canonicalName == name || Free(old(dir.files), dir.same, name, sidecar, canonicalName)
    ensures error.None? ==> dir.files == TurnFiles(old(dir.files), name, sidecar, canonicalName)
    ensures error.None? ==> canonicalSidecar == if sidecar == "" then "" else canonicalName + JSON
    ensures error.Some? && dir.files != old(dir.files) ==>
              canonicalName !in old(dir.files) && dir.files == Moved(old(dir.files), name, canonicalName)
    ensures dir.faults >= old(dir.faults) && (error.None? ==> dir.faults == old(dir.faults))
    ensures error.Some? && dir.faults == old(dir.faults) ==>
              TargetTaken(dir.files, dir.same, name, naming(name, old(dir.files)[name]))
  {
    canonicalName, canonicalSidecar, error := name, sidecar, None;
    var inspectFails := dir.Fails();
    if inspectFails {
      error := Some(InspectFailed);
      return;
    }
    canonicalName := naming(name, dir.files[name]);
    if canonicalName != name {
      if sidecar != "" {
        canonicalSidecar := canonicalName + JSON;
      }
      JSONInjective(name, canonicalName);
      error := RenamePair(dir, name, sidecar, canonicalName, canonicalSidecar);
    }
  }

  /** A turn is a renaming too. */
  lemma TurnRenames(before: Files, files: Files, at: map<string, string>, same: SameName, name: string, sidecar: string,
                    canonicalName: string)
    requires IsSameName(same) && Unaliased(files, same) && Renaming(before, files, at) && name in at && at[name] == name
    requires sidecar != "" ==> sidecar == name + JSON && sidecar in at && at[sidecar] == sidecar && sidecar != name
    requires canonicalName == name || Free(files, same, name, sidecar, canonicalName)
    ensures name in files && (sidecar != "" ==> sidecar in files)
    ensures Renaming(before, TurnFiles(files, name, sidecar, canonicalName), TurnOf(at, name, sidecar, canonicalName))
  {
    if canonicalName != name {
      JSONInjective(name, canonicalName);
      FreeMoves(files, same, name, canonicalName);
      RenamingStep(before, files, at, name, canonicalName);
      if sidecar != "" {
        OneMore(canonicalName);
        FreeMoves(files, same, sidecar, canonicalName + JSON);
        RenamingStep(before, Moved(files, name, canonicalName), at[name := canonicalName], sidecar, canonicalName + JSON);
      }
    }
  }

  /** No two media share a new name, because no two files do. */
  lemma NamesDistinct(before: Files, after: Files, targets: Targets, media: seq<string>, sidecars: map<string, string>,
                      at: map<string, string>, names: seq<string>, kept: map<string, string>)
    requires Lex.Distinct(media) && Renaming(before, after, at)
    requires Placed(targets, media, sidecars, |media|, at) && Listed(targets, media, sidecars, |media|, names, kept)
    ensures Lex.Distinct(names)
  {
    forall i, j | 0 <= i < j < |media| ensures names[i] != names[j] {
      assert IsPlaced(targets, sidecars, at, media[i]) && IsPlaced(targets, sidecars, at, media[j]);
    }
  }

  /** One more medium on the lists. */
  lemma ListNext(targets: Targets, media: seq<string>, sidecars: map<string, string>, n: nat,
                 names: seq<string>, kept: map<string, string>, c: string, sidecar: string)
    requires n < |media| && media[n] in targets && c == targets[media[n]] && Listed(targets, media, sidecars, n, names, kept)
    requires sidecar == if media[n] in sidecars then c + JSON else ""
    ensures Listed(targets, media, sidecars, n + 1, names + [c], if sidecar != "" then kept[c := sidecar] else kept)
  {
    OneMore(c);
    var names2, kept2 := names + [c], if sidecar != "" then kept[c := sidecar] else kept;
    forall d | d in kept2
      ensures kept2[d] == d + JSON && exists k :: 0 <= k < n + 1 && media[k] in sidecars && names2[k] == d
    {
      if d in kept {
        var k :| 0 <= k < n && media[k] in sidecars && names[k] == d;
        assert names2[k] == d;
      } else {
        assert names2[n] == d;
      }
    }
  }

  /** Some medium cannot have its new name. */
  ghost predicate Blocked(before: Files, files: Files, same: SameName, naming: Naming, media: seq<string>) {
    exists m :: m in media && m in before && TargetTaken(files, same, m, naming(m, before[m]))
  }

  lemma AtStart(before: Files, targets: Targets, media: seq<string>, sidecars: map<string, string>)
    ensures Renaming(before, before, InPlace(before)) && Placed(targets, media, sidecars, 0, InPlace(before))
    ensures Listed(targets, media, sidecars, 0, [], map[])
  {
    InPlaceIsRenaming(before);
  }

  /** The loop over the media. */
  method RenameAll(dir: Directory, media: seq<string>, sidecars: map<string, string>, naming: Naming)
    returns (error: Option<RenameError>, names: seq<string>, kept: map<string, string>, ghost at: map<string, string>)
    requires dir.Valid()
    requires Collected(dir.files, media, sidecars)
    modifies dir
    ensures dir.Valid()
    ensures Renaming(old(dir.files), dir.files, at)
    ensures error.None? ==> Placed(TargetsOf(old(dir.files), naming), media, sidecars, |media|, at)
    ensures error.None? ==> Listed(TargetsOf(old(dir.files), naming), media, sidecars, |media|, names, kept)
    ensures dir.faults >= old(dir.faults) && (error.None? ==> dir.faults == old(dir.faults))
    ensures error.Some? && dir.faults == old(dir.faults) ==> Blocked(old(dir.files), dir.files, dir.same, naming, media)
  {
    ghost var before, targets := dir.files, TargetsOf(dir.files, naming);
    at := InPlace(before);
    AtStart(before, targets, media, sidecars);
    error, names, kept := None, [], map[];
    var i := 0;
    while i < |media|
      invariant 0 <= i <= |media|
      invariant dir.Valid() && Renaming(before, dir.files, at)
      invariant Placed(targets, media, sidecars, i, at)
      invariant Listed(targets, media, sidecars, i, names, kept)
      invariant error.None? && dir.faults == old(dir.faults)
    {
      var canonicalName, canonicalSidecar;
      error, canonicalName, canonicalSidecar, at := TakeTurn(dir, media, sidecars, naming, i, before, targets, at);
      if error.Some? {
        return;
      }
      ListNext(targets, media, sidecars, i, names, kept, canonicalName, canonicalSidecar);
      names := names + [canonicalName];
      if canonicalSidecar != "" {
        kept := kept[canonicalName := canonicalSidecar];
      }
      i := i + 1;
    }
  }

  /** One turn of the loop, and where every file is afterwards. */
  method TakeTurn(dir: Directory, media: seq<string>, sidecars: map<string, string>, naming: Naming, i: nat,
                  ghost before: Files, ghost targets: Targets, ghost at: map<string, string>)
    returns (error: Option<RenameError>, canonicalName: string, canonicalSidecar: string, ghost at2: map<string, string>)
    requires dir.Valid()
    requires Collected(before, media, sidecars) && targets == TargetsOf(before, naming) && i < |media|
    requires Renaming(before, dir.files, at) && Placed(targets, media, sidecars, i, at)
    modifies dir
    ensures dir.Valid()
    ensures Renaming(before, dir.files, at2) && media[i] in before
    ensures error.None? ==> canonicalName == targets[media[i]] && Placed(targets, media, sidecars, i + 1, at2)
    ensures error.None? ==> canonicalSidecar == if media[i] in sidecars then canonicalName + JSON else ""
    ensures dir.faults >= old(dir.faults) && (error.None? ==> dir.faults == old(dir.faults))
    ensures error.Some? && dir.faults == old(dir.faults) ==> Blocked(before, dir.files, dir.same, naming, media)
  {
    assert media[i] in media;
    TurnReady(before, dir.files, targets, media, sidecars, i, at);
    var sidecar := SidecarOf(sidecars, media[i]);
    ghost var files := dir.files;
    error, canonicalName, canonicalSidecar := CanonicalizeOne(dir, media[i], sidecar, naming);
    at2 := if error.None? then TurnOf(at, media[i], sidecar, canonicalName)
           else if dir.files == files then at
           else at[media[i] := canonicalName];
    if error.None? {
      TurnRenames(before, files, at, dir.same, media[i], sidecar, canonicalName);
    } else if dir.files != files {
      RenamingStep(before, files, at, media[i], canonicalName);
    }
  }

  /** What a turn relies on, and where it leads. */
  lemma TurnReady(before: Files, files: Files, targets: Targets, media: seq<string>, sidecars: map<string, string>, i: nat,
                  at: map<string, string>)
    requires Collected(before, media, sidecars) && targets.Keys == before.Keys && i < |media|
    requires Renaming(before, files, at) && Placed(targets, media, sidecars, i, at)
    ensures var m, sidecar := media[i], SidecarOf(sidecars, media[i]);
            && m in targets && m in at && at[m] == m && m in files && files[m] == before[m]
            && sidecar == (if m in sidecars then m + JSON else "")
            && (m in sidecars ==> sidecar != "" && sidecar != m && sidecar in at && at[sidecar] == sidecar && sidecar in files)
            && Placed(targets, media, sidecars, i + 1, TurnOf(at, m, sidecar, targets[m]))
  {
    assert media[i] in media;
    CollectedSeparate(before, media, sidecars);
    BeforeTurn(before, targets, media, sidecars, i, at);
    PlaceNext(targets, media, sidecars, i, at);
    OneMore(media[i]);
  }

  /** A medium is placed under its new name. */
  lemma MediumAt(targets: Targets, media: seq<string>, sidecars: map<string, string>, at: map<string, string>, m: string)
    requires Placed(targets, media, sidecars, |media|, at) && m in media
    ensures m in targets && m in at && at[m] == targets[m]
    ensures m in sidecars ==> sidecars[m] in at && at[sidecars[m]] == at[m] + JSON
  {
    var k :| 0 <= k < |media| && media[k] == m;
    assert IsPlaced(targets, sidecars, at, media[k]);
  }

  /** What is no medium is still a JSON file. */
  lemma OtherAt(before: Files, targets: Targets, media: seq<string>, sidecars: map<string, string>,
                at: map<string, string>, x: string)
    requires Collected(before, media, sidecars) && at.Keys == before.Keys
    requires Placed(targets, media, sidecars, |media|, at) && x in at && x !in media
    ensures HasJSONSuffix(at[x])
  {
    if Touched(media, sidecars, |media|, x) {
      var k :| 0 <= k < |media| && Belongs(sidecars, media[k], x);
      assert media[k] in media;
      MediumAt(targets, media, sidecars, at, media[k]);
      JSONInjective(at[media[k]], x);
    }
  }

  /** In the end the files that are not JSON are exactly the media, and each has the name its bytes call for. */
  lemma MediaAfter(before: Files, after: Files, naming: Naming, media: seq<string>, sidecars: map<string, string>,
                   at: map<string, string>, c: string)
    requires Collected(before, media, sidecars) && Renaming(before, after, at) && Settles(naming)
    requires Placed(TargetsOf(before, naming), media, sidecars, |media|, at) && c in after
    ensures !HasJSONSuffix(c) <==> exists m :: m in media && at[m] == c
    ensures !HasJSONSuffix(c) ==> naming(c, after[c]) == c
  {
    RenamingOnto(before, after, at, c);
    var x :| x in at && at[x] == c;
    if x in media {
      MediumAt(TargetsOf(before, naming), media, sidecars, at, x);
    } else {
      OtherAt(before, TargetsOf(before, naming), media, sidecars, at, x);
      if m :| m in media && at[m] == c {
        MediumAt(TargetsOf(before, naming), media, sidecars, at, m);
        assert false;
      }
    }
  }

  /**
   * Each medium has the name its bytes call for, its sidecar is beside it and every other file is where it was; the
   * names handed on are all the media there are, sorted, and the sidecars handed on are theirs.
   */
  ghost predicate Canonicalized(before: Files, after: Files, naming: Naming, media: seq<string>, sidecars: map<string, string>,
                                at: map<string, string>, canonicalMedia: seq<string>, canonicalSidecars: map<string, string>)
    requires Collected(before, media, sidecars) && Renaming(before, after, at)
  {
    && (forall m :: m in media ==> at[m] == naming(m, before[m]))
    && (forall m :: m in media && m in sidecars ==> at[sidecars[m]] == at[m] + JSON)
    && (forall x :: x in at && !Touched(media, sidecars, |media|, x) ==> at[x] == x)
    && Lex.Sorted(canonicalMedia) && Lex.Distinct(canonicalMedia)
    && (forall c :: c in canonicalMedia <==> c in after && !HasJSONSuffix(c))
    && (forall c :: c in canonicalMedia ==> naming(c, after[c]) == c)
    && (forall m :: m in media ==> (at[m] in canonicalSidecars <==> m in sidecars))
    && (forall c :: c in canonicalSidecars ==> c in canonicalMedia && canonicalSidecars[c] == c + JSON)
  }

  /**
   * On every path the directory is a renaming of what it was, so no bytes are lost or overwritten; without a failing
   * call an error means that a new name is taken.
   */
  method CanonicalizeGalleryFiles(dir: Directory, media: seq<string>, sidecars: map<string, string>, detect: Detection)
    returns (error: Option<RenameError>, canonicalMedia: seq<string>, canonicalSidecars: map<string, string>,
             ghost at: map<string, string>)
    requires dir.Valid()
    requires Collected(dir.files, media, sidecars)
    modifies dir
    ensures dir.Valid()
    ensures Renaming(old(dir.files), dir.files, at)
    ensures error.None? ==>
              Canonicalized(old(dir.files), dir.files, NamedBy(detect), media, sidecars, at, canonicalMedia, canonicalSidecars)
    ensures error.Some? && dir.faults == old(dir.faults) ==> Blocked(old(dir.files), dir.files, dir.same, NamedBy(detect), media)
  {
    NamedBySettles(detect);
    error, canonicalMedia, canonicalSidecars, at := CanonicalizeBy(dir, media, sidecars, NamedBy(detect));
  }

  method CanonicalizeBy(dir: Directory, media: seq<string>, sidecars: map<string, string>, naming: Naming)
    returns (error: Option<RenameError>, canonicalMedia: seq<string>, canonicalSidecars: map<string, string>,
             ghost at: map<string, string>)
    requires dir.Valid()
    requires Collected(dir.files, media, sidecars) && Settles(naming)
    modifies dir
    ensures dir.Valid()
    ensures Renaming(old(dir.files), dir.files, at)
    ensures error.None? ==>
              Canonicalized(old(dir.files), dir.files, naming, media, sidecars, at, canonicalMedia, canonicalSidecars)
    ensures error.Some? && dir.faults == old(dir.faults) ==> Blocked(old(dir.files), dir.files, dir.same, naming, media)
  {
    ghost var before, targets := dir.files, TargetsOf(dir.files, naming);
    var newNames: seq<string>;
    error, newNames, canonicalSidecars, at := RenameAll(dir, media, sidecars, naming);
    canonicalMedia := [];
    if error.None? {
      canonicalMedia := Lex.SortStrings(newNames);
      NamesDistinct(before, dir.files, targets, media, sidecars, at, newNames, canonicalSidecars);
      Lex.SortLaw(newNames);
      Lex.SortForgetsOrder(newNames, newNames);
      HandedOn(before, dir.files, naming, media, sidecars, at, newNames, canonicalMedia, canonicalSidecars);
    }
  }

  /** The lists of the loop are what the directory shows. */
  lemma HandedOn(before: Files, after: Files, naming: Naming, media: seq<string>, sidecars: map<string, string>,
                 at: map<string, string>, names: seq<string>, sorted: seq<string>, kept: map<string, string>)
    requires Collected(before, media, sidecars) && Renaming(before, after, at) && Settles(naming)
    requires Placed(TargetsOf(before, naming), media, sidecars, |media|, at)
    requires Listed(TargetsOf(before, naming), media, sidecars, |media|, names, kept)
    requires Lex.SameElements(sorted, names) && Lex.Sorted(sorted) && Lex.Distinct(sorted)
    ensures Canonicalized(before, after, naming, media, sidecars, at, sorted, kept)
  {
    var targets := TargetsOf(before, naming);
    forall m | m in media
      ensures at[m] == naming(m, before[m])
      ensures m in sidecars ==> at[sidecars[m]] == at[m] + JSON
    {
      MediumAt(targets, media, sidecars, at, m);
    }
    NamesAreMedia(before, after, naming, media, sidecars, at, names, kept);
    forall c ensures c in sorted <==> c in after && !HasJSONSuffix(c)
      ensures c in sorted ==> naming(c, after[c]) == c
    {
      assert c in sorted <==> c in names;
      if c in after { MediaAfter(before, after, naming, media, sidecars, at, c); }
    }
    SidecarsFollow(before, after, targets, media, sidecars, at, names, kept);
  }

  lemma NamesAreMedia(before: Files, after: Files, naming: Naming, media: seq<string>, sidecars: map<string, string>,
                      at: map<string, string>, names: seq<string>, kept: map<string, string>)
    requires Renaming(before, after, at)
    requires Placed(TargetsOf(before, naming), media, sidecars, |media|, at)
    requires Listed(TargetsOf(before, naming), media, sidecars, |media|, names, kept)
    ensures forall m :: m in media ==> m in at && at[m] in names
    ensures forall c :: c in names ==> c in after && exists m :: m in media && m in at && at[m] == c
  {
    var targets := TargetsOf(before, naming);
    forall m | m in media ensures m in at && at[m] in names {
      MediumAt(targets, media, sidecars, at, m);
      var k :| 0 <= k < |media| && media[k] == m;
      assert names[k] == at[m];
    }
    forall c | c in names ensures c in after && exists m :: m in media && m in at && at[m] == c {
      var k :| 0 <= k < |names| && names[k] == c;
      assert media[k] in media;
      MediumAt(targets, media, sidecars, at, media[k]);
    }
  }

  lemma SidecarsFollow(before: Files, after: Files, targets: Targets, media: seq<string>, sidecars: map<string, string>,
                       at: map<string, string>, names: seq<string>, kept: map<string, string>)
    requires Renaming(before, after, at) && Placed(targets, media, sidecars, |media|, at)
    requires Listed(targets, media, sidecars, |media|, names, kept)
    ensures forall m :: m in media ==> m in at && (at[m] in kept <==> m in sidecars)
    ensures forall c :: c in kept ==> c in names && kept[c] == c + JSON
  {
    forall m | m in media ensures m in at && (at[m] in kept <==> m in sidecars) {
      MediumAt(targets, media, sidecars, at, m);
      var k :| 0 <= k < |media| && media[k] == m;
      if at[m] in kept {
        var j :| 0 <= j < |media| && media[j] in sidecars && names[j] == at[m];
        assert media[j] in media;
        MediumAt(targets, media, sidecars, at, media[j]);
      }
    }
  }
}
