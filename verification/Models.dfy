/** Rows the modules share, and archive type names. */
module Models {
  import opened Strings

  datatype Option<+T> = None | Some(value: T)

  const YT_DLP := "yt-dlp"
  const GALLERY_DL := "gallery-dl"
  const YOUTUBE := "youtube"

  const PENDING := "pending"
  const PROCESSING := "processing"
  const COMPLETED := "completed"
  const FAILED := "failed"

  /** An archive_items row; time is a monotone number. */
  datatype Item = Item(
    captureID: nat,
    typ: string,
    status: string,
    updatedAt: int,
    storageKey: string,
    metadataKey: string,
    rawMetadataKey: string,
    completeness: string)

  /** "youtube" is the one retired type name. */
  function NormalizeArchiveType(t: string): string {
    if ToLower(TrimSpace(t)) == YOUTUBE then YT_DLP else TrimSpace(t)
  }

  predicate ArchiveTypesEqual(a: string, b: string) {
    NormalizeArchiveType(a) == NormalizeArchiveType(b)
  }

  lemma NormalizeTwice(t: string)
    ensures NormalizeArchiveType(NormalizeArchiveType(t)) == NormalizeArchiveType(t)
  {
    TrimLaw(t);
    TrimLaw(TrimSpace(t));
    TrimLaw(YT_DLP);
    LowerLaw(YT_DLP);
    assert ToLower(YT_DLP) != YOUTUBE;
  }

  /** First occurrences of the normalized names not in seen. */
  function Normalized(types: seq<string>, seen: set<string>): seq<string> {
    if types == [] then []
    else
      var t := NormalizeArchiveType(types[0]);
      if t in seen then Normalized(types[1..], seen)
      else [t] + Normalized(types[1..], seen + {t})
  }

  /** No normalized name repeats and none is lost. */
  lemma {:induction false} NormalizedLaw(types: seq<string>, seen: set<string>)
    ensures forall i, j :: 0 <= i < j < |Normalized(types, seen)| ==> Normalized(types, seen)[i] != Normalized(types, seen)[j]
    ensures forall u :: u in Normalized(types, seen) ==> u !in seen
    ensures forall k :: 0 <= k < |types| ==>
              NormalizeArchiveType(types[k]) in seen || NormalizeArchiveType(types[k]) in Normalized(types, seen)
    ensures types != [] && seen == {} ==> Normalized(types, seen) != []
  {
    if types != [] {
      var t := NormalizeArchiveType(types[0]);
      NormalizedLaw(types[1..], if t in seen then seen else seen + {t});
      assert forall k :: 0 < k < |types| ==> types[k] == types[1..][k - 1];
    }
  }

  lemma NormalizedStep(rest: seq<string>, seen: set<string>, t: string)
    requires rest != [] && t == NormalizeArchiveType(rest[0])
    ensures Normalized(rest, seen) == if t in seen then Normalized(rest[1..], seen)
                                      else [t] + Normalized(rest[1..], seen + {t})
  {
  }

  method NormalizeArchiveTypes(types: seq<string>) returns (normalized: seq<string>)
    ensures normalized == Normalized(types, {})
  {
    var seen: set<string> := {};
    normalized := [];
    var rest := types;
    while rest != []
      invariant normalized + Normalized(rest, seen) == Normalized(types, {})
      decreases |rest|
    {
      var t := NormalizeArchiveType(rest[0]);
      NormalizedStep(rest, seen, t);
      if t !in seen {
        assert normalized + ([t] + Normalized(rest[1..], seen + {t})) == normalized + [t] + Normalized(rest[1..], seen + {t});
        seen := seen + {t};
        normalized := normalized + [t];
      }
      rest := rest[1..];
    }
  }
}
