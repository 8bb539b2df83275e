/** Reconciling a video's subtitle list with the tracks that were really stored. */
module Subtitles {
  import opened Models

  datatype Track = Track(language: string, suffix: string, storageKey: string)

  /** The tracks with a stored artifact, in order, each with its key. */
  function Reconciled(tracks: seq<Track>, keys: map<string, string>): seq<Track> {
    if tracks == [] then []
    else
      var last := tracks[|tracks| - 1];
      Reconciled(tracks[..|tracks| - 1], keys)
      + (if last.suffix in keys then [last.(storageKey := keys[last.suffix])] else [])
  }

  /** Nothing is listed but stored tracks, and no stored track is lost. */
  lemma {:induction false} ReconciledLaw(tracks: seq<Track>, keys: map<string, string>)
    ensures |Reconciled(tracks, keys)| <= |tracks|
    ensures forall t :: t in Reconciled(tracks, keys) ==> t.suffix in keys && t.storageKey == keys[t.suffix]
    ensures forall t :: t in tracks && t.suffix in keys ==> t.(storageKey := keys[t.suffix]) in Reconciled(tracks, keys)
  {
    if tracks != [] {
      var before, last := tracks[..|tracks| - 1], tracks[|tracks| - 1];
      ReconciledLaw(before, keys);
      assert tracks == before + [last];
    }
  }

  /** The list keeps its order: reconciling two parts is reconciling the whole. */
  lemma {:induction false} ReconciledAppend(a: seq<Track>, b: seq<Track>, keys: map<string, string>)
    ensures Reconciled(a + b, keys) == Reconciled(a, keys) + Reconciled(b, keys)
  {
    if b == [] {
      assert a + b == a;
    } else {
      var n := |b| - 1;
      assert (a + b)[..|a + b| - 1] == a + b[..n];
      ReconciledAppend(a, b[..n], keys);
    }
  }

  /** Reconciling again with the same keys changes nothing. */
  lemma {:induction false} ReconciledTwice(tracks: seq<Track>, keys: map<string, string>)
    ensures Reconciled(Reconciled(tracks, keys), keys) == Reconciled(tracks, keys)
  {
    if tracks != [] {
      var before, last := tracks[..|tracks| - 1], tracks[|tracks| - 1];
      ReconciledTwice(before, keys);
      if last.suffix in keys {
        var kept := last.(storageKey := keys[last.suffix]);
        ReconciledAppend(Reconciled(before, keys), [kept], keys);
        assert Reconciled([kept], keys) == Reconciled([kept][..0], keys) + [kept];
      } else {
        assert Reconciled(before, keys) + [] == Reconciled(before, keys);
      }
    }
  }

  /** SetSubtitleStorageKeys' loop: the kept tracks are written over the front of the list they are read from. */
  method CompactTracks(tracks: array<Track>, keys: map<string, string>) returns (stored: nat)
    modifies tracks
    ensures stored <= tracks.Length
    ensures tracks[..stored] == Reconciled(old(tracks[..]), keys)
    ensures tracks[stored..] == old(tracks[stored..])
  {
    stored := 0;
    for i := 0 to tracks.Length
      invariant stored <= i
      invariant tracks[..stored] == Reconciled(old(tracks[..])[..i], keys)
      invariant tracks[stored..] == old(tracks[stored..])
    {
      var track := tracks[i];
      assert track == old(tracks[..])[i] by { assert tracks[stored..][i - stored] == old(tracks[stored..])[i - stored]; }
      assert old(tracks[..])[..i + 1][..i] == old(tracks[..])[..i];
      if track.suffix in keys {
        tracks[stored] := track.(storageKey := keys[track.suffix]);
        stored := stored + 1;
      }
    }
    assert old(tracks[..])[..tracks.Length] == old(tracks[..]);
  }

  /** A normalized metadata record; anything that is no video record is left alone. */
  datatype Metadata = VideoRecord(subtitles: seq<Track>, transcript: Option<string>) | OtherRecord(text: string)

  function WithStoredTracks(m: Metadata, keys: map<string, string>): Metadata {
    if m.OtherRecord? || m.subtitles == [] then m
    else
      var kept := Reconciled(m.subtitles, keys);
      VideoRecord(kept, if kept == [] then None else m.transcript)
  }

  /** No track, no transcript, once a list has been reconciled away. */
  lemma TranscriptNeedsTrack(m: Metadata, keys: map<string, string>)
    ensures var r := WithStoredTracks(m, keys);
            m.VideoRecord? && m.subtitles != [] ==>
              r.VideoRecord? && (r.transcript.Some? ==>
                exists t :: t in r.subtitles && t.suffix in keys && t.storageKey == keys[t.suffix])
  {
    if m.VideoRecord? && m.subtitles != [] {
      ReconciledLaw(m.subtitles, keys);
      var kept := Reconciled(m.subtitles, keys);
      if kept != [] { assert kept[0] in kept; }
    }
  }

  method SetSubtitleStorageKeys(m: Metadata, keys: map<string, string>) returns (r: Metadata)
    ensures r == WithStoredTracks(m, keys)
  {
    if m.OtherRecord? || |m.subtitles| == 0 {
      return m;
    }
    var tracks := new Track[|m.subtitles|](i requires 0 <= i < |m.subtitles| => m.subtitles[i]);
    assert tracks[..] == m.subtitles;
    var stored := CompactTracks(tracks, keys);
    if stored == 0 {
      return VideoRecord([], None);
    }
    return VideoRecord(tracks[..stored], m.transcript);
  }
}
