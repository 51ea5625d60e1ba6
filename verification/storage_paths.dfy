/**
 * The `upload_to` callbacks of songs/models.py, get_audio_filename and
 * get_cover_filename: a stored file is named after the song's owner, the
 * song's id and the lower-cased extension of the uploaded name, as in
 * `songs/audio_user1_song5.mp3`.
 */
module StoragePaths {
  import opened Results
  import opened Text
  import opened Validators

  function KindPrefix(kind: FileKind): string {
    match kind
    case Audio => "audio"
    case Cover => "cover"
  }

  /** The part of a storage path before the song id. */
  function Head(kind: FileKind, userId: nat): string {
    "songs/" + KindPrefix(kind) + "_user" + Decimal(userId) + "_song"
  }

  /** The part of a storage path before the extension's dot. */
  function Stem(kind: FileKind, userId: nat, songId: nat): string {
    Head(kind, userId) + Decimal(songId)
  }

  /** The storage path of a file of the given kind for song `songId` owned by
      user `userId`, uploaded under `filename`. */
  function UploadPath(kind: FileKind, userId: nat, songId: nat, filename: string): string {
    Stem(kind, userId, songId) + "." + Extension(filename)
  }

  /** Reading the extension of a storage path back gives the extension of
      the uploaded name: extraction is idempotent. */
  lemma ExtensionOfUploadPath(kind: FileKind, userId: nat, songId: nat, filename: string)
    ensures Extension(UploadPath(kind, userId, songId, filename)) == Extension(filename)
  {
    ExtensionAfterLastDot(Stem(kind, userId, songId), Extension(filename));
  }

  /** get_audio_filename: the audio file of song `songId` owned by `userId`
      goes under the song's audio stem, with the extension of the uploaded
      name, which can be read back from the path. */
  function AudioFilename(userId: nat, songId: nat, filename: string): (path: string)
    ensures path == UploadPath(Audio, userId, songId, filename)
    ensures Extension(path) == Extension(filename)
  {
    ExtensionOfUploadPath(Audio, userId, songId, filename);
    UploadPath(Audio, userId, songId, filename)
  }

  /** get_cover_filename: the same naming under the cover stem. */
  function CoverFilename(userId: nat, songId: nat, filename: string): (path: string)
    ensures path == UploadPath(Cover, userId, songId, filename)
    ensures Extension(path) == Extension(filename)
  {
    ExtensionOfUploadPath(Cover, userId, songId, filename);
    UploadPath(Cover, userId, songId, filename)
  }

  lemma ExampleHeads()
    ensures Head(Audio, 1) == "songs/audio_user1_song"
    ensures Head(Cover, 1) == "songs/cover_user1_song"
    ensures Decimal(5) == "5"
  {
    assert Decimal(1) == "1";
  }

  lemma AudioExampleExtension(stem: string)
    ensures Extension(stem + ".MP3") == "mp3"
  {
    ExtensionAfterLastDot(stem, "MP3");
    assert stem + ".MP3" == stem + "." + "MP3";
    assert Lower("MP3") == "mp3" by {
      assert Lower("MP3")[0] == 'm' && Lower("MP3")[1] == 'p' && Lower("MP3")[2] == '3';
    }
  }

  lemma CoverExampleExtension(stem: string)
    ensures Extension(stem + ".Jpg") == "jpg"
  {
    ExtensionAfterLastDot(stem, "Jpg");
    assert stem + ".Jpg" == stem + "." + "Jpg";
    assert Lower("Jpg") == "jpg" by {
      assert Lower("Jpg")[0] == 'j' && Lower("Jpg")[1] == 'p' && Lower("Jpg")[2] == 'g';
    }
  }

  /** The documented examples, `audio_user1_song5.mp3` and
      `cover_user1_song5.jpg`, for any uploaded name ending in that
      extension in any letter case: only the text after the last dot counts. */
  lemma DocumentedExamples(stem: string)
    ensures UploadPath(Audio, 1, 5, stem + ".MP3") == "songs/audio_user1_song5.mp3"
    ensures UploadPath(Cover, 1, 5, stem + ".Jpg") == "songs/cover_user1_song5.jpg"
  {
    AudioExampleExtension(stem);
    CoverExampleExtension(stem);
    ExampleHeads();
  }

  /** The path ends in `.` followed by the extension, which is lower-case
      and holds no dot. */
  lemma PathEndsWithCleanExtension(kind: FileKind, userId: nat, songId: nat, filename: string)
    ensures var path := UploadPath(kind, userId, songId, filename);
            var ext := Extension(filename);
            && |path| > |ext|
            && path[|path| - |ext| - 1..] == "." + ext
            && '.' !in ext
            && forall i :: 0 <= i < |ext| ==> !IsUpper(ext[i])
  {
    var ext := Extension(filename);
    var stem := Stem(kind, userId, songId);
    var path := stem + "." + ext;
    assert path[|path| - |ext| - 1..] == "." + ext by {
      assert path == stem + ("." + ext);
    }
    LowerFacts(ext, '.');
  }

  /** Below a common head, two `<digits>_song<digits>.<ext>` tails agree
      only when their digit runs and extensions agree. */
  lemma TailsAgree(head: string, a1: string, b1: string, e1: string, a2: string, b2: string, e2: string)
    requires AllDigits(a1) && AllDigits(b1) && AllDigits(a2) && AllDigits(b2)
    requires head + a1 + "_song" + b1 + "." + e1 == head + a2 + "_song" + b2 + "." + e2
    ensures a1 == a2 && b1 == b2 && e1 == e2
  {
    var t1, t2 := "_song" + b1 + "." + e1, "_song" + b2 + "." + e2;
    assert head + a1 + "_song" + b1 + "." + e1 == head + (a1 + t1);
    assert head + a2 + "_song" + b2 + "." + e2 == head + (a2 + t2);
    assert a1 + t1 == a2 + t2 by {
      assert a1 + t1 == (head + (a1 + t1))[|head|..];
      assert a2 + t2 == (head + (a2 + t2))[|head|..];
    }
    DigitPrefixesAgree(a1, t1, a2, t2);
    var r1, r2 := "." + e1, "." + e2;
    assert t1 == "_song" + (b1 + r1);
    assert t2 == "_song" + (b2 + r2);
    assert b1 + r1 == t1[5..];
    assert b2 + r2 == t2[5..];
    DigitPrefixesAgree(b1, r1, b2, r2);
    assert e1 == r1[1..];
    assert e2 == r2[1..];
  }

  /** Everything about a path is recoverable from it: equal paths come from
      the same kind, owner, song and extension. */
  lemma UploadPathInjective(k1: FileKind, u1: nat, s1: nat, f1: string,
                            k2: FileKind, u2: nat, s2: nat, f2: string)
    requires UploadPath(k1, u1, s1, f1) == UploadPath(k2, u2, s2, f2)
    ensures k1 == k2 && u1 == u2 && s1 == s2 && Extension(f1) == Extension(f2)
  {
    var p := UploadPath(k1, u1, s1, f1);
    var head1 := "songs/" + KindPrefix(k1) + "_user";
    var head2 := "songs/" + KindPrefix(k2) + "_user";
    var a1, b1, e1 := Decimal(u1), Decimal(s1), Extension(f1);
    var a2, b2, e2 := Decimal(u2), Decimal(s2), Extension(f2);
    assert p == head1 + a1 + "_song" + b1 + "." + e1;
    assert p == head2 + a2 + "_song" + b2 + "." + e2;
    assert p[6] == head1[6] && p[6] == head2[6];
    assert k1 == k2;
    TailsAgree(head1, a1, b1, e1, a2, b2, e2);
    DecimalInjective(u1, u2);
    DecimalInjective(s1, s2);
  }

  /** For a fixed kind, owner and song, two uploaded names give the same
      path exactly when their extensions agree up to case. */
  lemma PathDependsOnlyOnExtension(kind: FileKind, userId: nat, songId: nat, f1: string, f2: string)
    ensures UploadPath(kind, userId, songId, f1) == UploadPath(kind, userId, songId, f2)
            <==> Extension(f1) == Extension(f2)
  {
    if UploadPath(kind, userId, songId, f1) == UploadPath(kind, userId, songId, f2) {
      UploadPathInjective(kind, userId, songId, f1, kind, userId, songId, f2);
    }
  }

  /** Names that differ only in letter case are stored under the same path. */
  lemma PathIgnoresCase(kind: FileKind, userId: nat, songId: nat, f1: string, f2: string)
    requires Lower(f1) == Lower(f2)
    ensures UploadPath(kind, userId, songId, f1) == UploadPath(kind, userId, songId, f2)
  {
    ExtensionIgnoresCase(f1, f2);
  }

  /** A cover path never coincides with an audio path. */
  lemma CoverNeverAudio(u1: nat, s1: nat, f1: string, u2: nat, s2: nat, f2: string)
    ensures UploadPath(Audio, u1, s1, f1) != UploadPath(Cover, u2, s2, f2)
  {
    if UploadPath(Audio, u1, s1, f1) == UploadPath(Cover, u2, s2, f2) {
      UploadPathInjective(Audio, u1, s1, f1, Cover, u2, s2, f2);
    }
  }

  // ---------------------------------------------------------------------
  // The path as it is produced when a song is first created
  // ---------------------------------------------------------------------

  /** `f"{instance.id}"`: the text of an id that may still be unassigned. */
  function IdText(id: Option<nat>): string {
    match id
    case None => "None"
    case Some(n) => Decimal(n)
  }

  /** get_audio_filename / get_cover_filename as written: they read
      `instance.id`, which Django has not yet assigned while it stores the
      files of a song being created. */
  function UploadPathAsWritten(kind: FileKind, userId: nat, songId: Option<nat>, filename: string): (path: string)
    ensures songId.Some? ==> path == UploadPath(kind, userId, songId.value, filename)
  {
    Head(kind, userId) + IdText(songId) + "." + Extension(filename)
  }

  /** At creation the song id reads as `None`: every song a user ever
      uploads gets the same path for the same extension, and that path
      matches the documented pattern for no song id at all. */
  lemma AsWrittenCreatePathIgnoresSong(kind: FileKind, userId: nat, f1: string, f2: string, songId: nat)
    requires Extension(f1) == Extension(f2)
    ensures UploadPathAsWritten(kind, userId, None, f1) == UploadPathAsWritten(kind, userId, None, f2)
    ensures UploadPathAsWritten(kind, userId, None, f1) != UploadPath(kind, userId, songId, f1)
  {
    var head := Head(kind, userId);
    var d, e := Decimal(songId), Extension(f1);
    var asWritten := UploadPathAsWritten(kind, userId, None, f1);
    var intended := UploadPath(kind, userId, songId, f1);
    assert asWritten == head + "None" + "." + e;
    assert intended == head + d + "." + e;
    assert asWritten[|head|] == 'N';
    assert intended[|head|] == d[0];
    assert asWritten[|head|] != intended[|head|];
  }

  /** The intended naming: two distinct songs never share a stored file name. */
  lemma DistinctSongsDistinctPaths(kind: FileKind, userId: nat, s1: nat, s2: nat, f1: string, f2: string)
    requires s1 != s2
    ensures UploadPath(kind, userId, s1, f1) != UploadPath(kind, userId, s2, f2)
  {
    if UploadPath(kind, userId, s1, f1) == UploadPath(kind, userId, s2, f2) {
      UploadPathInjective(kind, userId, s1, f1, kind, userId, s2, f2);
    }
  }
}
