/**
 * The ownership views of songs/views.py over the song catalog: uploading a
 * song (`songs_root` POST) and reading, updating and deleting one's own song
 * (`get_my_song`, `update_my_song`, `delete_my_song`). Each view takes the
 * catalog and the requesting user (None when not authenticated). The views
 * that write return the catalog after the request together with the
 * response; `get_my_song` returns the response alone.
 */
module SongViews {
  import opened Results
  import opened Validators
  import opened Songs
  import opened StoragePaths
  import opened Serializers

  /** Why a view refused a request. */
  datatype Refusal =
    | NotAuthenticated
    | NoSong
    | AlreadyUploaded(existingId: SongId, existingTitle: string)
    | UploadInvalid(errors: UploadErrors)
    | UpdateInvalid(error: FieldError)

  /** `songs_root` POST: an anonymous request is refused, a user who already
      owns a song is told which one, and an invalid form reports its field
      errors; in all those cases nothing is stored. Otherwise the new song
      takes the next id and is stored under its uploader. The audio hash is
      computed outside the model and passed in. */
  function SongsRootPost(c: Catalog, requester: Option<UserId>, form: SongForm, settings: Settings, audioHash: string)
    : (r: (Catalog, Result<Song, Refusal>))
    ensures r.1.Success? <==>
      requester.Some? && requester.value !in c.songs && ValidateUpload(form, settings).Success?
    ensures r.1.Failure? ==> r.0 == c
    ensures requester.None? ==> r.1 == Failure(NotAuthenticated)
    ensures requester.Some? && requester.value in c.songs ==>
      r.1 == Failure(AlreadyUploaded(c.songs[requester.value].id, c.songs[requester.value].title))
    ensures requester.Some? && requester.value !in c.songs && ValidateUpload(form, settings).Failure? ==>
      r.1 == Failure(UploadInvalid(ValidateUpload(form, settings).error))
    ensures r.1.Success? ==>
      && r.0 == Catalog(c.songs[requester.value := r.1.value], c.nextId + 1)
      && r.1.value.owner == requester.value
      && r.1.value.id == c.nextId
      && r.1.value.fileSize == form.audioFile.value.size
      && r.1.value.audioHash == audioHash
      && r.1.value.title == form.title.value
      && r.1.value.neteaseUrl == Flatten(form.neteaseUrl)
      && r.1.value.audioFile == UploadPath(Audio, requester.value, c.nextId, form.audioFile.value.name)
      && (r.1.value.coverImage.Some? <==> Present(form.coverImage))
      && (r.1.value.coverImage.Some? ==>
            r.1.value.coverImage.value == UploadPath(Cover, requester.value, c.nextId, form.coverImage.value.name))
      && ValidSong(r.1.value)
  {
    match requester
    case None => (c, Failure(NotAuthenticated))
    case Some(u) =>
      if u in c.songs then
        (c, Failure(AlreadyUploaded(c.songs[u].id, c.songs[u].title)))
      else
        match ValidateUpload(form, settings)
        case Failure(errors) => (c, Failure(UploadInvalid(errors)))
        case Success(data) =>
          var song := CreateSong(u, c.nextId, data, audioHash);
          (Catalog(c.songs[u := song], c.nextId + 1), Success(song))
  }

  /** `get_my_song`: the requester's own song, or NoSong when they have none. */
  function GetMySong(c: Catalog, requester: Option<UserId>): (r: Result<Song, Refusal>)
    ensures r.Success? <==> requester.Some? && requester.value in c.songs
    ensures r.Success? ==> r.value == c.songs[requester.value]
    ensures requester.None? ==> r == Failure(NotAuthenticated)
    ensures requester.Some? && requester.value !in c.songs ==> r == Failure(NoSong)
  {
    match requester
    case None => Failure(NotAuthenticated)
    case Some(u) => if u in c.songs then Success(c.songs[u]) else Failure(NoSong)
  }

  /** `update_my_song`: a requester without a song gets NoSong, an invalid
      title is refused, and in both cases nothing changes. An accepted update
      replaces the requester's song by one that differs at most in title and
      link; every other song stays as it was. */
  function UpdateMySong(c: Catalog, requester: Option<UserId>, form: SongForm): (r: (Catalog, Result<Song, Refusal>))
    ensures r.1.Failure? ==> r.0 == c
    ensures requester.None? ==> r.1 == Failure(NotAuthenticated)
    ensures requester.Some? && requester.value !in c.songs ==> r.1 == Failure(NoSong)
    ensures requester.Some? && requester.value in c.songs && ValidateUpdate(form).Failure? ==>
      r.1 == Failure(UpdateInvalid(ValidateUpdate(form).error))
    ensures r.1.Success? <==>
      && requester.Some? && requester.value in c.songs
      && (form.title.None? || ValidateTitle(form.title.value).Valid?)
    ensures r.1.Success? ==>
      var prev := c.songs[requester.value];
      && r.0 == Catalog(c.songs[requester.value := r.1.value], c.nextId)
      && r.1.value.(title := prev.title, neteaseUrl := prev.neteaseUrl) == prev
      && r.1.value.title == form.title.GetOr(prev.title)
      && r.1.value.neteaseUrl == form.neteaseUrl.GetOr(prev.neteaseUrl)
  {
    match requester
    case None => (c, Failure(NotAuthenticated))
    case Some(u) =>
      if u !in c.songs then (c, Failure(NoSong))
      else
        match ValidateUpdate(form)
        case Failure(e) => (c, Failure(UpdateInvalid(e)))
        case Success(change) =>
          var song := ApplyUpdate(c.songs[u], change);
          (Catalog(c.songs[u := song], c.nextId), Success(song))
  }

  /** `delete_my_song`: a requester without a song gets NoSong and nothing
      changes; otherwise exactly their song is removed and its id and title
      are reported. */
  function DeleteMySong(c: Catalog, requester: Option<UserId>): (r: (Catalog, Result<(SongId, string), Refusal>))
    ensures r.1.Failure? ==> r.0 == c
    ensures requester.None? ==> r.1 == Failure(NotAuthenticated)
    ensures requester.Some? && requester.value !in c.songs ==> r.1 == Failure(NoSong)
    ensures r.1.Success? <==> requester.Some? && requester.value in c.songs
    ensures r.1.Success? ==>
      && r.0 == Catalog(c.songs - {requester.value}, c.nextId)
      && r.1.value == (c.songs[requester.value].id, c.songs[requester.value].title)
  {
    match requester
    case None => (c, Failure(NotAuthenticated))
    case Some(u) =>
      if u !in c.songs then (c, Failure(NoSong))
      else (Catalog(c.songs - {u}, c.nextId), Success((c.songs[u].id, c.songs[u].title)))
  }

  // ---------------------------------------------------------------------
  // The catalog invariant is kept by every view
  // ---------------------------------------------------------------------

  lemma UploadKeepsCatalogValid(c: Catalog, requester: Option<UserId>, form: SongForm, settings: Settings, audioHash: string)
    requires ValidCatalog(c)
    ensures ValidCatalog(SongsRootPost(c, requester, form, settings, audioHash).0)
  {
    var r := SongsRootPost(c, requester, form, settings, audioHash);
    if r.1.Success? {
      InsertKeepsCatalogValid(c, requester.value, r.1.value);
    }
  }

  lemma UpdateKeepsCatalogValid(c: Catalog, requester: Option<UserId>, form: SongForm)
    requires ValidCatalog(c)
    ensures ValidCatalog(UpdateMySong(c, requester, form).0)
  {
    var r := UpdateMySong(c, requester, form);
    if r.1.Success? {
      var u := requester.value;
      UpdateKeepsSongValid(c.songs[u], form);
      ReplaceKeepsCatalogValid(c, u, r.1.value);
    }
  }

  lemma DeleteKeepsCatalogValid(c: Catalog, requester: Option<UserId>)
    requires ValidCatalog(c)
    ensures ValidCatalog(DeleteMySong(c, requester).0)
  {
  }

  // ---------------------------------------------------------------------
  // Sequences of requests
  // ---------------------------------------------------------------------

  /** Once a user has uploaded a song, a second upload is refused, names the
      song already stored, and changes nothing, however valid the form. */
  lemma SecondUploadRefused(c: Catalog, u: UserId, f1: SongForm, f2: SongForm, settings: Settings, h1: string, h2: string)
    requires u !in c.songs && ValidateUpload(f1, settings).Success?
    ensures var (c1, r1) := SongsRootPost(c, Some(u), f1, settings, h1);
            SongsRootPost(c1, Some(u), f2, settings, h2)
              == (c1, Failure(AlreadyUploaded(r1.value.id, r1.value.title)))
  {
  }

  /** Deleting one's song re-enables uploading: afterwards an upload by the
      same user succeeds exactly when the form is valid. */
  lemma DeleteReenablesUpload(c: Catalog, u: UserId, form: SongForm, settings: Settings, audioHash: string)
    requires u in c.songs
    ensures var c1 := DeleteMySong(c, Some(u)).0;
            var uploaded := SongsRootPost(c1, Some(u), form, settings, audioHash).1.Success?;
            uploaded <==> ValidateUpload(form, settings).Success?
  {
  }

  /** A request by one user never changes another user's song. */
  lemma OtherUsersUntouched(c: Catalog, u: UserId, v: UserId, form: SongForm, settings: Settings, audioHash: string)
    requires u != v && v in c.songs
    ensures var c1 := SongsRootPost(c, Some(u), form, settings, audioHash).0;
            v in c1.songs && c1.songs[v] == c.songs[v]
    ensures var c2 := UpdateMySong(c, Some(u), form).0;
            v in c2.songs && c2.songs[v] == c.songs[v]
    ensures var c3 := DeleteMySong(c, Some(u)).0;
            v in c3.songs && c3.songs[v] == c.songs[v]
  {
  }

  /** What a user writes, `get_my_song` reads back: the song just uploaded,
      the song as just updated, and nothing once it is deleted. */
  lemma GetAfterWrite(c: Catalog, u: UserId, form: SongForm, settings: Settings, audioHash: string)
    ensures var (c1, r1) := SongsRootPost(c, Some(u), form, settings, audioHash);
            r1.Success? ==> GetMySong(c1, Some(u)) == Success(r1.value)
    ensures var (c2, r2) := UpdateMySong(c, Some(u), form);
            r2.Success? ==> GetMySong(c2, Some(u)) == Success(r2.value)
    ensures GetMySong(DeleteMySong(c, Some(u)).0, Some(u)) == Failure(NoSong)
  {
  }
}
