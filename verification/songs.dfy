/**
 * The Song model of songs/models.py and the table of songs as a whole.
 * The one-to-one link from a song to its uploader makes the uploader a key,
 * so the table is a map from user id to song: each user owns at most one.
 */
module Songs {
  import opened Results
  import opened Text
  import opened Validators
  import opened StoragePaths

  type UserId = nat
  type SongId = nat

  datatype Song = Song(
    id: SongId,
    owner: UserId,
    title: string,
    audioFile: string,
    coverImage: Option<string>,
    neteaseUrl: Option<string>,
    audioHash: string,
    fileSize: nat)

  /** All songs, keyed by uploader, and the next id the database hands out. */
  datatype Catalog = Catalog(songs: map<UserId, Song>, nextId: SongId)

  const EmptyCatalog := Catalog(map[], 1)

  /** A stored path that is its own `upload_to` image: it names the song's
      owner and id and carries a clean extension. */
  predicate NamedFor(path: string, kind: FileKind, s: Song) {
    path == UploadPath(kind, s.owner, s.id, path)
  }

  /** What the model and its validators guarantee of every stored song: a
      title that is not blank and fits the 100-character column, and files
      named after the song. */
  predicate ValidSong(s: Song) {
    && !Blank(s.title)
    && |s.title| <= MaxTitleLength
    && NamedFor(s.audioFile, Audio, s)
    && (s.coverImage.Some? ==> NamedFor(s.coverImage.value, Cover, s))
  }

  /** Every song sits under its owner's key, is valid, has an id below the
      next one to be handed out, and no two songs share an id. */
  predicate ValidCatalog(c: Catalog) {
    && (forall u | u in c.songs ::
          c.songs[u].owner == u && ValidSong(c.songs[u]) && c.songs[u].id < c.nextId)
    && (forall u, v | u in c.songs && v in c.songs && u != v :: c.songs[u].id != c.songs[v].id)
  }

  /** Replacing a user's song by a valid one with the same owner and id keeps
      the catalog valid. */
  lemma ReplaceKeepsCatalogValid(c: Catalog, u: UserId, s: Song)
    requires ValidCatalog(c) && u in c.songs
    requires s.owner == u && s.id == c.songs[u].id && ValidSong(s)
    ensures ValidCatalog(Catalog(c.songs[u := s], c.nextId))
  {
    ReplaceKeepsSongsInPlace(c, u, s);
    ReplaceKeepsIdsDistinct(c, u, s);
  }

  lemma ReplaceKeepsIdsDistinct(c: Catalog, u: UserId, s: Song)
    requires ValidCatalog(c) && u in c.songs && s.id == c.songs[u].id
    ensures var m := c.songs[u := s];
            forall v, w | v in m && w in m && v != w :: m[v].id != m[w].id
  {
    var m := c.songs[u := s];
    forall v, w | v in m && w in m && v != w
      ensures m[v].id != m[w].id
    {
      assert m[v].id == c.songs[v].id;
      assert m[w].id == c.songs[w].id;
    }
  }

  lemma ReplaceKeepsSongsInPlace(c: Catalog, u: UserId, s: Song)
    requires ValidCatalog(c) && u in c.songs
    requires s.owner == u && s.id == c.songs[u].id && ValidSong(s)
    ensures var m := c.songs[u := s];
            forall v | v in m :: m[v].owner == v && ValidSong(m[v]) && m[v].id < c.nextId
  {
    var m := c.songs[u := s];
    forall v | v in m
      ensures m[v].owner == v && ValidSong(m[v]) && m[v].id < c.nextId
    {
      if v != u {
        assert m[v] == c.songs[v];
      }
    }
  }

  /** The catalog the application starts from is valid. */
  lemma EmptyCatalogValid()
    ensures ValidCatalog(EmptyCatalog)
    ensures EmptyCatalog.songs == map[]
  {
  }

  /** Adding a valid song for a user who has none, under the next id, keeps
      the catalog valid once the next id moves on. */
  lemma InsertKeepsCatalogValid(c: Catalog, u: UserId, s: Song)
    requires ValidCatalog(c) && u !in c.songs
    requires s.owner == u && s.id == c.nextId && ValidSong(s)
    ensures ValidCatalog(Catalog(c.songs[u := s], c.nextId + 1))
  {
    InsertKeepsSongsInPlace(c, u, s);
    InsertKeepsIdsDistinct(c, u, s);
  }

  lemma InsertKeepsSongsInPlace(c: Catalog, u: UserId, s: Song)
    requires ValidCatalog(c) && u !in c.songs
    requires s.owner == u && s.id == c.nextId && ValidSong(s)
    ensures var m := c.songs[u := s];
            forall v | v in m :: m[v].owner == v && ValidSong(m[v]) && m[v].id < c.nextId + 1
  {
    var m := c.songs[u := s];
    forall v | v in m
      ensures m[v].owner == v && ValidSong(m[v]) && m[v].id < c.nextId + 1
    {
      if v != u {
        assert m[v] == c.songs[v];
      }
    }
  }

  lemma InsertKeepsIdsDistinct(c: Catalog, u: UserId, s: Song)
    requires ValidCatalog(c) && u !in c.songs && s.id == c.nextId
    ensures var m := c.songs[u := s];
            forall v, w | v in m && w in m && v != w :: m[v].id != m[w].id
  {
    var m := c.songs[u := s];
    forall v, w | v in m && w in m && v != w
      ensures m[v].id != m[w].id
    {
      if v != u {
        assert m[v] == c.songs[v];
      }
      if w != u {
        assert m[w] == c.songs[w];
      }
    }
  }

  /** A file stored under `upload_to` for a song is named for that song. */
  lemma UploadPathNamesSong(kind: FileKind, s: Song, filename: string)
    ensures NamedFor(UploadPath(kind, s.owner, s.id, filename), kind, s)
  {
    ExtensionOfUploadPath(kind, s.owner, s.id, filename);
  }

  /** No two songs of a valid catalog share a stored file, audio or cover. */
  lemma StoredFilesDistinct(c: Catalog, u: UserId, v: UserId)
    requires ValidCatalog(c) && u in c.songs && v in c.songs && u != v
    ensures c.songs[u].audioFile != c.songs[v].audioFile
    ensures c.songs[u].coverImage.Some? && c.songs[v].coverImage.Some? ==>
            c.songs[u].coverImage.value != c.songs[v].coverImage.value
    ensures c.songs[u].coverImage.Some? ==> c.songs[u].coverImage.value != c.songs[v].audioFile
  {
    var su, sv := c.songs[u], c.songs[v];
    if su.audioFile == sv.audioFile {
      UploadPathInjective(Audio, u, su.id, su.audioFile, Audio, v, sv.id, sv.audioFile);
    }
    if su.coverImage.Some? && sv.coverImage.Some? && su.coverImage.value == sv.coverImage.value {
      UploadPathInjective(Cover, u, su.id, su.coverImage.value, Cover, v, sv.id, sv.coverImage.value);
    }
    if su.coverImage.Some? {
      CoverNeverAudio(v, sv.id, sv.audioFile, u, su.id, su.coverImage.value);
    }
  }
}
