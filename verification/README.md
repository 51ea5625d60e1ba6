# Songs layer of xmmcg, modelled in Dafny

xmmcg runs a song-and-chart competition. Participants upload one song each, bid
on songs, chart them, bid on half-finished charts in a second round, and
review each other's charts. This project models the deterministic layer around
songs that the Django backend implements in `backend/xmmcg/songs/`:

- **Upload validators** (`utils.py`). `validate_title`, `validate_audio_file`
  and `validate_cover_image` each return an `(is_valid, error_message)` pair.
  They share the extension idiom `name.split('.')[-1].lower()`
  (`Validators`, using the string toolkit in `Text`).
- **Storage paths** (`models.py`). The `upload_to` callbacks
  `get_audio_filename` and `get_cover_filename` name stored files
  `songs/audio_user{uid}_song{sid}.{ext}` and
  `songs/cover_user{uid}_song{sid}.{ext}` (`StoragePaths`).
- **The Song model** and its one-song-per-user constraint. The table of songs
  is a map from uploader to song (`Songs`).
- **Serializer rules** (`serializers.py`), in `Serializers`:
  - the song upload and update serializers, including the song they create;
  - the second-round bid amount and self-bid rule;
  - the peer-review score range;
  - the chart-creation identifier rule.
- **Views** (`views.py`):
  - the paginated song list of `songs_root` GET (`Pagination`);
  - the ownership state machine of `songs_root` POST, `get_my_song`,
    `update_my_song` and `delete_my_song` (`SongViews`).

Files are reduced to `(name, size)` pairs. Ids are naturals rendered in decimal.
The audio hash is an opaque string passed in by the caller. The allowed-extension
lists and the peer-review maximum score come from settings and models outside
this layer, so they are parameters; `DefaultSettings` holds the fallback lists.
Each view takes the catalog and the requesting user (None when anonymous) and
answers with a `Result` carrying either the response or the reason for
refusal. The views that write (upload, update, delete) also return the catalog
after the request; `GetMySong` returns the `Result` alone.

## Model

| member | source | states |
|---|---|---|
| Text.Split | backend/xmmcg/songs/utils.py:41 | `str.split` with a one-character separator yields at least one part, and no part contains the separator |
| Text.JoinSplit | backend/xmmcg/songs/utils.py:41 | joining the parts of a split with the separator gives back the original string, so splitting loses nothing |
| Text.Join | backend/xmmcg/songs/utils.py:43 | `", ".join(allowed)` of no parts is empty and of one part is that part |
| Text.JoinEnds | backend/xmmcg/songs/utils.py:43 | a join starts with the first part, followed by the separator when there are more parts, and ends with the last part |
| Text.LastPartIsLastSegment | backend/xmmcg/songs/utils.py:41 | `split(sep)[-1]` is the suffix after the last separator, or the whole string when there is none |
| Text.LastPartAfterSeparator | backend/xmmcg/songs/utils.py:41 | whatever precedes the last separator, `split(sep)[-1]` is the separator-free text after it |
| Text.Lower | backend/xmmcg/songs/utils.py:41 | `lower()` keeps the length, leaves no upper-case letter, keeps every character that is not an upper-case letter, and moves each upper-case letter 32 code points on to its lower-case partner |
| Text.LowerFacts | backend/xmmcg/songs/utils.py:41 | a lower-cased string has no upper-case letter, lowering twice changes nothing, and lowering neither adds nor removes a non-letter separator |
| Text.LowerCommutesWithLastPart | backend/xmmcg/songs/utils.py:41 | lower-casing before or after taking the last dot-segment gives the same extension |
| Text.StripStart | backend/xmmcg/songs/utils.py:81 | `lstrip()` removes exactly the leading run of Python white space |
| Text.StripEnd | backend/xmmcg/songs/utils.py:81 | `rstrip()` removes exactly the trailing run of Python white space |
| Text.Strip | backend/xmmcg/songs/utils.py:81 | `strip()` drops a blank leading run, then keeps a prefix of the rest whose dropped tail is blank; the result neither starts nor ends with white space |
| Text.StripEmptyIffBlank | backend/xmmcg/songs/utils.py:81 | `title.strip()` is empty exactly when every character is white space |
| Text.Decimal | backend/xmmcg/songs/models.py:13 | an id renders as `str(n)`: a non-empty run of decimal digits without a leading zero, and 0 as `"0"` |
| Text.ParseDecimalRoundTrip | backend/xmmcg/songs/models.py:13 | reading the rendered digits back gives the id |
| Text.DecimalInjective | backend/xmmcg/songs/models.py:13 | distinct ids render differently |
| Text.DigitPrefixesAgree | backend/xmmcg/songs/models.py:13 | a digit run followed by a non-digit is determined by the string, which is how an id is read back out of a path |
| Validators.Extension | backend/xmmcg/songs/utils.py:41 | the extension is lower-case, holds no dot, and is the last dot-segment of the lower-cased name |
| Validators.ExtensionAfterLastDot | backend/xmmcg/songs/utils.py:41 | for `stem.ext`, the extension is `ext` lower-cased, whatever dots the stem holds |
| Validators.ExtensionOfDotlessName | backend/xmmcg/songs/utils.py:41 | a name without a dot is its own extension, lower-cased |
| Validators.ExtensionIgnoresCase | backend/xmmcg/songs/utils.py:67 | names equal up to letter case have the same extension |
| Validators.ValidateAudioFile | backend/xmmcg/songs/utils.py:22-45 | the audio file is accepted iff it is present with a name, at most 10 MiB and its extension is allowed; the missing-file error is given exactly for a missing or nameless file, a present file over 10 MiB gets the size error naming the limit, and one within it whose extension is not allowed gets the format error naming the lower-cased extension and the allowed list |
| Validators.ValidateCoverImage | backend/xmmcg/songs/utils.py:48-71 | the cover is accepted iff it is absent or nameless, or at most 2 MiB with an allowed extension; every refusal is about a present cover: over 2 MiB it is the size error naming the limit, otherwise the format error naming the lower-cased extension and the allowed list |
| Validators.NamelessFileIsNoFile | backend/xmmcg/songs/utils.py:29-30 | a file with an empty name is `not file`: the audio validator reports it missing and the cover validator accepts it, whatever its size |
| Validators.ValidateTitle | backend/xmmcg/songs/utils.py:74-87 | a title is accepted iff it has a non-white-space character and at most 100 characters; the blank error is reported exactly for blank titles |
| Validators.Message | backend/xmmcg/songs/utils.py:30-85 | every error has a non-empty message |
| Validators.AsTuple | backend/xmmcg/songs/utils.py:29-87 | the Python pair is `(True, '')` on success and `False` with a non-empty message on failure |
| Validators.SizeLimitBoundary | backend/xmmcg/songs/utils.py:33-36 | exactly 10 MiB (audio) or 2 MiB (cover) passes, and one byte more is refused with the size error |
| Validators.SizeCheckedBeforeFormat | backend/xmmcg/songs/utils.py:32-43 | an oversize file reports the size error whatever its extension |
| Validators.FileVerdictIgnoresCase | backend/xmmcg/songs/utils.py:41-43 | files equal in size whose names differ only in case get the same verdict from both validators |
| Validators.TitleLengthCountsWhitespace | backend/xmmcg/songs/utils.py:81-85 | the length limit counts white space: `"a"` plus 100 spaces strips to `"a"` but is refused as too long |
| Validators.TitleLengthBoundary | backend/xmmcg/songs/utils.py:84-85 | a non-blank title of 100 characters is accepted, one of 101 is refused as too long |
| StoragePaths.AudioFilename | backend/xmmcg/songs/models.py:6-13 | `get_audio_filename` names the file after the song's audio stem, and the extension read back from the path is the uploaded name's |
| StoragePaths.CoverFilename | backend/xmmcg/songs/models.py:16-23 | `get_cover_filename` names the file after the song's cover stem, and the extension read back from the path is the uploaded name's |
| StoragePaths.ExtensionOfUploadPath | backend/xmmcg/songs/models.py:12-13 | reading the extension of a generated path back gives the extension of the uploaded name |
| StoragePaths.DocumentedExamples | backend/xmmcg/songs/models.py:6-23 | user 1, song 5 and a name ending in `.MP3` or `.Jpg` give `songs/audio_user1_song5.mp3` and `songs/cover_user1_song5.jpg` |
| StoragePaths.PathEndsWithCleanExtension | backend/xmmcg/songs/models.py:12-13 | the path ends in a dot and the extension, which is lower-case and holds no dot |
| StoragePaths.TailsAgree | backend/xmmcg/songs/models.py:13 | below a common prefix, `<uid>_song<sid>.<ext>` tails are equal only when their uid, sid and extension are |
| StoragePaths.UploadPathInjective | backend/xmmcg/songs/models.py:12-23 | equal paths come from the same kind, user, song and extension |
| StoragePaths.PathDependsOnlyOnExtension | backend/xmmcg/songs/models.py:12-13 | for a fixed kind, user and song, two uploaded names give the same path iff their extensions agree |
| StoragePaths.PathIgnoresCase | backend/xmmcg/songs/models.py:12-13 | names that differ only in letter case get the same path |
| StoragePaths.CoverNeverAudio | backend/xmmcg/songs/models.py:13-23 | no cover path equals any audio path |
| StoragePaths.UploadPathAsWritten | backend/xmmcg/songs/models.py:12-23 | the callbacks as written agree with the documented pattern whenever the song id is known |
| StoragePaths.AsWrittenCreatePathIgnoresSong | backend/xmmcg/songs/models.py:13 | while a song is being created its id reads `None`: all of a user's songs get one path per extension, and it is no song's documented path |
| StoragePaths.DistinctSongsDistinctPaths | backend/xmmcg/songs/models.py:13 | with the id known, two distinct songs never share a stored file name |
| Songs.UploadPathNamesSong | backend/xmmcg/songs/models.py:51-60 | a file stored by `upload_to` carries the name made for its song |
| Songs.EmptyCatalogValid | backend/xmmcg/songs/models.py:26-60 | the catalog starts empty and valid, so the invariant the views keep holds from the start |
| Songs.StoredFilesDistinct | backend/xmmcg/songs/models.py:40-60 | in a valid catalog no two songs share an audio file or a cover, and no cover is another song's audio |
| Serializers.TitleError | backend/xmmcg/songs/serializers.py:27-38 | a missing title is a required-field error; a given title has no error iff validate_title accepts it, otherwise it carries that error |
| Serializers.AudioError | backend/xmmcg/songs/serializers.py:28-45 | a missing audio file is a required-field error; otherwise it has no error iff validate_audio_file accepts it, and carries that error when refused |
| Serializers.CoverError | backend/xmmcg/songs/serializers.py:47-53 | a cover that is absent or nameless is not checked; otherwise it has no error iff validate_cover_image accepts it, and carries that error when refused |
| Serializers.ValidateUpload | backend/xmmcg/songs/serializers.py:20-53 | the upload passes iff a title and audio file are given and all three validators accept; a refusal reports every field's error together, each exactly the one TitleError, AudioError and CoverError give (required, or the validator's own message), and an absent or nameless cover is never checked |
| Serializers.DefaultSettingsAcceptMp3 | backend/xmmcg/songs/utils.py:39-40 | with the fallback extension lists, a `.MP3` audio file with a plain title and no cover is accepted iff it is at most 10 MiB |
| Serializers.StoredFile | backend/xmmcg/songs/models.py:51-60 | a file is stored iff one with a name was supplied, under the intended `upload_to` path for the song's id and that file's name |
| Serializers.CreateSong | backend/xmmcg/songs/serializers.py:55-69 | the created song belongs to the requester, records the audio file's size and hash, keeps the title and link, is valid, stores the audio under the intended `upload_to` path for the song's id and the uploaded name, and has a cover, stored likewise, iff one with a name was supplied |
| Serializers.ValidateUpdate | backend/xmmcg/songs/serializers.py:130-142 | an update passes iff it gives no title or a title `validate_title` accepts, and carries only `title` and `netease_url`; a refused update carries `validate_title`'s error |
| Serializers.ApplyUpdate | backend/xmmcg/songs/serializers.py:130-135 | saving an update changes nothing but the title and the link, each taken from the update where it gives one |
| Serializers.UpdateKeepsSongValid | backend/xmmcg/songs/serializers.py:137-142 | an accepted update keeps a valid song valid |
| Serializers.UpdateIgnoresFileFields | backend/xmmcg/songs/serializers.py:133-135 | files sent with an update change neither the verdict nor the changes |
| Serializers.ValidateAmount | backend/xmmcg/songs/serializers.py:349-355 | a second-round bid amount passes iff it lies in 1..999, with the two refusals for too low and too high |
| Serializers.ValidateSecondBid | backend/xmmcg/songs/serializers.py:349-365 | a second-round bid passes iff its amount is valid and it has no target or a target owned by someone else; a bad amount is reported as such whatever the target, since the object-level check runs only after the fields pass |
| Serializers.SelfBidAlwaysRefused | backend/xmmcg/songs/serializers.py:357-365 | a bid on one's own chart is refused for ownership at every admissible amount |
| Serializers.ValidateScore | backend/xmmcg/songs/serializers.py:264-271 | a review score passes iff it lies in 0..PEER_REVIEW_MAX_SCORE |
| Serializers.ValidateChartCreate | backend/xmmcg/songs/serializers.py:218-224 | a chart passes iff its link or its external id is a non-empty string |
| Pagination.FloorDiv | backend/xmmcg/songs/views.py:45 | Python `//` rounds the quotient toward negative infinity, for either sign of divisor |
| Pagination.SliceQuerySet | backend/xmmcg/songs/views.py:36 | queryset slicing refuses negative bounds, and otherwise yields the items with index in [start, end), clipped to the list |
| Pagination.ListSongs | backend/xmmcg/songs/views.py:29-47 | a page is served iff the page size and page are both positive, or the page size is negative and the page non-positive; page size 0 is the division error; count and page count as documented |
| Pagination.SongsRootGet | backend/xmmcg/songs/views.py:29-30 | with no query parameters the first ten songs are listed |
| Pagination.PageWindow | backend/xmmcg/songs/views.py:32-36 | a page holds the items from `(page-1)*page_size` on, at most `page_size` of them, clipped to the list |
| Pagination.TotalPagesIsCeiling | backend/xmmcg/songs/views.py:45 | `total_pages` is 0 for no songs and otherwise the least number of pages that holds them all |
| Pagination.PageBeyondLastIsEmpty | backend/xmmcg/songs/views.py:32-36 | a page past `total_pages` is empty |
| Pagination.PagesUpToIsPrefix | backend/xmmcg/songs/views.py:32-36 | pages 1 to k together are the first `k*page_size` songs, in order and without overlap |
| Pagination.AllPagesReproduceList | backend/xmmcg/songs/views.py:32-45 | pages 1 to `total_pages` together are the whole list in order |
| Pagination.NegativePageSizeListsNothing | backend/xmmcg/songs/views.py:32-36 | a negative page size with a non-positive page yields an empty page rather than an error |
| SongViews.SongsRootPost | backend/xmmcg/songs/views.py:49-87 | an upload succeeds iff the user is signed in, owns no song and the form is valid; a user who owns one is told its id and title; every refusal leaves the catalog unchanged; an invalid form is refused with its field errors; success stores the new song under its uploader with the next id, the audio and cover paths made from the uploaded names, a cover iff one was supplied, and the given title and link |
| SongViews.GetMySong | backend/xmmcg/songs/views.py:91-112 | an anonymous requester is refused as not authenticated; the requester's own song is returned, and a requester without one gets not-found |
| SongViews.UpdateMySong | backend/xmmcg/songs/views.py:116-147 | an anonymous requester is refused as not authenticated; without a song the answer is not-found; an invalid title is refused with the update serializer's error; none of these changes anything; an accepted update changes only title and link of the requester's song, each to the value given, or kept when not given |
| SongViews.DeleteMySong | backend/xmmcg/songs/views.py:151-181 | an anonymous requester is refused as not authenticated; without a song the answer is not-found and nothing changes; otherwise exactly the requester's song is removed and its id and title are reported |
| SongViews.UploadKeepsCatalogValid | backend/xmmcg/songs/views.py:59-82 | an upload keeps one song per user, valid songs and distinct ids |
| SongViews.UpdateKeepsCatalogValid | backend/xmmcg/songs/views.py:135-142 | an update keeps one song per user, valid songs and distinct ids |
| SongViews.DeleteKeepsCatalogValid | backend/xmmcg/songs/views.py:170-172 | a delete keeps the catalog valid |
| SongViews.SecondUploadRefused | backend/xmmcg/songs/views.py:59-70 | after a successful upload, a second upload by the same user is refused, names the stored song and changes nothing |
| SongViews.DeleteReenablesUpload | backend/xmmcg/songs/views.py:158-172 | after deleting one's song, an upload by the same user succeeds iff the form is valid |
| SongViews.OtherUsersUntouched | backend/xmmcg/songs/views.py:57-172 | no upload, update or delete by one user changes another user's song |
| SongViews.GetAfterWrite | backend/xmmcg/songs/views.py:77-172 | after an upload or update the requester's song reads back as the view returned it, and after a delete it reads as not-found |

## Left out

- The bidding, second-round and peer-review allocation engine: songs/bidding_service.py is not part of this model.
- The Bid, BidResult, BiddingRound, Chart, PeerReview and second-round models are not part of this model. Only the serializer rules that read them are modelled, over a chart reference `(id, owner)` and a maximum score parameter.
- `calculate_file_hash` (SHA-256 over file chunks) is I/O and a foreign library. The hash is an opaque string parameter.
- `max_size / (1024 * 1024)` in the size messages is float arithmetic. The model renders the whole number of MiB instead, which gives the same text for both limits.
- Text.Lower: lower-cases ASCII letters only; Python's `str.lower()` also maps other Unicode letters.
- Text.IsSpace covers Python's white-space code points. The model treats strings as sequences of code points, with no normalisation.
- Django REST framework's own field checks are not modelled:
  - CharField whitespace trimming, blank and max_length checks;
  - FileField empty-file and file-name checks;
  - ImageField content checks;
  - URLField format checks;
  - IntegerField parsing.
  The custom validators see the value as given.
- `int()` of the `page` and `page_size` query parameters is not modelled. A non-numeric value raises there; the model takes integers.
- The song list's order (`ordering = ['-id']`) is taken as given: the listing works on a sequence already in database order.
- Pagination.SongsRootGet: states only the default request; other requests are described by ListSongs.
- The response bodies are not modelled: serializer field projections, URLs of stored files, timestamps and HTTP status codes. Only the accept/reject outcome and the data each view reports are.
- The `created_at`/`updated_at` timestamps, the `unique_key` UUID and the 64-character limit of `audio_hash` are not modelled.
- `Song.delete` removing the stored files is storage I/O. Deleting a song removes it from the catalog.
- `get_song_detail` is not modelled: it is a plain lookup by id with a 404.
- Pagination.ListSongs: does not model the database's integer range for LIMIT and OFFSET. A page size or offset of 2^63 or more fails in the database, while the model serves the page; the limit belongs to the database backend, which is not part of this model.
- Pagination.SliceQuerySet: serves any non-negative bounds, for the same reason as ListSongs.
- SongViews.SongsRootPost: models requests one at a time. Two concurrent uploads by one user can both pass the existing-song check; the second insert then fails on the one-to-one constraint instead of answering AlreadyUploaded. Concurrency is not modelled.
- The routing in songs/urls.py and the admin classes are not modelled.
- The test, seed and debug scripts and the frontend are not modelled.
- SongViews.SongsRootPost: the stored song uses the intended storage paths (see Findings), not the `songNone` paths produced as written.
- Serializers.StoredFile: stores under the intended path with the song's id; as written, `upload_to` runs before the id exists and yields `songNone` (see Findings).
- Serializers.CreateSong: stores the audio and cover under the intended paths with the song's id, not the `songNone` paths produced as written (see Findings).
- The DRF permission layer on `get_my_song`, `update_my_song` and `delete_my_song` is collapsed into one NotAuthenticated refusal for an anonymous requester.

## Findings

| source | as written | input that shows it | evidently intended | confidence | as-written member | corrected member |
|---|---|---|---|---|---|---|
| backend/xmmcg/songs/models.py:13 | `upload_to` reads `instance.id`. Django calls it while saving the new row, before the database has assigned the id, so the id renders as `None`. | user 1 uploads `a.mp3`: stored as `songs/audio_user1_songNone.mp3`. After deleting it and uploading `b.mp3`, the new file gets the same name. | `songs/audio_user1_song5.mp3`, with the song's own id, so distinct songs never share a file name | medium, not executed | StoragePaths.AsWrittenCreatePathIgnoresSong | StoragePaths.DistinctSongsDistinctPaths |

The same holds for the cover path at backend/xmmcg/songs/models.py:23. The rest
of the model stores files under the corrected `UploadPath`.
