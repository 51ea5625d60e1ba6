/**
 * The validation rules of songs/serializers.py: the song upload and update
 * serializers, the second-round bid serializer, the peer-review submission
 * serializer and the chart creation serializer. Django REST framework runs
 * every field's `validate_<field>` and reports all failing fields together;
 * an object-level `validate` runs only once every field has passed.
 */
module Serializers {
  import opened Results
  import opened Text
  import opened Validators
  import opened StoragePaths
  import opened Songs

  /** ALLOWED_AUDIO_EXTENSIONS and ALLOWED_IMAGE_EXTENSIONS. */
  datatype Settings = Settings(audioExtensions: seq<string>, imageExtensions: seq<string>)

  const DefaultSettings := Settings(DefaultAudioExtensions, DefaultImageExtensions)

  // ---------------------------------------------------------------------
  // SongUploadSerializer and SongUpdateSerializer
  // ---------------------------------------------------------------------

  /** A request body for uploading or updating a song. A field the request
      leaves out is None; `netease_url` may also be sent as null, Some(None).
      Fields outside this record are ignored by both serializers. */
  datatype SongForm = SongForm(
    title: Option<string>,
    audioFile: Option<Upload>,
    coverImage: Option<Upload>,
    neteaseUrl: Option<Option<string>>)

  datatype FieldError = Required | Rejected(error: ValidationError)

  /** The error of each field of an upload, None where the field passed. */
  datatype UploadErrors = UploadErrors(
    title: Option<FieldError>,
    audioFile: Option<FieldError>,
    coverImage: Option<FieldError>)

  /** The validated data of an upload. */
  datatype ValidUpload = ValidUpload(
    title: string,
    audioFile: Upload,
    coverImage: Option<Upload>,
    neteaseUrl: Option<string>)

  function VerdictError(v: Verdict): Option<FieldError> {
    match v
    case Valid => None
    case Invalid(e) => Some(Rejected(e))
  }

  function Flatten<T>(o: Option<Option<T>>): Option<T> {
    match o
    case None => None
    case Some(inner) => inner
  }

  /** A required title, checked by validate_title. */
  function TitleError(title: Option<string>): (e: Option<FieldError>)
    ensures title.None? ==> e == Some(Required)
    ensures title.Some? ==> (e.None? <==> ValidateTitle(title.value).Valid?)
    ensures title.Some? && e.Some? ==> e.value == Rejected(ValidateTitle(title.value).error)
  {
    match title
    case None => Some(Required)
    case Some(t) => VerdictError(ValidateTitle(t))
  }

  /** A required audio file, checked by validate_audio_file. */
  function AudioError(file: Option<Upload>, allowed: seq<string>): (e: Option<FieldError>)
    ensures file.None? ==> e == Some(Required)
    ensures e.None? <==> ValidateAudioFile(file, allowed).Valid?
    ensures file.Some? && e.Some? ==> e.value == Rejected(ValidateAudioFile(file, allowed).error)
  {
    match file
    case None => Some(Required)
    case Some(_) => VerdictError(ValidateAudioFile(file, allowed))
  }

  /** An optional cover, checked by validate_cover_image only when one was
      supplied (`if value:`, so a nameless file is not checked). */
  function CoverError(file: Option<Upload>, allowed: seq<string>): (e: Option<FieldError>)
    ensures !Present(file) ==> e.None?
    ensures e.None? <==> ValidateCoverImage(file, allowed).Valid?
    ensures e.Some? ==> e.value == Rejected(ValidateCoverImage(file, allowed).error)
  {
    if Present(file) then VerdictError(ValidateCoverImage(file, allowed)) else None
  }

  /** SongUploadSerializer.is_valid: the upload passes exactly when a title
      and an audio file are given and every validator accepts; otherwise
      each field's error is reported, whatever the other fields hold. */
  function ValidateUpload(form: SongForm, settings: Settings): (r: Result<ValidUpload, UploadErrors>)
    ensures r.Success? <==>
      && form.title.Some? && ValidateTitle(form.title.value).Valid?
      && ValidateAudioFile(form.audioFile, settings.audioExtensions).Valid?
      && ValidateCoverImage(form.coverImage, settings.imageExtensions).Valid?
    ensures r.Success? ==>
      r.value == ValidUpload(form.title.value, form.audioFile.value, form.coverImage, Flatten(form.neteaseUrl))
    ensures r.Failure? ==>
      && (r.error.title.None? <==> form.title.Some? && ValidateTitle(form.title.value).Valid?)
      && (r.error.audioFile.None? <==> ValidateAudioFile(form.audioFile, settings.audioExtensions).Valid?)
      && (r.error.coverImage.None? <==> ValidateCoverImage(form.coverImage, settings.imageExtensions).Valid?)
    ensures r.Failure? && !Present(form.coverImage) ==> r.error.coverImage.None?
    ensures r.Failure? ==>
      r.error == UploadErrors(
        TitleError(form.title),
        AudioError(form.audioFile, settings.audioExtensions),
        CoverError(form.coverImage, settings.imageExtensions))
  {
    var errors := UploadErrors(
      TitleError(form.title),
      AudioError(form.audioFile, settings.audioExtensions),
      CoverError(form.coverImage, settings.imageExtensions));
    if errors.title.None? && errors.audioFile.None? && errors.coverImage.None? then
      Success(ValidUpload(form.title.value, form.audioFile.value, form.coverImage, Flatten(form.neteaseUrl)))
    else
      Failure(errors)
  }

  /** With the fallback extension lists, an audio file ending in `.MP3` of
      at most 10 MiB, with a plain title and no cover, is accepted whatever
      its stem; one byte more is refused for its size. */
  lemma DefaultSettingsAcceptMp3(stem: string, size: nat)
    ensures var form := SongForm(Some("Song"), Some(Upload(stem + ".MP3", size)), None, None);
            ValidateUpload(form, DefaultSettings).Success? <==> size <= MaxAudioBytes
  {
    AudioExampleExtension(stem);
    assert !Blank("Song") by {
      assert !IsSpace("Song"[0]);
    }
    assert "mp3" in DefaultAudioExtensions;
  }

  /** Where an optional upload is stored: a file with a name is saved under
      the name `upload_to` makes from it; a missing or nameless one leaves
      the field empty. */
  function StoredFile(kind: FileKind, owner: UserId, id: SongId, file: Option<Upload>): (p: Option<string>)
    ensures p.Some? <==> Present(file)
    ensures p.Some? ==> p.value == UploadPath(kind, owner, id, file.value.name)
    ensures p.Some? ==> p.value == UploadPath(kind, owner, id, p.value)
  {
    if !Present(file) then None
    else
      match kind
      case Audio => Some(AudioFilename(owner, id, file.value.name))
      case Cover => Some(CoverFilename(owner, id, file.value.name))
  }

  /** SongUploadSerializer.create: the new song belongs to the requesting
      user, records the audio file's size and hash, keeps the validated
      title and link, and stores its files under names made for it. */
  function CreateSong(owner: UserId, id: SongId, data: ValidUpload, audioHash: string): (s: Song)
    requires ValidateTitle(data.title).Valid?
    ensures ValidSong(s)
    ensures s.owner == owner && s.id == id
    ensures s.fileSize == data.audioFile.size && s.audioHash == audioHash
    ensures s.title == data.title && s.neteaseUrl == data.neteaseUrl
    ensures s.audioFile == UploadPath(Audio, owner, id, data.audioFile.name)
    ensures s.coverImage.Some? <==> Present(data.coverImage)
    ensures s.coverImage.Some? ==> s.coverImage.value == UploadPath(Cover, owner, id, data.coverImage.value.name)
  {
    var audio := AudioFilename(owner, id, data.audioFile.name);
    var cover := StoredFile(Cover, owner, id, data.coverImage);
    var s := Song(id, owner, data.title, audio, cover, data.neteaseUrl, audioHash, data.audioFile.size);
    assert NamedFor(audio, Audio, s);
    assert cover.Some? ==> NamedFor(cover.value, Cover, s);
    s
  }

  /** The changes SongUpdateSerializer may make: a new title and a new link,
      each None when the request leaves it out. */
  datatype SongUpdate = SongUpdate(title: Option<string>, neteaseUrl: Option<Option<string>>)

  /** SongUpdateSerializer.is_valid with `partial=True`: only `title` and
      `netease_url` are read, and a given title must pass validate_title. */
  function ValidateUpdate(form: SongForm): (r: Result<SongUpdate, FieldError>)
    ensures r.Success? <==> form.title.None? || ValidateTitle(form.title.value).Valid?
    ensures r.Success? ==> r.value.title == form.title && r.value.neteaseUrl == form.neteaseUrl
    ensures r.Failure? ==> form.title.Some? && r.error == Rejected(ValidateTitle(form.title.value).error)
  {
    match form.title
    case Some(t) =>
      (match ValidateTitle(t)
       case Invalid(e) => Failure(Rejected(e))
       case Valid => Success(SongUpdate(form.title, form.neteaseUrl)))
    case None => Success(SongUpdate(form.title, form.neteaseUrl))
  }

  /** SongUpdateSerializer.save: the song keeps everything but its title and
      link, and takes each of those from the update where it gives one. */
  function ApplyUpdate(s: Song, u: SongUpdate): (r: Song)
    ensures r.(title := s.title, neteaseUrl := s.neteaseUrl) == s
    ensures r.title == u.title.GetOr(s.title)
    ensures r.neteaseUrl == u.neteaseUrl.GetOr(s.neteaseUrl)
  {
    var t := match u.title case Some(x) => x case None => s.title;
    var n := match u.neteaseUrl case Some(x) => x case None => s.neteaseUrl;
    s.(title := t, neteaseUrl := n)
  }

  /** An accepted update keeps a valid song valid. */
  lemma UpdateKeepsSongValid(s: Song, form: SongForm)
    requires ValidSong(s)
    requires ValidateUpdate(form).Success?
    ensures ValidSong(ApplyUpdate(s, ValidateUpdate(form).value))
  {
  }

  /** The update serializer reads nothing but `title` and `netease_url`:
      files sent along with an update change neither the verdict nor the
      changes made. */
  lemma UpdateIgnoresFileFields(f1: SongForm, f2: SongForm)
    requires f1.title == f2.title && f1.neteaseUrl == f2.neteaseUrl
    ensures ValidateUpdate(f1) == ValidateUpdate(f2)
  {
  }

  // ---------------------------------------------------------------------
  // SecondBidSerializer
  // ---------------------------------------------------------------------

  const MaxSecondBidAmount: int := 999

  datatype AmountError = NotPositive | AboveMaximum

  /** validate_amount: a second-round bid is between 1 and 999 tokens. */
  function ValidateAmount(amount: int): (r: Result<int, AmountError>)
    ensures r.Success? <==> 1 <= amount <= MaxSecondBidAmount
    ensures r.Success? ==> r.value == amount
    ensures r == Failure(NotPositive) <==> amount <= 0
    ensures r == Failure(AboveMaximum) <==> amount > MaxSecondBidAmount
  {
    if amount <= 0 then Failure(NotPositive)
    else if amount > MaxSecondBidAmount then Failure(AboveMaximum)
    else Success(amount)
  }

  /** The half-finished chart a second-round bid targets. */
  datatype ChartRef = ChartRef(id: nat, owner: UserId)

  datatype SecondBidError = BadAmount(reason: AmountError) | OwnChart

  datatype SecondBidData = SecondBidData(amount: int, target: Option<ChartRef>)

  /** SecondBidSerializer.is_valid: the amount is checked first; only a
      valid amount reaches `validate`, which refuses a bid on one's own
      chart and lets a bid without a target through. */
  function ValidateSecondBid(requester: UserId, amount: int, target: Option<ChartRef>): (r: Result<SecondBidData, SecondBidError>)
    ensures r.Success? <==>
      1 <= amount <= MaxSecondBidAmount && (target.None? || target.value.owner != requester)
    ensures r == Failure(OwnChart) <==>
      1 <= amount <= MaxSecondBidAmount && target.Some? && target.value.owner == requester
    ensures r.Success? ==> r.value == SecondBidData(amount, target)
    ensures ValidateAmount(amount).Failure? ==> r == Failure(BadAmount(ValidateAmount(amount).error))
  {
    match ValidateAmount(amount)
    case Failure(e) => Failure(BadAmount(e))
    case Success(a) =>
      if target.Some? && target.value.owner == requester then Failure(OwnChart)
      else Success(SecondBidData(a, target))
  }

  /** A bid on one's own chart is refused for every admissible amount, and
      the refusal names the ownership, not the amount. */
  lemma SelfBidAlwaysRefused(requester: UserId, amount: int, chartId: nat)
    requires 1 <= amount <= MaxSecondBidAmount
    ensures ValidateSecondBid(requester, amount, Some(ChartRef(chartId, requester))) == Failure(OwnChart)
  {
  }

  // ---------------------------------------------------------------------
  // PeerReviewSubmitSerializer
  // ---------------------------------------------------------------------

  datatype ScoreError = ScoreOutOfRange(maxScore: int)

  /** validate_score: a score lies between 0 and PEER_REVIEW_MAX_SCORE, both
      ends included. */
  function ValidateScore(score: int, maxScore: int): (r: Result<int, ScoreError>)
    ensures r.Success? <==> 0 <= score <= maxScore
    ensures r.Success? ==> r.value == score
    ensures r.Failure? ==> r.error == ScoreOutOfRange(maxScore)
  {
    if score < 0 || score > maxScore then Failure(ScoreOutOfRange(maxScore))
    else Success(score)
  }

  // ---------------------------------------------------------------------
  // ChartCreateSerializer
  // ---------------------------------------------------------------------

  /** Python truthiness of an optional string: present and non-empty. */
  predicate Truthy(s: Option<string>) {
    s.Some? && s.value != ""
  }

  datatype ChartIdentifiers = ChartIdentifiers(chartUrl: Option<string>, chartIdExternal: Option<string>)

  datatype ChartError = NoIdentifier

  /** ChartCreateSerializer.validate: a chart needs a link or an external
      id; an empty string counts as missing. */
  function ValidateChartCreate(chartUrl: Option<string>, chartIdExternal: Option<string>): (r: Result<ChartIdentifiers, ChartError>)
    ensures r.Success? <==>
      (chartUrl.Some? && |chartUrl.value| > 0) || (chartIdExternal.Some? && |chartIdExternal.value| > 0)
    ensures r.Success? ==> r.value == ChartIdentifiers(chartUrl, chartIdExternal)
  {
    if !Truthy(chartUrl) && !Truthy(chartIdExternal) then Failure(NoIdentifier)
    else Success(ChartIdentifiers(chartUrl, chartIdExternal))
  }
}
