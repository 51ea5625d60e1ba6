/**
 * The upload validators of songs/utils.py: a song title, an audio file and
 * an optional cover image. Each validator answers with a Verdict; AsTuple
 * renders it as the `(is_valid, error_message)` pair the Python returns.
 * A file is reduced to its name and its size in bytes.
 */
module Validators {
  import opened Results
  import opened Text

  const MiB: nat := 1024 * 1024
  const MaxAudioBytes: nat := 10 * MiB
  const MaxCoverBytes: nat := 2 * MiB
  const MaxTitleLength: nat := 100

  /** Used when settings define no ALLOWED_AUDIO_EXTENSIONS. */
  const DefaultAudioExtensions: seq<string> := ["mp3", "wav", "flac", "m4a", "aac", "ogg", "wma"]
  /** Used when settings define no ALLOWED_IMAGE_EXTENSIONS. */
  const DefaultImageExtensions: seq<string> := ["jpg", "jpeg", "png", "gif", "webp"]

  /** An uploaded file as the validators see it. */
  datatype Upload = Upload(name: string, size: nat)

  datatype FileKind = Audio | Cover

  datatype ValidationError =
    | AudioMissing
    | FileTooLarge(kind: FileKind, maxBytes: nat)
    | UnsupportedFormat(kind: FileKind, ext: string, allowed: seq<string>)
    | TitleBlank
    | TitleTooLong

  datatype Verdict = Valid | Invalid(error: ValidationError)

  /** A size or format complaint about a file of the given kind. */
  predicate IsFileError(e: ValidationError, kind: FileKind) {
    (e.FileTooLarge? || e.UnsupportedFormat?) && e.kind == kind
  }

  /** Python truthiness of an uploaded file: a Django File is true exactly
      when it has a non-empty name, so `not file` also holds of a file whose
      name is empty. */
  predicate Present(file: Option<Upload>) {
    file.Some? && file.value.name != ""
  }

  function MaxBytes(kind: FileKind): nat {
    match kind
    case Audio => MaxAudioBytes
    case Cover => MaxCoverBytes
  }

  /** `name.split('.')[-1].lower()`: the lower-cased text after the last dot,
      or the whole lower-cased name when it has no dot. */
  function Extension(name: string): (ext: string)
    ensures '.' !in ext
    ensures Lower(ext) == ext
    ensures IsLastSegment(Lower(name), '.', ext)
  {
    var raw := Last(Split(name, '.'));
    LowerFacts(raw, '.');
    LowerCommutesWithLastPart(name, '.');
    LastPartIsLastSegment(Lower(name), '.');
    Lower(raw)
  }

  /** The size limit is checked before the extension. */
  function CheckFile(kind: FileKind, f: Upload, allowed: seq<string>): Verdict {
    if f.size > MaxBytes(kind) then Invalid(FileTooLarge(kind, MaxBytes(kind)))
    else if Extension(f.name) !in allowed then Invalid(UnsupportedFormat(kind, Extension(f.name), allowed))
    else Valid
  }

  /** validate_audio_file: the file must be present (with a name), at most
      10 MiB, and have an allowed extension. */
  function ValidateAudioFile(file: Option<Upload>, allowed: seq<string>): (v: Verdict)
    ensures v.Valid? <==>
      Present(file) && file.value.size <= MaxAudioBytes && Extension(file.value.name) in allowed
    ensures v == Invalid(AudioMissing) <==> !Present(file)
    ensures v.Invalid? && Present(file) ==> IsFileError(v.error, Audio)
    ensures Present(file) && file.value.size > MaxAudioBytes ==>
      v == Invalid(FileTooLarge(Audio, MaxAudioBytes))
    ensures Present(file) && file.value.size <= MaxAudioBytes && Extension(file.value.name) !in allowed ==>
      v == Invalid(UnsupportedFormat(Audio, Extension(file.value.name), allowed))
  {
    if !Present(file) then Invalid(AudioMissing)
    else CheckFile(Audio, file.value, allowed)
  }

  /** validate_cover_image: an absent (or nameless) cover is fine; a present
      one must be at most 2 MiB and have an allowed extension. */
  function ValidateCoverImage(file: Option<Upload>, allowed: seq<string>): (v: Verdict)
    ensures v.Valid? <==>
      !Present(file) || (file.value.size <= MaxCoverBytes && Extension(file.value.name) in allowed)
    ensures v.Invalid? ==> Present(file) && IsFileError(v.error, Cover)
    ensures Present(file) && file.value.size > MaxCoverBytes ==>
      v == Invalid(FileTooLarge(Cover, MaxCoverBytes))
    ensures Present(file) && file.value.size <= MaxCoverBytes && Extension(file.value.name) !in allowed ==>
      v == Invalid(UnsupportedFormat(Cover, Extension(file.value.name), allowed))
  {
    if !Present(file) then Valid
    else CheckFile(Cover, file.value, allowed)
  }

  /** validate_title: the title must hold a non-white-space character and be
      at most 100 characters long, counting any surrounding white space. */
  function ValidateTitle(title: string): (v: Verdict)
    ensures v.Valid? <==> !Blank(title) && |title| <= MaxTitleLength
    ensures v == Invalid(TitleBlank) <==> Blank(title)
    ensures v.Invalid? ==> v.error == TitleBlank || v.error == TitleTooLong
  {
    StripEmptyIffBlank(title);
    if title == "" || Strip(title) == "" then Invalid(TitleBlank)
    else if |title| > MaxTitleLength then Invalid(TitleTooLong)
    else Valid
  }

  /** The user-facing text of each error. The size limit is rendered in whole
      MiB, which is exact for both limits. */
  function Message(e: ValidationError): (m: string)
    ensures |m| > 0
  {
    match e
    case AudioMissing => "音频文件不能为空"
    case FileTooLarge(Audio, max) => "音频文件过大，最大允许 " + Decimal(max / MiB) + "MB"
    case FileTooLarge(Cover, max) => "封面图片过大，最大允许 " + Decimal(max / MiB) + "MB"
    case UnsupportedFormat(Audio, ext, allowed) =>
      "不支持的音频格式: " + ext + "，允许的格式: " + Join(allowed, ", ")
    case UnsupportedFormat(Cover, ext, allowed) =>
      "不支持的图片格式: " + ext + "，允许的格式: " + Join(allowed, ", ")
    case TitleBlank => "歌曲标题不能为空"
    case TitleTooLong => "歌曲标题过长，最多 100 个字符"
  }

  /** The `(is_valid, error_message)` pair: success carries the empty message
      and every failure a non-empty one. */
  function AsTuple(v: Verdict): (r: (bool, string))
    ensures r.0 <==> v.Valid?
    ensures r.0 <==> r.1 == ""
    ensures v.Invalid? ==> r.1 == Message(v.error)
  {
    match v
    case Valid => (true, "")
    case Invalid(e) => (false, Message(e))
  }

  // ---------------------------------------------------------------------
  // Properties of the validators
  // ---------------------------------------------------------------------

  /** A file of exactly the limit passes the size check, one byte more does
      not, for both kinds of file. */
  lemma SizeLimitBoundary(name: string, audioAllowed: seq<string>, imageAllowed: seq<string>)
    requires name != ""
    requires Extension(name) in audioAllowed && Extension(name) in imageAllowed
    ensures ValidateAudioFile(Some(Upload(name, 10 * 1024 * 1024)), audioAllowed) == Valid
    ensures ValidateAudioFile(Some(Upload(name, 10 * 1024 * 1024 + 1)), audioAllowed)
            == Invalid(FileTooLarge(Audio, MaxAudioBytes))
    ensures ValidateCoverImage(Some(Upload(name, 2 * 1024 * 1024)), imageAllowed) == Valid
    ensures ValidateCoverImage(Some(Upload(name, 2 * 1024 * 1024 + 1)), imageAllowed)
            == Invalid(FileTooLarge(Cover, MaxCoverBytes))
  {
  }

  /** An oversize file with a name reports the size error whatever its
      extension. */
  lemma SizeCheckedBeforeFormat(f: Upload, audioAllowed: seq<string>, imageAllowed: seq<string>)
    ensures f.name != "" && f.size > MaxAudioBytes ==>
      ValidateAudioFile(Some(f), audioAllowed) == Invalid(FileTooLarge(Audio, MaxAudioBytes))
    ensures f.name != "" && f.size > MaxCoverBytes ==>
      ValidateCoverImage(Some(f), imageAllowed) == Invalid(FileTooLarge(Cover, MaxCoverBytes))
  {
  }

  /** A file whose name is empty counts as no file at all: the audio
      validator reports it missing and the cover validator accepts it,
      whatever its size. */
  lemma NamelessFileIsNoFile(size: nat, audioAllowed: seq<string>, imageAllowed: seq<string>)
    ensures ValidateAudioFile(Some(Upload("", size)), audioAllowed) == Invalid(AudioMissing)
    ensures ValidateCoverImage(Some(Upload("", size)), imageAllowed) == Valid
  {
  }

  /** The extension is what follows the last dot, lower-cased, whatever
      comes before it (dots included). */
  lemma ExtensionAfterLastDot(stem: string, ext: string)
    requires '.' !in ext
    ensures Extension(stem + "." + ext) == Lower(ext)
  {
    LastPartAfterSeparator(stem, '.', ext);
  }

  /** A name without a dot is its own (lower-cased) extension. */
  lemma ExtensionOfDotlessName(name: string)
    requires '.' !in name
    ensures Extension(name) == Lower(name)
  {
    LowerFacts(name, '.');
    assert IsLastSegment(Lower(name), '.', Lower(name));
    LastSegmentUnique(Lower(name), '.', Lower(name), Extension(name));
  }

  /** Names that differ only in the case of ASCII letters have the same
      extension, so the format check ignores case. */
  lemma ExtensionIgnoresCase(a: string, b: string)
    requires Lower(a) == Lower(b)
    ensures Extension(a) == Extension(b)
  {
    LastSegmentUnique(Lower(a), '.', Extension(a), Extension(b));
  }

  /** Two files of the same size whose names agree up to case get the same
      verdict from both file validators. */
  lemma FileVerdictIgnoresCase(f: Upload, g: Upload, audioAllowed: seq<string>, imageAllowed: seq<string>)
    requires f.size == g.size && Lower(f.name) == Lower(g.name)
    ensures ValidateAudioFile(Some(f), audioAllowed) == ValidateAudioFile(Some(g), audioAllowed)
    ensures ValidateCoverImage(Some(f), imageAllowed) == ValidateCoverImage(Some(g), imageAllowed)
  {
    ExtensionIgnoresCase(f.name, g.name);
  }

  /** The title length is measured before stripping: one letter padded with
      100 spaces is too long, although its stripped form has length 1. */
  lemma TitleLengthCountsWhitespace()
    ensures ValidateTitle("a" + seq(100, _ => ' ')) == Invalid(TitleTooLong)
    ensures Strip("a" + seq(100, _ => ' ')) == "a"
  {
    // Unaided, the solver's cost on this lemma varies widely between random
    // seeds; spelling out the two strip steps keeps it small and steady.
    var t := "a" + seq(100, _ => ' ');
    assert !Blank(t) by { assert !IsSpace(t[0]); }
    assert StripStart(t) == t;
    assert Blank(t[1..]);
    var e := StripEnd(t);
    assert e == t[..|e|];
  }

  /** A title of exactly 100 non-blank characters is accepted, 101 is not. */
  lemma TitleLengthBoundary(t: string)
    requires !Blank(t)
    ensures |t| == 100 ==> ValidateTitle(t) == Valid
    ensures |t| == 101 ==> ValidateTitle(t) == Invalid(TitleTooLong)
  {
  }
}
