/**
 * The adaptive image resizer used before every image upload, and the decision part
 * of `uploadImage` (type whitelist, per-bucket byte limit, resize only when over
 * the limit, storage object name).
 *
 * The platform encoder (`canvas.toBlob`) is an `Encoder`: a function of
 * (width, height, quality) that yields the encoded byte size, or `None` when no
 * blob was produced. Quality is counted in tenths (9 stands for 0.9).
 */
module ImageResize {
  import opened Wrappers
  import opened Text

  /** Quality of the first encode at each size level (0.9). */
  const InitialQuality: nat := 9
  /**
   * Quality is lowered while it is above this floor. The source tests `quality > 0.3`
   * on doubles; after six subtractions of 0.1 from 0.9 the double is
   * 0.30000000000000016, which passes the test, so 0.2 is tried as well: the
   * effective floor is 2 tenths and each size level gets eight encodes.
   */
  const QualityFloor: nat := 2
  /** A side is shrunk only while both sides are larger than this. */
  const MinSide: nat := 50
  /** At most this many encodes; the next would-be attempt rejects. */
  const MaxAttempts: nat := 50

  datatype ImageFile = ImageFile(name: string, mime: string, size: nat)

  /** One trial encode: (width, height, quality in tenths). */
  datatype Config = Config(width: nat, height: nat, quality: nat)

  /** The platform encoder: encoded byte size, or `None` when no blob was produced. */
  type Encoder = (nat, nat, nat) -> Option<nat>

  datatype ResizeError =
    | ContextUnavailable                      // no 2-D canvas context
    | LoadFailed                              // the image could not be decoded
    | TooManyAttempts                         // the 51st attempt
    | EncodeFailed                            // the encoder produced no blob
    | Unachievable(limit: nat, achieved: nat) // both floors reached, still too big

  datatype ResizeResult = Resized(file: ImageFile) | Failed(error: ResizeError)

  /** The result of a search together with the configurations it encoded, in order. */
  datatype Search = Search(result: ResizeResult, trials: seq<Config>)

  /** `Math.floor(side * 0.85)`. */
  function Shrink(side: nat): (r: nat)
    ensures r <= side
    ensures side > 0 ==> r < side
  {
    side * 85 / 100
  }

  /** A measure that every step of the search strictly lowers. */
  function Rank(c: Config): nat {
    (c.width + c.height) * 10 + c.quality
  }

  /**
   * The configuration tried after an encode that was too big, or `None` when
   * neither quality nor size can be lowered any more.
   */
  function NextConfig(c: Config): (r: Option<Config>)
    ensures r.None? <==> c.quality <= QualityFloor && (c.width <= MinSide || c.height <= MinSide)
    ensures c.quality > QualityFloor ==>
              r.Some? && r.value.quality + 1 == c.quality
              && r.value.width == c.width && r.value.height == c.height
    ensures r.Some? && c.quality <= QualityFloor ==>
              c.width > MinSide && c.height > MinSide
              && r.value.width == Shrink(c.width) && r.value.height == Shrink(c.height)
              && r.value.quality == InitialQuality
    ensures r.Some? ==> r.value.width <= c.width && r.value.height <= c.height
  {
    if c.quality > QualityFloor then
      Some(Config(c.width, c.height, c.quality - 1))
    else if c.width > MinSide && c.height > MinSide then
      Some(Config(Shrink(c.width), Shrink(c.height), InitialQuality))
    else
      None
  }

  /**
   * Without the attempt cap the search still ends: every step either lowers
   * quality at the same size or strictly shrinks both sides, which lowers `Rank`.
   */
  lemma NextConfigLowersRank(c: Config)
    requires c.quality <= InitialQuality && NextConfig(c).Some?
    ensures Rank(NextConfig(c).value) < Rank(c)
  {
    if c.quality <= QualityFloor {
      assert Shrink(c.width) + 1 <= c.width && Shrink(c.height) + 1 <= c.height;
    }
  }

  /** The encoder's answer for `c` exceeds the budget. */
  predicate OverBudget(enc: Encoder, maxSize: nat, c: Config) {
    enc(c.width, c.height, c.quality).Some? && enc(c.width, c.height, c.quality).value > maxSize
  }

  /** What one encode decides: stop with a result, or go on with the next configuration. */
  datatype Decision = Stop(result: ResizeResult) | Continue(next: Config)

  /** The decision after encoding `c` with outcome `out` (a byte size, or no blob). */
  function Decide(file: ImageFile, maxSize: nat, c: Config, out: Option<nat>): (d: Decision)
    ensures d.Continue? <==> out.Some? && out.value > maxSize && NextConfig(c).Some?
    ensures d.Continue? ==> d.next == NextConfig(c).value
    ensures d == Stop(Failed(EncodeFailed)) <==> out.None?
    ensures d.Stop? && d.result.Resized? <==> out.Some? && out.value <= maxSize
    ensures d.Stop? && d.result.Resized? ==> d.result.file == ImageFile(file.name, file.mime, out.value)
    ensures d.Stop? && d.result.Failed? && d.result.error.Unachievable? <==>
              out.Some? && out.value > maxSize && NextConfig(c).None?
    ensures d.Stop? && d.result.Failed? && d.result.error.Unachievable? ==>
              d.result.error == Unachievable(maxSize, out.value)
  {
    match out
    case None => Stop(Failed(EncodeFailed))
    case Some(size) =>
      if size <= maxSize then Stop(Resized(ImageFile(file.name, file.mime, size)))
      else
        match NextConfig(c)
        case None => Stop(Failed(Unachievable(maxSize, size)))
        case Some(next) => Continue(next)
  }

  /**
   * The search from configuration `c`, `attempts` encodes having been made already:
   * it encodes at most the remaining number of times, starting with `c`.
   */
  function SearchFrom(file: ImageFile, maxSize: nat, enc: Encoder, c: Config, attempts: nat): (s: Search)
    requires attempts <= MaxAttempts
    decreases MaxAttempts - attempts
    ensures |s.trials| <= MaxAttempts - attempts
    ensures s.trials == [] <==> attempts == MaxAttempts
    ensures s.trials != [] ==> s.trials[0] == c
  {
    if attempts == MaxAttempts then Search(Failed(TooManyAttempts), [])
    else
      match Decide(file, maxSize, c, enc(c.width, c.height, c.quality))
      case Stop(result) => Search(result, [c])
      case Continue(next) =>
        var rest := SearchFrom(file, maxSize, enc, next, attempts + 1);
        Search(rest.result, [c] + rest.trials)
  }

  /** The whole resize: the context and decode checks, then the search from the natural size at quality 0.9. */
  function Resize(file: ImageFile, maxSize: nat, ctxAvailable: bool, natural: Option<(nat, nat)>, enc: Encoder): Search {
    if !ctxAvailable then Search(Failed(ContextUnavailable), [])
    else if natural.None? then Search(Failed(LoadFailed), [])
    else SearchFrom(file, maxSize, enc, Config(natural.value.0, natural.value.1, InitialQuality), 0)
  }

  /**
   * `resizeImageToFitSize`: rejects when there is no canvas context or the image
   * does not load, and otherwise runs the search from the natural size.
   * `trials` lists the configurations handed to the encoder.
   */
  method ResizeImageToFitSize(file: ImageFile, maxSizeBytes: nat, ctxAvailable: bool,
                              natural: Option<(nat, nat)>, enc: Encoder)
    returns (r: ResizeResult, ghost trials: seq<Config>)
    ensures r == Resize(file, maxSizeBytes, ctxAvailable, natural, enc).result
    ensures trials == Resize(file, maxSizeBytes, ctxAvailable, natural, enc).trials
  {
    if !ctxAvailable {
      return Failed(ContextUnavailable), [];
    }
    if natural.None? {
      return Failed(LoadFailed), [];
    }
    r, trials := AttemptResize(file, maxSizeBytes, natural.value.0, natural.value.1, enc);
  }

  /**
   * The `attemptResize` loop: encodes at the natural size and quality 0.9 and,
   * while the result is too big, moves to the next configuration; gives up when
   * there is none or after 50 encodes.
   */
  method AttemptResize(file: ImageFile, maxSizeBytes: nat, naturalWidth: nat, naturalHeight: nat, enc: Encoder)
    returns (r: ResizeResult, ghost trials: seq<Config>)
    ensures r == SearchFrom(file, maxSizeBytes, enc, Config(naturalWidth, naturalHeight, InitialQuality), 0).result
    ensures trials == SearchFrom(file, maxSizeBytes, enc, Config(naturalWidth, naturalHeight, InitialQuality), 0).trials
  {
    var width: nat, height: nat, quality: nat := naturalWidth, naturalHeight, InitialQuality;
    var attempts: nat := 0;
    trials := [];
    while true
      invariant attempts <= MaxAttempts && |trials| == attempts
      invariant SearchFrom(file, maxSizeBytes, enc, Config(naturalWidth, naturalHeight, InitialQuality), 0)
                == Resume(trials, SearchFrom(file, maxSizeBytes, enc, Config(width, height, quality), attempts))
      decreases MaxAttempts - attempts
    {
      ghost var here := Config(width, height, quality);
      ghost var before := trials;
      attempts := attempts + 1;
      if attempts > MaxAttempts {
        r := Failed(TooManyAttempts);
        assert trials + [] == trials;
        return;
      }
      var blob := enc(width, height, quality);
      trials := trials + [here];
      var decision := HandleBlob(file, maxSizeBytes, width, height, quality, blob);
      match decision
      case Stop(result) =>
        r := result;
        return;
      case Continue(next) =>
        ResumeStep(before, file, maxSizeBytes, enc, here, attempts - 1);
        width, height, quality := next.width, next.height, next.quality;
    }
  }

  /**
   * The `toBlob` callback: succeed when the blob fits; otherwise lower quality by a
   * tenth, or shrink both sides to 85 % and reset quality, or give up.
   */
  method HandleBlob(file: ImageFile, maxSizeBytes: nat, width: nat, height: nat, quality: nat, blob: Option<nat>)
    returns (d: Decision)
    ensures d == Decide(file, maxSizeBytes, Config(width, height, quality), blob)
  {
    if blob.None? {
      return Stop(Failed(EncodeFailed));
    }
    if blob.value <= maxSizeBytes {
      return Stop(Resized(ImageFile(file.name, file.mime, blob.value)));
    }
    if quality > QualityFloor {
      d := Continue(Config(width, height, quality - 1));
    } else if width > MinSide && height > MinSide {
      d := Continue(Config(Shrink(width), Shrink(height), InitialQuality));
    } else {
      d := Stop(Failed(Unachievable(maxSizeBytes, blob.value)));
    }
  }

  /** The search `s` continued after the trials already made. */
  ghost function Resume(done: seq<Config>, s: Search): Search {
    Search(s.result, done + s.trials)
  }

  /** Continuing after an over-budget trial `c` is continuing from the next configuration with `c` done. */
  lemma ResumeStep(done: seq<Config>, file: ImageFile, maxSize: nat, enc: Encoder, c: Config, attempts: nat)
    requires attempts < MaxAttempts && OverBudget(enc, maxSize, c) && NextConfig(c).Some?
    ensures Resume(done, SearchFrom(file, maxSize, enc, c, attempts))
            == Resume(done + [c], SearchFrom(file, maxSize, enc, NextConfig(c).value, attempts + 1))
  {
    var rest := SearchFrom(file, maxSize, enc, NextConfig(c).value, attempts + 1);
    assert done + ([c] + rest.trials) == (done + [c]) + rest.trials;
  }

  // ---------------------------------------------------------------------------
  // Properties of the search

  /**
   * A returned file is within budget and keeps the original name and MIME type;
   * an unachievable budget is reported with the limit and a larger achieved size.
   */
  lemma {:induction false} SearchFromSound(file: ImageFile, maxSize: nat, enc: Encoder, c: Config, attempts: nat)
    requires attempts <= MaxAttempts
    decreases MaxAttempts - attempts
    ensures var r := SearchFrom(file, maxSize, enc, c, attempts).result;
            && (r.Resized? ==> r.file.size <= maxSize && r.file.name == file.name && r.file.mime == file.mime)
            && (r.Failed? ==> r.error != ContextUnavailable && r.error != LoadFailed)
            && (r.Failed? && r.error.Unachievable? ==> r.error.limit == maxSize && r.error.achieved > maxSize)
  {
    if attempts < MaxAttempts && OverBudget(enc, maxSize, c) && NextConfig(c).Some? {
      SearchFromSound(file, maxSize, enc, NextConfig(c).value, attempts + 1);
    }
  }

  /** The same for the whole resize, whose only other failures are the context and decode checks. */
  lemma ResizeSound(file: ImageFile, maxSize: nat, ctxAvailable: bool, natural: Option<(nat, nat)>, enc: Encoder)
    ensures var r := Resize(file, maxSize, ctxAvailable, natural, enc).result;
            && (r.Resized? ==> r.file.size <= maxSize && r.file.name == file.name && r.file.mime == file.mime)
            && (r.Failed? && r.error.Unachievable? ==> r.error.limit == maxSize && r.error.achieved > maxSize)
            && (r == Failed(ContextUnavailable) <==> !ctxAvailable)
            && (r == Failed(LoadFailed) <==> ctxAvailable && natural.None?)
  {
    if ctxAvailable && natural.Some? {
      SearchFromSound(file, maxSize, enc, Config(natural.value.0, natural.value.1, InitialQuality), 0);
    }
  }

  /** Consecutive trials are related by one step of the search, and every trial but the last was over budget. */
  ghost predicate Stepwise(enc: Encoder, maxSize: nat, t: seq<Config>) {
    forall i :: 0 <= i < |t| - 1 ==> OverBudget(enc, maxSize, t[i]) && NextConfig(t[i]) == Some(t[i + 1])
  }

  lemma {:induction false} SearchFromStepwise(file: ImageFile, maxSize: nat, enc: Encoder, c: Config, attempts: nat)
    requires attempts <= MaxAttempts
    decreases MaxAttempts - attempts
    ensures Stepwise(enc, maxSize, SearchFrom(file, maxSize, enc, c, attempts).trials)
  {
    var s := SearchFrom(file, maxSize, enc, c, attempts);
    if attempts < MaxAttempts && |s.trials| > 1 {
      var next := NextConfig(c).value;
      var rest := SearchFrom(file, maxSize, enc, next, attempts + 1);
      SearchFromStepwise(file, maxSize, enc, next, attempts + 1);
      assert s.trials == [c] + rest.trials;
      forall i | 0 <= i < |s.trials| - 1
        ensures OverBudget(enc, maxSize, s.trials[i]) && NextConfig(s.trials[i]) == Some(s.trials[i + 1])
      {
        if i > 0 {
          assert s.trials[i] == rest.trials[i - 1] && s.trials[i + 1] == rest.trials[i];
        }
      }
    }
  }

  /**
   * The trial sequence of a resize: it starts at the natural size with quality 0.9,
   * has at most 50 entries, each entry follows from the one before by a quality
   * step or a shrink, and every entry but the last encoded over budget.
   */
  lemma ResizeTrials(file: ImageFile, maxSize: nat, natural: (nat, nat), enc: Encoder)
    ensures var t := Resize(file, maxSize, true, Some(natural), enc).trials;
            |t| <= MaxAttempts && t != []
            && t[0] == Config(natural.0, natural.1, InitialQuality)
            && Stepwise(enc, maxSize, t)
  {
    SearchFromStepwise(file, maxSize, enc, Config(natural.0, natural.1, InitialQuality), 0);
  }

  /** How each outcome of the search relates to its last trial. */
  lemma {:induction false} SearchFromLastTrial(file: ImageFile, maxSize: nat, enc: Encoder, c: Config, attempts: nat)
    requires attempts < MaxAttempts
    decreases MaxAttempts - attempts
    ensures var s := SearchFrom(file, maxSize, enc, c, attempts);
            var last := s.trials[|s.trials| - 1];
            var out := enc(last.width, last.height, last.quality);
            && (s.result.Resized? ==> out == Some(s.result.file.size))
            && (s.result == Failed(EncodeFailed) ==> out.None?)
            && (s.result.Failed? && s.result.error.Unachievable? ==>
                  out == Some(s.result.error.achieved) && NextConfig(last).None?)
            && (s.result == Failed(TooManyAttempts) ==>
                  |s.trials| == MaxAttempts - attempts && OverBudget(enc, maxSize, last) && NextConfig(last).Some?)
  {
    var s := SearchFrom(file, maxSize, enc, c, attempts);
    var out := enc(c.width, c.height, c.quality);
    if out.Some? && out.value > maxSize && NextConfig(c).Some? {
      var next := NextConfig(c).value;
      var rest := SearchFrom(file, maxSize, enc, next, attempts + 1);
      if attempts + 1 < MaxAttempts {
        SearchFromLastTrial(file, maxSize, enc, next, attempts + 1);
        assert s.trials[|s.trials| - 1] == rest.trials[|rest.trials| - 1];
      } else {
        assert s.trials == [c];
      }
    }
  }

  /** Every encoded quality lies between the floor and 0.9. */
  lemma {:induction false} SearchFromQualityRange(file: ImageFile, maxSize: nat, enc: Encoder, c: Config, attempts: nat)
    requires attempts <= MaxAttempts
    requires QualityFloor <= c.quality <= InitialQuality
    decreases MaxAttempts - attempts
    ensures forall t | t in SearchFrom(file, maxSize, enc, c, attempts).trials :: QualityFloor <= t.quality <= InitialQuality
  {
    var s := SearchFrom(file, maxSize, enc, c, attempts);
    if attempts < MaxAttempts && |s.trials| > 1 {
      SearchFromQualityRange(file, maxSize, enc, NextConfig(c).value, attempts + 1);
    }
  }

  ghost predicate SizesNonIncreasing(t: seq<Config>) {
    forall i, j | 0 <= i <= j < |t| :: t[j].width <= t[i].width && t[j].height <= t[i].height
  }

  /** Width and height never increase from one trial to any later one. */
  lemma {:induction false} SearchFromDimensionsNonIncreasing(file: ImageFile, maxSize: nat, enc: Encoder, c: Config, attempts: nat)
    requires attempts <= MaxAttempts
    decreases MaxAttempts - attempts
    ensures SizesNonIncreasing(SearchFrom(file, maxSize, enc, c, attempts).trials)
  {
    var s := SearchFrom(file, maxSize, enc, c, attempts);
    if attempts < MaxAttempts && |s.trials| > 1 {
      var next := NextConfig(c).value;
      var rest := SearchFrom(file, maxSize, enc, next, attempts + 1);
      SearchFromDimensionsNonIncreasing(file, maxSize, enc, next, attempts + 1);
      assert s.trials == [c] + rest.trials;
      forall i, j | 0 <= i <= j < |s.trials|
        ensures s.trials[j].width <= s.trials[i].width && s.trials[j].height <= s.trials[i].height
      {
        if i > 0 {
          assert s.trials[i] == rest.trials[i - 1] && s.trials[j] == rest.trials[j - 1];
        } else if j > 0 {
          var t := rest.trials;
          assert 0 <= j - 1 < |t| && s.trials[j] == t[j - 1] && t[0] == next;
          assert t[j - 1].width <= t[0].width && t[j - 1].height <= t[0].height;
        }
      }
    }
  }

  /**
   * An image with a side of at most 50 px is never shrunk: every trial keeps
   * the natural size and only quality moves, so there are at most eight trials
   * (0.9 down to 0.2).
   */
  lemma {:induction false} SearchFromSmallImage(file: ImageFile, maxSize: nat, enc: Encoder, c: Config, attempts: nat)
    requires attempts <= MaxAttempts
    requires c.width <= MinSide || c.height <= MinSide
    requires QualityFloor <= c.quality
    decreases MaxAttempts - attempts
    ensures var t := SearchFrom(file, maxSize, enc, c, attempts).trials;
            |t| <= c.quality - QualityFloor + 1
            && forall x | x in t :: x.width == c.width && x.height == c.height
  {
    var s := SearchFrom(file, maxSize, enc, c, attempts);
    if attempts < MaxAttempts && |s.trials| > 1 {
      var next := NextConfig(c).value;
      SearchFromSmallImage(file, maxSize, enc, next, attempts + 1);
    }
  }

  // ---------------------------------------------------------------------------
  // uploadImage

  datatype Bucket = Profile | Event | Media

  /** The `bucket_type` string used as the object-name folder. */
  function BucketType(b: Bucket): string {
    match b
    case Profile => "profile"
    case Event => "event"
    case Media => "media"
  }

  /** The storage bucket an upload goes to. */
  function BucketName(b: Bucket): string {
    match b
    case Profile => "profile-pics"
    case Event => "event-images"
    case Media => "media"
  }

  /** Byte limit per bucket: 200 KiB for profile and event pictures, 2 MiB for media. */
  function SizeLimit(b: Bucket): (n: nat)
    ensures b != Media ==> n == 200 * 1024
    ensures b == Media ==> n == 2 * 1024 * 1024
  {
    match b
    case Profile => 200 * 1024
    case Event => 200 * 1024
    case Media => 2 * 1024 * 1024
  }

  const UploadTypes: seq<string> := ["image/png", "image/jpeg", "image/jpg"]

  /** `name.split('.').pop()`: the text after the last dot, the whole name when there is none. */
  function FileExtension(name: string): (ext: string)
    ensures '.' !in ext
    ensures |ext| <= |name| && ext == name[|name| - |ext|..]
    ensures |ext| < |name| ==> name[|name| - |ext| - 1] == '.'
    ensures '.' !in name ==> ext == name
  {
    if name == [] then []
    else if name[|name| - 1] == '.' then []
    else FileExtension(name[..|name| - 1]) + [name[|name| - 1]]
  }

  /** Appending `"." + ext` to anything makes `ext` the extension, when `ext` has no dot. */
  lemma {:induction false} FileExtensionOfDotted(stem: string, ext: string)
    requires '.' !in ext
    ensures FileExtension(stem + "." + ext) == ext
  {
    if ext != [] {
      var last := ext[|ext| - 1];
      var name := stem + "." + ext;
      assert name[..|name| - 1] == stem + "." + ext[..|ext| - 1];
      FileExtensionOfDotted(stem, ext[..|ext| - 1]);
    }
  }

  /** `file_id || crypto.randomUUID()`: an empty id counts as absent. */
  function NamePrefix(fileId: string, freshId: string): string {
    if fileId != "" then fileId else freshId
  }

  /** The stored object name `bucket_type/prefix.ext`. */
  function ObjectName(b: Bucket, prefix: string, fileName: string): (r: string)
    ensures IsPrefix(BucketType(b) + "/" + prefix + ".", r)
    ensures FileExtension(r) == FileExtension(fileName)
  {
    var r := BucketType(b) + "/" + prefix + "." + FileExtension(fileName);
    FileExtensionOfDotted(BucketType(b) + "/" + prefix, FileExtension(fileName));
    r
  }

  datatype UploadError = UnsupportedType | CouldNotResize(size: nat, limit: nat)

  /** What is handed to storage: bucket, object name and the (possibly re-encoded) file. */
  datatype UploadPlan = UploadPlan(bucket: string, objectName: string, file: ImageFile, resized: bool)

  /**
   * The checks of `uploadImage` up to the storage call. `freshId` stands for
   * `crypto.randomUUID()`; the resize inputs are those of `Resize`.
   */
  function UploadImage(file: ImageFile, bucket: Bucket, fileId: string, freshId: string,
                       ctxAvailable: bool, natural: Option<(nat, nat)>, enc: Encoder)
    : (r: Result<UploadPlan, UploadError>)
    ensures r == Err(UnsupportedType) <==> file.mime !in UploadTypes
    ensures file.mime in UploadTypes && file.size <= SizeLimit(bucket) ==> r.Ok? && !r.value.resized
    ensures file.mime in UploadTypes && file.size > SizeLimit(bucket) ==>
              var res := Resize(file, SizeLimit(bucket), ctxAvailable, natural, enc).result;
              (r.Ok? <==> res.Resized?) && (r.Ok? ==> r.value.file == res.file)
    ensures r.Ok? ==>
              && r.value.file.size <= SizeLimit(bucket)
              && r.value.file.name == file.name && r.value.file.mime == file.mime
              && r.value.resized == (file.size > SizeLimit(bucket))
              && (!r.value.resized ==> r.value.file == file)
              && r.value.bucket == BucketName(bucket)
              && r.value.objectName == ObjectName(bucket, NamePrefix(fileId, freshId), file.name)
    ensures r.Err? && r.error.CouldNotResize? ==>
              file.mime in UploadTypes && file.size > SizeLimit(bucket)
              && r.error == CouldNotResize(file.size, SizeLimit(bucket))
              && Resize(file, SizeLimit(bucket), ctxAvailable, natural, enc).result.Failed?
  {
    if file.mime !in UploadTypes then Err(UnsupportedType)
    else
      var limit := SizeLimit(bucket);
      var name := ObjectName(bucket, NamePrefix(fileId, freshId), file.name);
      if file.size > limit then
        ResizeSound(file, limit, ctxAvailable, natural, enc);
        match Resize(file, limit, ctxAvailable, natural, enc).result
        case Failed(_) => Err(CouldNotResize(file.size, limit))
        case Resized(f) => Ok(UploadPlan(BucketName(bucket), name, f, true))
      else Ok(UploadPlan(BucketName(bucket), name, file, false))
  }
}
