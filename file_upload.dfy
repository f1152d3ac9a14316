/** The validation half of the upload widget (components/ui/FileUpload.tsx):
    which picked files are accepted, how a batch is refused, and the list
    of in-flight uploads. */
module FileUpload {

  import opened Wrappers
  import opened Seqs
  import opened Text
  import opened Items

  /** The widget's settings: accepted types, the size limit in bytes (0
      switches it off) and the largest batch. */
  datatype UploadConfig = UploadConfig(acceptedTypes: seq<string>, maxFileSize: nat, maxFiles: nat)

  /** The defaults: PDF by extension or MIME type, 10 MiB, five files. */
  function DefaultConfig(): UploadConfig {
    UploadConfig([".pdf", "application/pdf"], 10 * 1024 * 1024, 5)
  }

  datatype UploadStatus = Uploading | Completed | Failed

  datatype UploadProgress = UploadProgress(file: LocalFile, progress: nat, status: UploadStatus, error: Option<string>)

  /** What `handleFiles` ends with: a refusal shown as an error toast, or
      the batch it starts uploading. */
  datatype BatchOutcome =
    | TooManyFiles(detail: string)
    | ValidationFailed(detail: string)
    | NothingToUpload
    | Started(files: seq<LocalFile>)

  /** One entry of `acceptedTypes`: an extension (starting with `.`) matches
      the lower-cased name's suffix, anything else the exact MIME type. */
  predicate TypeMatches(entry: string, f: LocalFile) {
    if StartsWith(entry, ".") then EndsWith(Lower(f.name), Lower(entry)) else f.mimeType == entry
  }

  /** `acceptedTypes.some(...)`, entry by entry. */
  function AnyMatches(types: seq<string>, f: LocalFile): (r: bool)
    ensures r <==> exists k :: 0 <= k < |types| && TypeMatches(types[k], f)
  {
    if types == [] then false
    else if TypeMatches(types[0], f) then true
    else
      var r := AnyMatches(types[1..], f);
      assert forall k :: 1 <= k < |types| ==> types[k] == types[1..][k - 1];
      r
  }

  predicate SizeAccepted(cfg: UploadConfig, f: LocalFile) {
    cfg.maxFileSize == 0 || f.size <= cfg.maxFileSize
  }

  predicate TypeAccepted(cfg: UploadConfig, f: LocalFile) {
    cfg.acceptedTypes == [] || exists t :: t in cfg.acceptedTypes && TypeMatches(t, f)
  }

  /** `validateFile(file)`: the size check first, then the type check.
      `sizeText` is the limit as `formatFileSize` renders it. */
  function ValidateFile(cfg: UploadConfig, sizeText: string, f: LocalFile): (r: Option<string>)
    ensures r.None? <==> SizeAccepted(cfg, f) && TypeAccepted(cfg, f)
    ensures !SizeAccepted(cfg, f) ==> r == Some("File size must be less than " + sizeText)
    ensures SizeAccepted(cfg, f) && !TypeAccepted(cfg, f) ==>
      r == Some("File type not supported. Accepted types: " + Join(cfg.acceptedTypes, ", "))
  {
    if cfg.maxFileSize != 0 && f.size > cfg.maxFileSize then Some("File size must be less than " + sizeText)
    else if |cfg.acceptedTypes| > 0 && !AnyMatches(cfg.acceptedTypes, f) then
      Some("File type not supported. Accepted types: " + Join(cfg.acceptedTypes, ", "))
    else
      assert |cfg.acceptedTypes| > 0 ==> cfg.acceptedTypes[0] in cfg.acceptedTypes;
      None
  }

  /** With the defaults, a file is accepted exactly when it is at most
      10 MiB and its name ends in `.pdf` in any case or its type is
      `application/pdf`. */
  lemma DefaultAcceptance(sizeText: string, f: LocalFile)
    ensures ValidateFile(DefaultConfig(), sizeText, f).None? <==>
      f.size <= 10485760 && (EndsWith(Lower(f.name), ".pdf") || f.mimeType == "application/pdf")
  {
    var types := DefaultConfig().acceptedTypes;
    assert StartsWith(types[0], ".") && Lower(types[0]) == ".pdf";
    assert types[1][..1] == "a";
    assert forall t :: t in types <==> t == types[0] || t == types[1];
  }

  /** The files `validateFile` accepts, as a filter. */
  function Passes(cfg: UploadConfig, sizeText: string): LocalFile -> bool {
    f => ValidateFile(cfg, sizeText, f).None?
  }

  /** The files `validateFile` refuses, as a filter. */
  function Fails(cfg: UploadConfig, sizeText: string): LocalFile -> bool {
    f => ValidateFile(cfg, sizeText, f).Some?
  }

  /** The message line of each refused file, `${file.name}: ${error}`, in input order. */
  function BatchErrors(cfg: UploadConfig, sizeText: string, files: seq<LocalFile>): (r: seq<string>)
    ensures |r| <= |files|
    ensures r == [] <==> forall k :: 0 <= k < |files| ==> ValidateFile(cfg, sizeText, files[k]).None?
    decreases |files|
  {
    if files == [] then []
    else
      var init := files[..|files| - 1];
      var f := files[|files| - 1];
      var e := ValidateFile(cfg, sizeText, f);
      var r := BatchErrors(cfg, sizeText, init) + (if e.Some? then [f.name + ": " + e.value] else []);
      assert forall k :: 0 <= k < |init| ==> init[k] == files[k];
      r
  }

  /** The error lines are one per refused file, in the order of the refused
      files in the batch, each naming the file and its `validateFile` error. */
  lemma {:induction false} BatchErrorsPerFile(cfg: UploadConfig, sizeText: string, files: seq<LocalFile>)
    ensures var r, refused := BatchErrors(cfg, sizeText, files), Filter(files, Fails(cfg, sizeText));
      |r| == |refused| &&
      forall i :: 0 <= i < |r| ==>
        ValidateFile(cfg, sizeText, refused[i]).Some? &&
        r[i] == refused[i].name + ": " + ValidateFile(cfg, sizeText, refused[i]).value
    decreases |files|
  {
    if files != [] {
      var init := files[..|files| - 1];
      var f := files[|files| - 1];
      assert files == init + [f];
      BatchErrorsPerFile(cfg, sizeText, init);
      FilterAppend(init, [f], Fails(cfg, sizeText));
      FilterOne(f, Fails(cfg, sizeText));
      var refused0 := Filter(init, Fails(cfg, sizeText));
      forall x | x in refused0 ensures ValidateFile(cfg, sizeText, x).Some? {
        assert Fails(cfg, sizeText)(x);
      }
    }
  }

  /** The files that pass `validateFile`, in input order. */
  function BatchValid(cfg: UploadConfig, sizeText: string, files: seq<LocalFile>): (r: seq<LocalFile>)
    ensures |r| <= |files|
    decreases |files|
  {
    if files == [] then []
    else
      var f := files[|files| - 1];
      BatchValid(cfg, sizeText, files[..|files| - 1]) +
        (if ValidateFile(cfg, sizeText, f).None? then [f] else [])
  }

  /** The kept files are the batch filtered by `validateFile`: each accepted
      file as often as in the batch, in order, and nothing else. */
  lemma {:induction false} BatchValidFilter(cfg: UploadConfig, sizeText: string, files: seq<LocalFile>)
    ensures BatchValid(cfg, sizeText, files) == Filter(files, Passes(cfg, sizeText))
    ensures forall f :: f in BatchValid(cfg, sizeText, files) <==> f in files && ValidateFile(cfg, sizeText, f).None?
    ensures forall f :: multiset(BatchValid(cfg, sizeText, files))[f] ==
                       (if ValidateFile(cfg, sizeText, f).None? then multiset(files)[f] else 0)
    decreases |files|
  {
    if files != [] {
      var init := files[..|files| - 1];
      var f := files[|files| - 1];
      assert files == init + [f];
      BatchValidFilter(cfg, sizeText, init);
      FilterAppend(init, [f], Passes(cfg, sizeText));
      FilterOne(f, Passes(cfg, sizeText));
    }
  }

  /** Every file is refused or kept, never both. */
  lemma {:induction false} BatchSplits(cfg: UploadConfig, sizeText: string, files: seq<LocalFile>)
    ensures |BatchErrors(cfg, sizeText, files)| + |BatchValid(cfg, sizeText, files)| == |files|
    decreases |files|
  {
    if files != [] {
      BatchSplits(cfg, sizeText, files[..|files| - 1]);
    }
  }

  /** A batch with no refusals keeps every file, in order. */
  lemma {:induction false} NoErrorsKeepsAll(cfg: UploadConfig, sizeText: string, files: seq<LocalFile>)
    requires BatchErrors(cfg, sizeText, files) == []
    ensures BatchValid(cfg, sizeText, files) == files
    decreases |files|
  {
    if files != [] {
      var init := files[..|files| - 1];
      assert forall k :: 0 <= k < |init| ==> init[k] == files[k];
      assert BatchErrors(cfg, sizeText, init) == [] by {
        BatchSplits(cfg, sizeText, init);
      }
      NoErrorsKeepsAll(cfg, sizeText, init);
      assert init + [files[|files| - 1]] == files;
    }
  }

  /** The fresh progress rows for a started batch. */
  function InitialUploads(files: seq<LocalFile>): (r: seq<UploadProgress>)
    ensures |r| == |files|
    ensures forall k :: 0 <= k < |r| ==>
      r[k].file == files[k] && r[k].progress == 0 && r[k].status == Uploading && r[k].error.None?
  {
    seq(|files|, k requires 0 <= k < |files| => UploadProgress(files[k], 0, Uploading, None))
  }

  class FileUploader {
    const config: UploadConfig
    /** The limit rendered by `formatFileSize`. */
    const sizeText: string
    var uploads: seq<UploadProgress>

    constructor(config: UploadConfig, sizeText: string)
      ensures this.config == config && this.sizeText == sizeText && uploads == []
    {
      this.config := config;
      this.sizeText := sizeText;
      uploads := [];
    }

    /** `handleFiles(files)` up to the point where uploading starts: an
        over-long batch is refused outright; otherwise every file is
        validated, and any refusal cancels the whole batch. */
    method HandleFiles(files: seq<LocalFile>) returns (outcome: BatchOutcome)
      modifies this`uploads
      ensures |files| > config.maxFiles ==>
        outcome == TooManyFiles("Maximum " + Decimal(config.maxFiles) + " files allowed") && uploads == old(uploads)
      ensures |files| <= config.maxFiles && BatchErrors(config, sizeText, files) != [] ==>
        outcome == ValidationFailed(Join(BatchErrors(config, sizeText, files), "\n")) && uploads == old(uploads)
      ensures files == [] ==> outcome == NothingToUpload && uploads == old(uploads)
      ensures |files| <= config.maxFiles && files != [] && BatchErrors(config, sizeText, files) == [] ==>
        outcome == Started(files) && uploads == InitialUploads(files)
    {
      if |files| > config.maxFiles {
        return TooManyFiles("Maximum " + Decimal(config.maxFiles) + " files allowed");
      }
      var validationErrors: seq<string> := [];
      var validFiles: seq<LocalFile> := [];
      var i := 0;
      while i < |files|
        invariant i <= |files|
        invariant validationErrors == BatchErrors(config, sizeText, files[..i])
        invariant validFiles == BatchValid(config, sizeText, files[..i])
      {
        assert files[..i + 1][..i] == files[..i];
        var e := ValidateFile(config, sizeText, files[i]);
        if e.Some? {
          validationErrors := validationErrors + [files[i].name + ": " + e.value];
        } else {
          validFiles := validFiles + [files[i]];
        }
        i := i + 1;
      }
      assert files[..i] == files;
      if validationErrors != [] {
        return ValidationFailed(Join(validationErrors, "\n"));
      }
      NoErrorsKeepsAll(config, sizeText, files);
      if validFiles == [] {
        return NothingToUpload;
      }
      uploads := InitialUploads(validFiles);
      outcome := Started(validFiles);
    }

    /** `removeUpload(index)`: drops the row at `index`; any other index
        leaves the list as it is. */
    method RemoveUpload(index: int)
      modifies this`uploads
      ensures uploads == WithoutIndex(old(uploads), index)
      ensures 0 <= index < |old(uploads)| ==>
        |uploads| == |old(uploads)| - 1 && multiset(uploads) + multiset{old(uploads)[index]} == multiset(old(uploads))
    {
      var before := uploads;
      uploads := WithoutIndex(uploads, index);
      if 0 <= index < |before| {
        assert before == before[..index] + [before[index]] + before[index + 1..];
      }
    }
  }
}
