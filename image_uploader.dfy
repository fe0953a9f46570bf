/** The image picker used by the record editor
    (src/components/admin/ImageUploader.tsx): a URL field, a file input
    whose type and size are checked, and a preview that shows only URLs of
    an image kind. Reading the file into a data URL is a browser call: its
    completion is modelled as the URL it yields being handed to
    `HandleUrlInput`, which does what the reader's `onload` does. A render
    shows the state at the end of a handler, since React applies the state
    updates of one handler together. */
module ImageUploader {
  import opened Wrappers
  import opened Text

  datatype FileInfo = FileInfo(mimeType: string, size: int)

  /** 5 MiB, the largest file accepted. */
  const MaxFileSize: int := 5 * 1024 * 1024

  /** The alert of `handleFileSelect`, if any: the type is checked before
      the size, and a file of exactly 5 MiB passes. */
  function CheckFile(f: FileInfo): (alert: Option<string>)
    ensures alert.None? <==> StartsWith(f.mimeType, "image/") && f.size <= MaxFileSize
    ensures !StartsWith(f.mimeType, "image/") ==> alert == Some("Please select an image file")
    ensures StartsWith(f.mimeType, "image/") && f.size > MaxFileSize ==> alert == Some("File size must be less than 5MB")
  {
    if !StartsWith(f.mimeType, "image/") then Some("Please select an image file")
    else if f.size > MaxFileSize then Some("File size must be less than 5MB")
    else None
  }

  lemma SizeBoundary()
    ensures CheckFile(FileInfo("image/png", 5242880)).None?
    ensures CheckFile(FileInfo("image/png", 5242881)) == Some("File size must be less than 5MB")
    ensures CheckFile(FileInfo("text/plain", 5242881)) == Some("Please select an image file")
  {
    assert StartsWith("image/png", "image/");
    assert !StartsWith("text/plain", "image/") by {
      assert "text/plain"[0] != "image/"[0];
    }
  }

  datatype PreviewKind = NoPreview | ImagePreview(src: string) | InvalidUrl

  /** The preview block: nothing for an empty URL, the image for a URL
      opening "data:" or "http", and "Invalid image URL" otherwise. */
  function PreviewOf(url: string): (k: PreviewKind)
    ensures k.NoPreview? <==> url == ""
    ensures k.ImagePreview? <==> StartsWith(url, "data:") || StartsWith(url, "http")
    ensures k.ImagePreview? ==> k.src == url
  {
    if url == "" then NoPreview
    else if StartsWith(url, "data:") || StartsWith(url, "http") then ImagePreview(url)
    else InvalidUrl
  }

  /** A site-relative path, the record editor's default image among them,
      is reported as an invalid URL. */
  lemma RelativePathInvalid(path: string)
    requires path != [] && path[0] == '/'
    ensures PreviewOf(path) == InvalidUrl
  {
    assert !StartsWith(path, "data:") && !StartsWith(path, "http");
  }

  lemma PlaceholderInvalid()
    ensures PreviewOf("/placeholder.svg") == InvalidUrl
  {
    RelativePathInvalid("/placeholder.svg");
  }

  /** The component's state and what it has reported to its parent. */
  class Uploader {
    var previewUrl: string
    var isUploading: bool
    /** Every URL handed to `onImageSelect`, oldest first. */
    var reported: seq<string>
    /** The hidden file input's value; `None` when it is not mounted. */
    var fileInput: Option<string>

    /** The initial state: the current image, or '' when there is none. */
    constructor(currentImage: Option<string>, mounted: bool)
      ensures previewUrl == (if currentImage.Some? then currentImage.value else "")
      ensures !isUploading && reported == []
      ensures fileInput == (if mounted then Some("") else None)
    {
      previewUrl := if currentImage.Some? then currentImage.value else "";
      isUploading := false;
      reported := [];
      fileInput := if mounted then Some("") else None;
    }

    function Preview(): PreviewKind
      reads this
    {
      PreviewOf(previewUrl)
    }

    /** `handleUrlInput`: the field shows the URL and the parent receives
      it. */
    method HandleUrlInput(url: string)
      modifies this
      ensures previewUrl == url && reported == old(reported) + [url]
      ensures isUploading == old(isUploading) && fileInput == old(fileInput)
    {
      previewUrl := url;
      reported := reported + [url];
    }

    /** `clearImage`: the preview and the parent's image become '', and a
      mounted file input is emptied. */
    method ClearImage()
      modifies this
      ensures previewUrl == "" && reported == old(reported) + [""]
      ensures fileInput == (if old(fileInput).Some? then Some("") else None)
      ensures isUploading == old(isUploading)
    {
      previewUrl := "";
      reported := reported + [""];
      if fileInput.Some? {
        fileInput := Some("");
      }
    }

    /** `handleFileSelect`: with no file nothing happens; a rejected file
      raises its alert; an accepted one starts the reader (`started`). The
      handler raises the uploading flag and lowers it again before it
      returns, so a render never sees it raised. */
    method HandleFileSelect(file: Option<FileInfo>) returns (alert: Option<string>, started: bool)
      modifies this
      ensures file.None? ==> alert.None? && !started
      ensures file.Some? ==> alert == CheckFile(file.value) && (started <==> alert.None?)
      ensures previewUrl == old(previewUrl) && reported == old(reported) && fileInput == old(fileInput)
      ensures started ==> !isUploading
      ensures !started ==> isUploading == old(isUploading)
    {
      alert, started := None, false;
      if file.None? {
        return;
      }
      alert := CheckFile(file.value);
      if alert.Some? {
        return;
      }
      isUploading := true;
      started := true;
      isUploading := false;
    }

    /** The corrected handler: the flag stays raised while the reader
      works. */
    method StartFileSelect(file: Option<FileInfo>) returns (alert: Option<string>, started: bool)
      modifies this
      ensures file.None? ==> alert.None? && !started
      ensures file.Some? ==> alert == CheckFile(file.value) && (started <==> alert.None?)
      ensures previewUrl == old(previewUrl) && reported == old(reported) && fileInput == old(fileInput)
      ensures started ==> isUploading
      ensures !started ==> isUploading == old(isUploading)
    {
      alert, started := None, false;
      if file.None? {
        return;
      }
      alert := CheckFile(file.value);
      if alert.Some? {
        return;
      }
      isUploading := true;
      started := true;
    }

    /** The corrected reader completion: the data URL is shown and
      reported, and the flag is lowered. */
    method FinishFileSelect(dataUrl: string)
      modifies this
      ensures previewUrl == dataUrl && reported == old(reported) + [dataUrl]
      ensures !isUploading && fileInput == old(fileInput)
    {
      HandleUrlInput(dataUrl);
      isUploading := false;
    }
  }

  /** As written, an accepted file never shows "Uploading...": the render
      after the handler and the render after the reader completes both see
      the flag lowered. */
  method SpinnerNeverShown(dataUrl: string) returns (shownAfterSelect: bool, shownAfterLoad: bool)
    ensures !shownAfterSelect && !shownAfterLoad
  {
    var u := new Uploader(None, true);
    var alert, started := u.HandleFileSelect(Some(FileInfo("image/png", 1024)));
    assert StartsWith("image/png", "image/");
    assert started;
    shownAfterSelect := u.isUploading;
    u.HandleUrlInput(dataUrl);
    shownAfterLoad := u.isUploading;
  }

  /** With the corrected handler the spinner shows from the selection until
      the reader completes, and then the data URL is previewed. */
  method SpinnerShownWhileReading(dataUrl: string) returns (shownAfterSelect: bool, shownAfterLoad: bool, preview: PreviewKind)
    requires StartsWith(dataUrl, "data:")
    ensures shownAfterSelect && !shownAfterLoad && preview == ImagePreview(dataUrl)
  {
    var u := new Uploader(None, true);
    var alert, started := u.StartFileSelect(Some(FileInfo("image/png", 1024)));
    assert StartsWith("image/png", "image/");
    assert started;
    shownAfterSelect := u.isUploading;
    u.FinishFileSelect(dataUrl);
    shownAfterLoad := u.isUploading;
    preview := u.Preview();
  }
}
