/**
 * The rich-text editor's file handling (components/editor/Editor.tsx): which dropped file or
 * pasted clipboard item is uploaded, when the browser's default is prevented, and when the
 * `content` prop is pushed into the editor. The upload itself and the insertion of the image
 * once it resolves are asynchronous and left to the adapter; the handlers report which file
 * they hand to it.
 */
module EditorView {
  import opened Wrappers
  import opened Text

  /** The size limit of an image: 5 MiB, the limit itself allowed. */
  const MaxImageBytes := 5 * 1024 * 1024

  const TooLargeAlert := "Image size must be less than 5MB"

  /** A `File`: its MIME type and its size in bytes. */
  datatype File = File(mime: string, size: nat)

  /** A `DataTransferItem`: its type, and what `getAsFile()` gives. */
  datatype ClipItem = ClipItem(mime: string, file: Option<File>)

  /** `type.indexOf('image') === 0`. */
  predicate IsImageType(mime: string) {
    StartsWith(mime, "image")
  }

  predicate Fits(f: File) {
    f.size <= MaxImageBytes
  }

  /** A dropped file the drop handler uploads. */
  predicate Droppable(f: File) {
    IsImageType(f.mime) && Fits(f)
  }

  /** The number of oversized images in fs, each of which raises an alert when scanned. */
  function OversizedImages(fs: seq<File>): nat {
    if fs == [] then 0
    else OversizedImages(fs[..|fs| - 1]) + (if IsImageType(fs[|fs| - 1].mime) && !Fits(fs[|fs| - 1]) then 1 else 0)
  }

  /** The first droppable file of fs at or after index i. */
  function FirstDroppable(fs: seq<File>, i: nat): (k: Option<nat>)
    ensures k.Some? ==> i <= k.value < |fs| && Droppable(fs[k.value])
    ensures k.Some? ==> forall j :: i <= j < k.value ==> !Droppable(fs[j])
    ensures k.None? ==> forall j :: i <= j < |fs| ==> !Droppable(fs[j])
    decreases |fs| - i
  {
    if i >= |fs| then None
    else if Droppable(fs[i]) then Some(i)
    else FirstDroppable(fs, i + 1)
  }

  /**
   * `handleDrop`: internal moves and drops without files are left to the editor. Otherwise
   * the files are scanned in order; the first image within the limit is uploaded and the
   * drop handled, oversized images are skipped after an alert, and when no image qualifies
   * the drop is left to the editor, although any image seen has prevented the default.
   */
  method HandleDrop(moved: bool, files: Option<seq<File>>)
    returns (handled: bool, upload: Option<nat>, prevented: bool, alerts: nat)
    ensures moved || files.None? || files.value == [] ==>
      !handled && upload.None? && !prevented && alerts == 0
    ensures handled <==> upload.Some?
    ensures !moved && files.Some? ==> upload == FirstDroppable(files.value, 0)
    ensures upload.Some? ==>
      prevented && alerts == OversizedImages(files.value[..upload.value])
    ensures !moved && files.Some? && upload.None? ==>
      && (prevented <==> exists j :: 0 <= j < |files.value| && IsImageType(files.value[j].mime))
      && alerts == OversizedImages(files.value)
  {
    if moved || files.None? || |files.value| == 0 {
      return false, None, false, 0;
    }
    var fs := files.value;
    prevented, alerts := false, 0;
    var i := 0;
    while i < |fs|
      invariant 0 <= i <= |fs|
      invariant FirstDroppable(fs, 0) == FirstDroppable(fs, i)
      invariant prevented <==> exists j :: 0 <= j < i && IsImageType(fs[j].mime)
      invariant alerts == OversizedImages(fs[..i])
    {
      assert fs[..i + 1][..i] == fs[..i];
      if IsImageType(fs[i].mime) {
        prevented := true;
        if fs[i].size > MaxImageBytes {
          alerts := alerts + 1;
          i := i + 1;
          continue;
        }
        return true, Some(i), prevented, alerts;
      }
      i := i + 1;
    }
    assert fs[..|fs|] == fs;
    return false, None, prevented, alerts;
  }

  /** A clipboard item the paste handler acts on: an image whose file can be read. */
  predicate Usable(item: ClipItem) {
    IsImageType(item.mime) && item.file.Some?
  }

  /** The first usable item of items at or after index i. */
  function FirstUsable(items: seq<ClipItem>, i: nat): (k: Option<nat>)
    ensures k.Some? ==> i <= k.value < |items| && Usable(items[k.value])
    ensures k.Some? ==> forall j :: i <= j < k.value ==> !Usable(items[j])
    ensures k.None? ==> forall j :: i <= j < |items| ==> !Usable(items[j])
    decreases |items| - i
  {
    if i >= |items| then None
    else if Usable(items[i]) then Some(i)
    else FirstUsable(items, i + 1)
  }

  /**
   * `handlePaste`: without clipboard items, or without a usable image among them, the paste
   * is left to the editor (image items whose file cannot be read are skipped, but prevent
   * the default). The first usable image decides: within the limit it is uploaded, above it
   * an alert is raised and nothing is uploaded; either way the paste is handled.
   */
  method HandlePaste(items: Option<seq<ClipItem>>)
    returns (handled: bool, at: Option<nat>, upload: Option<File>, prevented: bool, alerts: nat)
    ensures items.None? ==> !handled && at.None? && upload.None? && !prevented && alerts == 0
    ensures handled <==> at.Some?
    ensures items.Some? ==> at == FirstUsable(items.value, 0)
    ensures at.Some? ==>
      && prevented
      && var f := items.value[at.value].file.value;
        (Fits(f) ==> upload == Some(f) && alerts == 0) && (!Fits(f) ==> upload.None? && alerts == 1)
    ensures items.Some? && at.None? ==>
      && (prevented <==> exists j :: 0 <= j < |items.value| && IsImageType(items.value[j].mime))
      && upload.None? && alerts == 0
  {
    if items.None? {
      return false, None, None, false, 0;
    }
    var its := items.value;
    prevented := false;
    var i := 0;
    while i < |its|
      invariant 0 <= i <= |its|
      invariant FirstUsable(its, 0) == FirstUsable(its, i)
      invariant prevented <==> exists j :: 0 <= j < i && IsImageType(its[j].mime)
    {
      if IsImageType(its[i].mime) {
        prevented := true;
        if its[i].file.None? {
          i := i + 1;
          continue;
        }
        var f := its[i].file.value;
        if f.size > MaxImageBytes {
          return true, Some(i), None, prevented, 1;
        }
        return true, Some(i), Some(f), prevented, 0;
      }
      i := i + 1;
    }
    return false, None, None, prevented, 0;
  }

  /**
   * The two handlers treat an oversized image differently: a drop of an oversized image
   * followed by one that fits uploads the second, a paste of the same two stops at the
   * first, which it does not upload.
   */
  lemma OversizedImageDiffers(big: File, small: File)
    requires IsImageType(big.mime) && !Fits(big) && Droppable(small)
    ensures FirstDroppable([big, small], 0) == Some(1)
    ensures FirstUsable([ClipItem(big.mime, Some(big)), ClipItem(small.mime, Some(small))], 0) == Some(0)
  {
  }

  /**
   * The content-sync effect: the `content` prop is pushed into the editor only when it
   * differs from the editor's HTML, so once the editor shows it the effect does nothing.
   */
  function ContentToPush(content: string, editorHtml: string): (push: Option<string>)
    ensures push.Some? <==> content != editorHtml
    ensures push.Some? ==> push.value == content
  {
    if content != editorHtml then Some(content) else None
  }

  /**
   * The effect settles: once the editor shows the content (pushed or already there), the
   * next run pushes nothing, and a push never repeats the editor's own HTML.
   */
  lemma ContentSyncSettles(content: string, editorHtml: string)
    ensures var push := ContentToPush(content, editorHtml);
      var shown := if push.Some? then push.value else editorHtml;
      shown == content && ContentToPush(content, shown).None?
    ensures ContentToPush(content, editorHtml) != Some(editorHtml)
  {
  }
}
