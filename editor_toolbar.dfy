/**
 * The toolbar's image button (components/editor/EditorToolbar.tsx). `handleImageUpload` is
 * split at its `await`: `BeginUpload` validates the chosen file, `FinishUpload` takes the
 * adapter's answer and runs the rest, `finally` included. Alerts are recorded in order;
 * `inputValue` is the hidden file input's value.
 */
module EditorToolbar {
  import opened Wrappers
  import opened Text
  import opened Records
  import opened EditorView

  const NotAnImageAlert := "Please select an image file"
  const UploadFailedAlert := "Failed to upload image. Please make sure Supabase is configured correctly."

  /** The toolbar's test: the type starts with "image/" and the size is within the limit. */
  predicate ToolbarAccepts(f: File) {
    StartsWith(f.mime, "image/") && Fits(f)
  }

  /** Every file the toolbar accepts the drop handler accepts; a bare "image" type only the latter. */
  lemma ToolbarStricterThanDrop(f: File)
    ensures ToolbarAccepts(f) ==> Droppable(f)
    ensures Droppable(File("image", 0)) && !ToolbarAccepts(File("image", 0))
  {
    if ToolbarAccepts(f) {
      assert "image" <= "image/" <= f.mime;
    }
    assert !("image/" <= "image");
  }

  class Toolbar {
    var uploading: bool
    var inputValue: string
    /** The image URLs inserted into the document, in order. */
    var inserted: seq<string>
    var alerts: seq<string>

    constructor ()
      ensures !uploading && inputValue == "" && inserted == [] && alerts == []
    {
      uploading, inputValue, inserted, alerts := false, "", [], [];
    }

    /**
     * A file is chosen (`chosen` is the input's new value). Nothing happens without a file;
     * a non-image or a file over 5 MiB raises its alert and stops, leaving the input's value
     * set; an accepted file starts the upload.
     */
    method BeginUpload(file: Option<File>, chosen: string) returns (accepted: bool)
      modifies this
      ensures inputValue == chosen && inserted == old(inserted)
      ensures accepted <==> file.Some? && ToolbarAccepts(file.value)
      ensures file.None? ==> alerts == old(alerts) && uploading == old(uploading)
      ensures file.Some? && !StartsWith(file.value.mime, "image/") ==>
        alerts == old(alerts) + [NotAnImageAlert] && uploading == old(uploading)
      ensures file.Some? && StartsWith(file.value.mime, "image/") && !Fits(file.value) ==>
        alerts == old(alerts) + [TooLargeAlert] && uploading == old(uploading)
      ensures accepted ==> uploading && alerts == old(alerts)
    {
      inputValue := chosen;
      if file.None? {
        return false;
      }
      if !StartsWith(file.value.mime, "image/") {
        alerts := alerts + [NotAnImageAlert];
        return false;
      }
      if file.value.size > MaxImageBytes {
        alerts := alerts + [TooLargeAlert];
        return false;
      }
      uploading := true;
      return true;
    }

    /**
     * The upload answers: the image is inserted only on success, a failure raises an alert,
     * and in every case the button stops uploading and the input is reset.
     */
    method FinishUpload(answer: Result<string, StorageError>)
      modifies this
      ensures !uploading && inputValue == ""
      ensures answer.Ok? ==> inserted == old(inserted) + [answer.value] && alerts == old(alerts)
      ensures answer.Err? ==> inserted == old(inserted) && alerts == old(alerts) + [UploadFailedAlert]
    {
      if answer.Ok? {
        inserted := inserted + [answer.value];
      } else {
        alerts := alerts + [UploadFailedAlert];
      }
      uploading := false;
      inputValue := "";
    }
  }
}
