/**
 * admin/photos.js, the photo page of one location: files dropped on the
 * upload area are filtered to images and uploaded in one multipart POST;
 * the edit dialog for a photo's caption is tied to `editingPhotoId`.
 */
module PhotosPage {
  import opened Wrappers
  import opened Text
  import opened AdminPage

  /** A dropped file: its name and its MIME type (`File.type`). */
  datatype DroppedFile = DroppedFile(name: string, mimeType: string)

  predicate IsImage(f: DroppedFile): (b: bool)
    ensures b <==> |f.mimeType| >= 6 && forall i :: 0 <= i < 6 ==> f.mimeType[i] == "image/"[i]
  {
    StartsWith(f.mimeType, "image/")
  }

  /** `[...files].filter(f => f.type.startsWith('image/'))`. */
  function ImagesOnly(files: seq<DroppedFile>): (r: seq<DroppedFile>)
    ensures |r| <= |files|
    ensures forall i :: 0 <= i < |r| ==> IsImage(r[i]) && r[i] in files
    ensures forall i :: 0 <= i < |files| && IsImage(files[i]) ==> files[i] in r
  {
    if files == [] then []
    else
      var rest := ImagesOnly(files[1..]);
      assert forall i :: 1 <= i < |files| ==> files[i] == files[1..][i - 1];
      if IsImage(files[0]) then [files[0]] + rest else rest
  }

  /** Every image is kept as often as it was dropped, and nothing else is kept. */
  lemma {:induction false} ImagesOnlyCounts(files: seq<DroppedFile>)
    ensures forall f :: multiset(ImagesOnly(files))[f] == if IsImage(f) then multiset(files)[f] else 0
  {
    if files != [] {
      var rest := ImagesOnly(files[1..]);
      ImagesOnlyCounts(files[1..]);
      assert files == [files[0]] + files[1..];
      assert multiset(files) == multiset{files[0]} + multiset(files[1..]);
      if IsImage(files[0]) {
        assert multiset([files[0]] + rest) == multiset{files[0]} + multiset(rest);
      }
    }
  }

  lemma {:induction false} ImagesOnlyAppend(a: seq<DroppedFile>, b: seq<DroppedFile>)
    ensures ImagesOnly(a + b) == ImagesOnly(a) + ImagesOnly(b)
  {
    if a == [] {
      assert a + b == b;
    } else {
      assert (a + b)[1..] == a[1..] + b;
      ImagesOnlyAppend(a[1..], b);
    }
  }

  /**
   * One file is kept exactly when it is an image. With ImagesOnlyAppend this
   * pins the filter down: the images of the drop, in their order.
   */
  lemma ImagesOnlySingle(f: DroppedFile)
    ensures ImagesOnly([f]) == if IsImage(f) then [f] else []
  {
    assert [f][1..] == [];
  }

  /** Filtering is idempotent: a second filter keeps every image the first kept. */
  lemma {:induction false} ImagesOnlyIdempotent(files: seq<DroppedFile>)
    ensures ImagesOnly(ImagesOnly(files)) == ImagesOnly(files)
  {
    if files != [] {
      ImagesOnlyIdempotent(files[1..]);
      var rest := ImagesOnly(files[1..]);
      if IsImage(files[0]) {
        ImagesOnlyAppend([files[0]], rest);
        assert ImagesOnly([files[0]]) == [files[0]];
      }
    }
  }

  /** `formData.append('photos', file)` for every file, in order. */
  method UploadForm(files: seq<string>) returns (form: seq<FormPart>)
    ensures |form| == |files|
    ensures forall i :: 0 <= i < |files| ==> form[i] == FilePart("photos", Picked(files[i]), None)
  {
    form := [];
    for i := 0 to |files|
      invariant |form| == i
      invariant forall j :: 0 <= j < i ==> form[j] == FilePart("photos", Picked(files[j]), None)
    {
      form := form + [FilePart("photos", Picked(files[i]), None)];
    }
  }

  function Names(files: seq<DroppedFile>): (names: seq<string>)
    ensures |names| == |files|
    ensures forall i :: 0 <= i < |files| ==> names[i] == files[i].name
  {
    if files == [] then [] else [files[0].name] + Names(files[1..])
  }

  /**
   * The drop handler: the images among the dropped files, uploaded to the
   * page's location when there is at least one (`None`: no request).
   */
  method Drop(locationId: string, files: seq<DroppedFile>) returns (sent: Option<Request>)
    ensures sent.None? <==> forall i :: 0 <= i < |files| ==> !IsImage(files[i])
    ensures sent.Some? ==> sent.value.verb == "POST" && sent.value.path == "/locations/" + locationId + "/photos"
    ensures sent.Some? ==>
      |sent.value.form| == |ImagesOnly(files)| &&
      forall i :: 0 <= i < |sent.value.form| ==>
        IsImage(ImagesOnly(files)[i]) && sent.value.form[i] == FilePart("photos", Picked(ImagesOnly(files)[i].name), None)
  {
    var images := ImagesOnly(files);
    if |images| == 0 {
      return None;
    }
    var form := UploadForm(Names(images));
    sent := Some(Request("POST", "/locations/" + locationId + "/photos", form));
  }

  /** The caption update the save button sends: `PUT /photos/:id` with the trimmed texts. */
  datatype CaptionUpdate = CaptionUpdate(photoId: int, title: string, desc: string)

  /** What the save button sends for the dialog's state: nothing unless a photo is being edited. */
  function CaptionOf(editing: Option<int>, titleInput: string, descInput: string): (r: Option<CaptionUpdate>)
    ensures r.Some? <==> Editing(editing)
    ensures r.Some? ==> r.value.photoId == editing.value && r.value.photoId != 0
    ensures r.Some? ==> r.value.title == Trim(titleInput) && r.value.desc == Trim(descInput)
  {
    if Editing(editing) then Some(CaptionUpdate(editing.value, Trim(titleInput), Trim(descInput))) else None
  }

  /**
   * The caption sent is the stored caption again when the dialog was opened
   * with it and left untouched, provided it had no surrounding white space
   * (the server stores what it receives).
   */
  lemma UntouchedCaptionKept(id: int, title: string, desc: string)
    requires id != 0 && Trim(title) == title && Trim(desc) == desc
    ensures CaptionOf(Some(id), title, desc) == Some(CaptionUpdate(id, title, desc))
  {
  }

  /** The edit dialog's state. */
  class PhotoEditor {
    /** `editingPhotoId`: `None` when no photo is being edited. */
    var editingPhotoId: Option<int>
    var titleInput: string
    var descInput: string
    var modalOpen: bool

    constructor ()
      ensures editingPhotoId.None? && titleInput == "" && descInput == "" && !modalOpen
    {
      editingPhotoId := None;
      titleInput, descInput := "", "";
      modalOpen := false;
    }

    /** `openEditPhoto(id, title, desc)`. */
    method OpenEdit(id: int, title: string, desc: string)
      modifies this
      ensures editingPhotoId == Some(id) && titleInput == title && descInput == desc && modalOpen
    {
      editingPhotoId := Some(id);
      titleInput := title;
      descInput := desc;
      modalOpen := true;
    }

    /** Typing in the two inputs. */
    method Type(title: string, desc: string)
      modifies this`titleInput, this`descInput
      ensures titleInput == title && descInput == desc
    {
      titleInput, descInput := title, desc;
    }

    /**
     * The save button: nothing without a photo being edited (a falsy id);
     * otherwise the trimmed title and description are sent, and on success
     * the dialog closes and the photo is no longer being edited.
     */
    method Save(succeeded: bool) returns (sent: Option<CaptionUpdate>)
      modifies this`editingPhotoId, this`modalOpen
      ensures sent == CaptionOf(old(editingPhotoId), old(titleInput), old(descInput))
      ensures sent.Some? && succeeded ==> editingPhotoId.None? && !modalOpen
      ensures sent.None? || !succeeded ==> editingPhotoId == old(editingPhotoId) && modalOpen == old(modalOpen)
    {
      if editingPhotoId.None? || editingPhotoId.value == 0 {
        return None;
      }
      sent := Some(CaptionUpdate(editingPhotoId.value, Trim(titleInput), Trim(descInput)));
      if succeeded {
        CloseDialog();
      }
    }

    /** Hides the dialog and forgets the photo being edited. */
    method CloseDialog()
      modifies this`editingPhotoId, this`modalOpen
      ensures editingPhotoId.None? && !modalOpen
    {
      modalOpen := false;
      editingPhotoId := None;
    }

    /** The cancel button. */
    method Cancel()
      modifies this`editingPhotoId, this`modalOpen
      ensures editingPhotoId.None? && !modalOpen
    {
      CloseDialog();
    }

    /** A click on the dialog's backdrop: the same as cancel. */
    method Backdrop()
      modifies this`editingPhotoId, this`modalOpen
      ensures editingPhotoId.None? && !modalOpen
    {
      CloseDialog();
    }
  }

  /** After cancel, save sends nothing until a photo is opened again. */
  method CancelThenSave(e: PhotoEditor, succeeded: bool) returns (sent: Option<CaptionUpdate>)
    modifies e
    ensures sent.None?
  {
    e.Cancel();
    sent := e.Save(succeeded);
  }
}
