/**
 * admin/admin.js, the location editor of the admin page: "add location"
 * and "edit location" open the same form; saving it sends a multipart
 * request, a PUT for the location being edited or a POST for a new one.
 * The cover is the blob produced by the cropper, or else a file still in
 * the cover input. The network call itself is a parameter: whether it
 * succeeded.
 */
module AdminPage {
  import opened Wrappers
  import opened Text
  import Store

  /** A file sent in a form: the cropper's blob or a file picked in an input. */
  datatype Upload = Blob(blobId: nat) | Picked(name: string)

  /** One `formData.append(...)`: a text field, or a file with an optional file name. */
  datatype FormPart = Field(name: string, value: string) | FilePart(name: string, file: Upload, fileName: Option<string>)

  /** A request to the admin API. */
  datatype Request = Request(verb: string, path: string, form: seq<FormPart>)

  /** `if (editingLocationId)`: set and not the falsy id 0. */
  predicate Editing(id: Option<int>) {
    id.Some? && id.value != 0
  }

  /** The form of a save: the title, then the cover when there is one. */
  function SaveForm(title: string, cropped: Option<nat>, coverFiles: seq<string>): (form: seq<FormPart>)
    ensures |form| >= 1 && form[0] == Field("title", title)
    ensures |form| == 2 <==> cropped.Some? || coverFiles != []
    ensures |form| <= 2
    ensures cropped.Some? ==> form[1] == FilePart("cover", Blob(cropped.value), Some("cover.jpg"))
    ensures cropped.None? && coverFiles != [] ==> form[1] == FilePart("cover", Picked(coverFiles[0]), None)
  {
    [Field("title", title)] +
    if cropped.Some? then [FilePart("cover", Blob(cropped.value), Some("cover.jpg"))]
    else if coverFiles != [] then [FilePart("cover", Picked(coverFiles[0]), None)]
    else []
  }

  /** The request the save button sends, `None` when the trimmed title is blank. */
  function SaveRequest(editing: Option<int>, titleInput: string, cropped: Option<nat>, coverFiles: seq<string>): (r: Option<Request>)
    ensures r.None? <==> AllWhiteSpace(titleInput)
    ensures r.Some? && Editing(editing) ==> r.value.verb == "PUT" && r.value.path == "/locations/" + IntToString(editing.value)
    ensures r.Some? && !Editing(editing) ==> r.value.verb == "POST" && r.value.path == "/locations"
    ensures r.Some? ==> r.value.form == SaveForm(Trim(titleInput), cropped, coverFiles)
  {
    var title := Trim(titleInput);
    if title == "" then None
    else
      var form := SaveForm(title, cropped, coverFiles);
      if Editing(editing) then Some(Request("PUT", "/locations/" + IntToString(editing.value), form))
      else Some(Request("POST", "/locations", form))
  }

  /**
   * The title sent is never blank and has no surrounding white space: the
   * server's `!title` check (a 400) cannot be reached from this form.
   */
  lemma SavedTitleIsTrimmed(editing: Option<int>, titleInput: string, cropped: Option<nat>, coverFiles: seq<string>)
    requires SaveRequest(editing, titleInput, cropped, coverFiles).Some?
    ensures var title := SaveRequest(editing, titleInput, cropped, coverFiles).value.form[0].value;
            title != "" && Trim(title) == title &&
            !IsJsWhiteSpace(title[0]) && !IsJsWhiteSpace(title[|title| - 1])
  {
    var title := SaveRequest(editing, titleInput, cropped, coverFiles).value.form[0].value;
    SaveRequestTitle(editing, titleInput, cropped, coverFiles);
    TrimmedNonBlank(titleInput);
    assert title == Trim(titleInput);
  }

  /** The first field of a request that is sent is the trimmed title input. */
  lemma SaveRequestTitle(editing: Option<int>, titleInput: string, cropped: Option<nat>, coverFiles: seq<string>)
    requires SaveRequest(editing, titleInput, cropped, coverFiles).Some?
    ensures !AllWhiteSpace(titleInput)
    ensures SaveRequest(editing, titleInput, cropped, coverFiles).value.form[0].value == Trim(titleInput)
  {
    var form := SaveRequest(editing, titleInput, cropped, coverFiles).value.form;
    assert form == SaveForm(Trim(titleInput), cropped, coverFiles);
  }

  /** The state of the location form. */
  class LocationEditor {
    /** `editingLocationId`: `None` for a new location. */
    var editingLocationId: Option<int>
    /** `croppedBlob`. */
    var croppedBlob: Option<nat>
    /** `locTitleInput.value`. */
    var titleInput: string
    /** `locCoverInput.files`. */
    var coverFiles: seq<string>
    var modalOpen: bool

    constructor ()
      ensures editingLocationId.None? && croppedBlob.None? && titleInput == "" && coverFiles == [] && !modalOpen
    {
      editingLocationId := None;
      croppedBlob := None;
      titleInput := "";
      coverFiles := [];
      modalOpen := false;
    }

    /** The "add location" button: a blank form for a new location. */
    method OpenAdd()
      modifies this
      ensures editingLocationId.None? && croppedBlob.None?
      ensures titleInput == "" && coverFiles == [] && modalOpen
    {
      editingLocationId := None;
      titleInput := "";
      coverFiles := [];
      croppedBlob := None;
      modalOpen := true;
    }

    /**
     * `openEditLocation(id)` once the list has been fetched: an id missing
     * from it changes nothing, otherwise the form is filled for that
     * location and the cover is left unchanged unless a new one is chosen.
     */
    method OpenEdit(id: int, locations: seq<Store.Location>)
      modifies this
      ensures (forall i :: 0 <= i < |locations| ==> locations[i].id != id) ==>
        editingLocationId == old(editingLocationId) && croppedBlob == old(croppedBlob) &&
        titleInput == old(titleInput) && coverFiles == old(coverFiles) && modalOpen == old(modalOpen)
      ensures (exists i :: 0 <= i < |locations| && locations[i].id == id) ==>
        editingLocationId == Some(id) && croppedBlob.None? && coverFiles == [] && modalOpen &&
        exists i :: 0 <= i < |locations| && locations[i].id == id && titleInput == locations[i].fields.title &&
          forall j :: 0 <= j < i ==> locations[j].id != id
    {
      var i := 0;
      while i < |locations| && locations[i].id != id
        invariant 0 <= i <= |locations|
        invariant forall j :: 0 <= j < i ==> locations[j].id != id
      {
        i := i + 1;
      }
      if i == |locations| {
        return;
      }
      editingLocationId := Some(id);
      titleInput := locations[i].fields.title;
      coverFiles := [];
      croppedBlob := None;
      modalOpen := true;
    }

    /** Typing in the title input. */
    method TypeTitle(text: string)
      modifies this`titleInput
      ensures titleInput == text
    {
      titleInput := text;
    }

    /**
     * The cover input's `change`: the input now holds `files`; a non-empty
     * choice goes to the cropper, which drops any earlier blob.
     */
    method ChooseCover(files: seq<string>)
      modifies this`croppedBlob, this`coverFiles
      ensures coverFiles == files
      ensures files == [] ==> croppedBlob == old(croppedBlob)
      ensures files != [] ==> croppedBlob.None?
    {
      coverFiles := files;
      if files != [] {
        croppedBlob := None;
      }
    }

    /** The cropper's cancel button or backdrop: the crop is abandoned and the cover input cleared. */
    method CancelCrop()
      modifies this`coverFiles
      ensures coverFiles == []
    {
      coverFiles := [];
    }

    /** The cropper's confirm button: its blob becomes the cover. */
    method ConfirmCrop(blob: nat)
      modifies this`croppedBlob
      ensures croppedBlob == Some(blob)
    {
      croppedBlob := Some(blob);
    }

    /**
     * The save button. A blank title sends nothing; otherwise the request
     * is sent, and when it succeeds the form closes and the blob is
     * dropped (`editingLocationId` is left as it is).
     */
    method Save(succeeded: bool) returns (sent: Option<Request>)
      modifies this`modalOpen, this`croppedBlob
      ensures sent == SaveRequest(editingLocationId, titleInput, old(croppedBlob), coverFiles)
      ensures sent.None? || !succeeded ==> modalOpen == old(modalOpen) && croppedBlob == old(croppedBlob)
      ensures sent.Some? && succeeded ==> !modalOpen && croppedBlob.None?
    {
      sent := BuildRequest(editingLocationId, titleInput, croppedBlob, coverFiles);
      if sent.Some? && succeeded {
        CloseForm();
      }
    }

    /** Hides the form and drops the cropped blob. */
    method CloseForm()
      modifies this`modalOpen, this`croppedBlob
      ensures !modalOpen && croppedBlob.None?
    {
      modalOpen := false;
      croppedBlob := None;
    }
  }

  /**
   * The request of `saveLocation`, assembled as the handler does: the
   * trimmed title, then the cropped blob or else the first file of the
   * cover input, then PUT or POST by `editingLocationId`.
   */
  method BuildRequest(editing: Option<int>, titleInput: string, cropped: Option<nat>, coverFiles: seq<string>)
    returns (sent: Option<Request>)
    ensures sent == SaveRequest(editing, titleInput, cropped, coverFiles)
  {
    var title := Trim(titleInput);
    if title == "" {
      return None;
    }
    var form := [Field("title", title)];
    if cropped.Some? {
      form := form + [FilePart("cover", Blob(cropped.value), Some("cover.jpg"))];
    } else if |coverFiles| > 0 {
      form := form + [FilePart("cover", Picked(coverFiles[0]), None)];
    }
    assert form == SaveForm(title, cropped, coverFiles);
    if editing.Some? && editing.value != 0 {
      sent := Some(Request("PUT", "/locations/" + IntToString(editing.value), form));
    } else {
      sent := Some(Request("POST", "/locations", form));
    }
  }
}
