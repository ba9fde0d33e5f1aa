/**
 * The upload controller of the page script (`initializeFileUpload`): the file
 * input, the preview, the submit button, the drop zone, the loader and the
 * notification list, and the event handlers that change them.
 *
 * The browser's FileReader is modelled by the list of reads that have been
 * started and not yet delivered; `CompleteDecode` is the body of
 * `reader.onload` and may run for any of them, at any later point, exactly as
 * in the page, which does not check that the decoded file is still the
 * selected one.
 */
module Upload {
  import opened Wrappers
  import opened Format

  /** A file as the browser's `File` object describes it. */
  datatype File = File(name: string, size: nat, mime: string)

  /** The MIME types `validateFile` accepts, in the order the page lists them. */
  const ValidTypes: seq<string> := ["image/jpeg", "image/jpg", "image/png", "image/gif", "image/avif"]

  /** The outcome of `validateFile`: accepted, or the first rule the file breaks. */
  datatype Verdict = Accepted | WrongType | TooLarge

  /** The decision of `validateFile`: the type rule is checked before the size rule. */
  function Validate(f: File): Verdict
  {
    if f.mime !in ValidTypes then WrongType
    else if f.size > MaxFileSize then TooLarge
    else Accepted
  }

  /** Exactly the listed image types up to 10 MiB are accepted; a file breaking both rules is reported for its type. */
  lemma ValidateCases(f: File)
    ensures Validate(f) == Accepted <==>
      f.mime in {"image/jpeg", "image/jpg", "image/png", "image/gif", "image/avif"} && f.size <= 10485760
    ensures Validate(f) == WrongType <==> f.mime !in {"image/jpeg", "image/jpg", "image/png", "image/gif", "image/avif"}
    ensures Validate(f) == TooLarge <==>
      f.mime in {"image/jpeg", "image/jpg", "image/png", "image/gif", "image/avif"} && f.size > 10485760
  {
  }

  const WrongTypeMessage: string := "Please select a valid image file (JPG, PNG, JPEG, AVIF)"
  const TooLargeMessage: string := "File size must be less than 10MB"
  const NoFileMessage: string := "Please select an image first"

  /** The error text a rejected file is reported with. */
  function RejectionMessage(v: Verdict): string
  {
    if v == WrongType then WrongTypeMessage else TooLargeMessage
  }

  /** The preview caption, `${file.name} (${formatFileSize(file.size)})`. */
  function Caption(f: File): string
  {
    f.name + " (" + FormatFileSize(f.size) + ")"
  }

  /** A `.notification` element in the page body: its serial number, text, severity and icon. */
  datatype Notification = Notification(serial: nat, message: string, kind: string, icon: string)

  /** The state of the upload widgets, apart from the notification list and the pending reads. */
  datatype Widgets = Widgets(
    files: seq<File>,
    previewVisible: bool,
    previewSrc: string,
    caption: string,
    submitDisabled: bool,
    submitProcessing: bool,
    dropZoneOpacity: string,
    previewOpacity: string,
    loaderVisible: bool,
    dragover: bool)

  /** What `resetFileUpload` does to the widgets. */
  function Cleared(w: Widgets): (r: Widgets)
  {
    w.(files := [], previewVisible := false, submitDisabled := true, dropZoneOpacity := "1")
  }

  /** What a submission that goes ahead does to the widgets when a loader element exists. */
  function Busy(w: Widgets): (r: Widgets)
  {
    w.(loaderVisible := true, submitDisabled := true, submitProcessing := true,
       dropZoneOpacity := "0.5", previewOpacity := "0.5")
  }

  /** What the decode callback does to the widgets for file `f` decoded as `dataUrl`. */
  function Shown(w: Widgets, f: File, dataUrl: string): (r: Widgets)
  {
    w.(previewSrc := dataUrl, caption := Caption(f), previewVisible := true, submitDisabled := false)
  }

  class UploadController {
    /** `fileInput.files` */
    var files: seq<File>
    /** `previewContainer.style.display == 'block'` */
    var previewVisible: bool
    /** `previewImage.src` */
    var previewSrc: string
    /** `fileName.textContent` */
    var caption: string
    /** `submitBtn.disabled` */
    var submitDisabled: bool
    /** whether `submitBtn.innerHTML` is the "Processing..." spinner label */
    var submitProcessing: bool
    /** `uploadArea.style.opacity`; "" while no inline value is set */
    var dropZoneOpacity: string
    /** `previewContainer.style.opacity`; "" while no inline value is set */
    var previewOpacity: string
    /** `loader.style.display == 'block'` */
    var loaderVisible: bool
    /** whether `uploadArea` carries the 'dragover' class */
    var dragover: bool
    /** the `.notification` elements of the body, in document order */
    var notifications: seq<Notification>
    /** the serial number the next notification gets */
    var nextSerial: nat
    /** the files whose FileReader has been started and whose `onload` has not yet run */
    var pending: seq<File>
    /** whether the page has a `#loader` element */
    const hasLoader: bool
    /** the file whose decode completion last enabled the submit button */
    ghost var shownFile: Option<File>

    /** The widgets as one value. */
    function Ui(): Widgets
      reads this
    {
      Widgets(files, previewVisible, previewSrc, caption, submitDisabled, submitProcessing,
              dropZoneOpacity, previewOpacity, loaderVisible, dragover)
    }

    /**
     * The invariant the handlers keep: at most one notification; a read is
     * only ever started for an accepted file; an enabled submit button comes
     * with a visible preview captioned with an accepted file.
     */
    ghost predicate Valid()
      reads this
    {
      && |notifications| <= 1
      && (forall k :: 0 <= k < |notifications| ==> notifications[k].serial < nextSerial)
      && (forall k :: 0 <= k < |pending| ==> Validate(pending[k]) == Accepted)
      && (!submitDisabled ==>
            previewVisible && shownFile.Some? && Validate(shownFile.value) == Accepted &&
            caption == Caption(shownFile.value))
    }

    /** The page as loaded: nothing selected, preview hidden, submit disabled, no notification. */
    constructor (hasLoader: bool)
      ensures Valid()
      ensures Ui() == Widgets([], false, "", "", true, false, "", "", false, false)
      ensures notifications == [] && pending == [] && this.hasLoader == hasLoader
    {
      files := [];
      previewVisible := false;
      previewSrc := "";
      caption := "";
      submitDisabled := true;
      submitProcessing := false;
      dropZoneOpacity := "";
      previewOpacity := "";
      loaderVisible := false;
      dragover := false;
      notifications := [];
      nextSerial := 0;
      pending := [];
      this.hasLoader := hasLoader;
      shownFile := None;
    }

    /** `showNotification(message, kind)`: every existing notification is removed, then the new one appended. */
    method ShowNotification(message: string, kind: string)
      requires Valid()
      modifies this
      ensures Valid()
      ensures notifications == [Notification(old(nextSerial), message, kind, NotificationIcon(kind))]
      ensures nextSerial == old(nextSerial) + 1
      ensures Ui() == old(Ui()) && pending == old(pending) && shownFile == old(shownFile)
    {
      notifications := [];
      var n := Notification(nextSerial, message, kind, NotificationIcon(kind));
      notifications := notifications + [n];
      nextSerial := nextSerial + 1;
    }

    /**
     * `notification.remove()`, from the close button or the 5-second timer:
     * removes that element if it is still in the body, and does nothing otherwise.
     */
    method DismissNotification(serial: nat)
      requires Valid()
      modifies this
      ensures Valid()
      ensures notifications == if old(notifications) != [] && old(notifications)[0].serial == serial
                               then [] else old(notifications)
      ensures Ui() == old(Ui()) && pending == old(pending) && nextSerial == old(nextSerial)
      ensures shownFile == old(shownFile)
    {
      if notifications != [] && notifications[0].serial == serial {
        notifications := [];
      }
    }

    /** `resetFileUpload()`. */
    method Reset()
      requires Valid()
      modifies this
      ensures Valid()
      ensures Ui() == Cleared(old(Ui()))
      ensures notifications == old(notifications) && nextSerial == old(nextSerial)
      ensures pending == old(pending) && shownFile == old(shownFile)
    {
      files := [];
      previewVisible := false;
      submitDisabled := true;
      dropZoneOpacity := "1";
    }

    /**
     * `validateFile(file)`: accepts exactly when `Validate` does; a rejection
     * shows one error notification with the message of the first broken rule
     * and resets the upload widgets.
     */
    method ValidateFile(f: File) returns (ok: bool)
      requires Valid()
      modifies this
      ensures Valid()
      ensures ok <==> Validate(f) == Accepted
      ensures ok ==> Ui() == old(Ui()) && notifications == old(notifications) && nextSerial == old(nextSerial)
      ensures !ok ==> (Ui() == Cleared(old(Ui())) && nextSerial == old(nextSerial) + 1 &&
        notifications == [Notification(old(nextSerial), RejectionMessage(Validate(f)), "error", NotificationIcon("error"))])
      ensures pending == old(pending) && shownFile == old(shownFile)
    {
      if f.mime !in ValidTypes {
        ShowNotification(WrongTypeMessage, "error");
        Reset();
        return false;
      }
      if f.size > MaxFileSize {
        ShowNotification(TooLargeMessage, "error");
        Reset();
        return false;
      }
      return true;
    }

    /**
     * `handleFileSelect()`: validates `files[0]`, if there is one, and starts
     * reading it when it is accepted. Nothing is shown yet: the preview and
     * the submit button change only in `CompleteDecode`.
     */
    method HandleFileSelect()
      requires Valid()
      modifies this
      ensures Valid()
      ensures old(files) == [] ==>
        Ui() == old(Ui()) && notifications == old(notifications) && nextSerial == old(nextSerial) &&
        pending == old(pending)
      ensures old(files) != [] && Validate(old(files)[0]) == Accepted ==>
        Ui() == old(Ui()) && notifications == old(notifications) && nextSerial == old(nextSerial) &&
        pending == old(pending) + [old(files)[0]]
      ensures old(files) != [] && Validate(old(files)[0]) != Accepted ==>
        Ui() == Cleared(old(Ui())) && nextSerial == old(nextSerial) + 1 &&
        notifications == [Notification(old(nextSerial), RejectionMessage(Validate(old(files)[0])), "error", NotificationIcon("error"))] &&
        pending == old(pending)
      ensures shownFile == old(shownFile)
    {
      if files != [] {
        var f := files[0];
        var ok := ValidateFile(f);
        if ok {
          pending := pending + [f];
        }
      }
    }

    /** The input's 'change' event: the browser replaces the file list with the chosen files. */
    method Choose(chosen: seq<File>)
      requires Valid()
      modifies this
      ensures Valid()
      ensures chosen == [] ==>
        Ui() == old(Ui()).(files := []) && notifications == old(notifications) &&
        nextSerial == old(nextSerial) && pending == old(pending)
      ensures chosen != [] && Validate(chosen[0]) == Accepted ==>
        Ui() == old(Ui()).(files := chosen) && notifications == old(notifications) &&
        nextSerial == old(nextSerial) && pending == old(pending) + [chosen[0]]
      ensures chosen != [] && Validate(chosen[0]) != Accepted ==>
        Ui() == Cleared(old(Ui())) && nextSerial == old(nextSerial) + 1 &&
        notifications == [Notification(old(nextSerial), RejectionMessage(Validate(chosen[0])), "error", NotificationIcon("error"))] &&
        pending == old(pending)
      ensures shownFile == old(shownFile)
    {
      files := chosen;
      HandleFileSelect();
    }

    /** 'dragover' on the drop zone: only the marker class changes. */
    method DragOver()
      requires Valid()
      modifies this
      ensures Valid()
      ensures Ui() == old(Ui()).(dragover := true)
      ensures notifications == old(notifications) && nextSerial == old(nextSerial)
      ensures pending == old(pending) && shownFile == old(shownFile)
    {
      dragover := true;
    }

    /** 'dragleave' on the drop zone: only the marker class changes. */
    method DragLeave()
      requires Valid()
      modifies this
      ensures Valid()
      ensures Ui() == old(Ui()).(dragover := false)
      ensures notifications == old(notifications) && nextSerial == old(nextSerial)
      ensures pending == old(pending) && shownFile == old(shownFile)
    {
      dragover := false;
    }

    /**
     * 'drop' on the drop zone: the marker is removed; an empty drop changes
     * nothing else; otherwise the dropped list replaces the input's files
     * and selection runs on its first file.
     */
    method Drop(dropped: seq<File>)
      requires Valid()
      modifies this
      ensures Valid()
      ensures dropped == [] ==>
        Ui() == old(Ui()).(dragover := false) && notifications == old(notifications) &&
        nextSerial == old(nextSerial) && pending == old(pending)
      ensures dropped != [] && Validate(dropped[0]) == Accepted ==>
        Ui() == old(Ui()).(files := dropped, dragover := false) && notifications == old(notifications) &&
        nextSerial == old(nextSerial) && pending == old(pending) + [dropped[0]]
      ensures dropped != [] && Validate(dropped[0]) != Accepted ==>
        Ui() == Cleared(old(Ui())).(dragover := false) && nextSerial == old(nextSerial) + 1 &&
        notifications == [Notification(old(nextSerial), RejectionMessage(Validate(dropped[0])), "error", NotificationIcon("error"))] &&
        pending == old(pending)
      ensures shownFile == old(shownFile)
    {
      dragover := false;
      if |dropped| > 0 {
        files := dropped;
        HandleFileSelect();
      }
    }

    /**
     * The body of `reader.onload` for the `k`-th started read, delivering
     * `dataUrl`: shows the preview of that file and enables submission,
     * whatever the input holds by now.
     */
    method CompleteDecode(k: nat, dataUrl: string)
      requires Valid()
      requires k < |pending|
      modifies this
      ensures Valid()
      ensures Ui() == Shown(old(Ui()), old(pending)[k], dataUrl)
      ensures Validate(old(pending)[k]) == Accepted
      ensures pending == old(pending)[..k] + old(pending)[k + 1..]
      ensures notifications == old(notifications) && nextSerial == old(nextSerial)
    {
      var f := pending[k];
      pending := pending[..k] + pending[k + 1..];
      previewSrc := dataUrl;
      caption := Caption(f);
      previewVisible := true;
      submitDisabled := false;
      shownFile := Some(f);
    }

    /**
     * The form's 'submit' handler. Returns whether the submission goes ahead
     * (`e.preventDefault()` not called): exactly when the input holds a file
     * and its first file is accepted.
     */
    method Submit() returns (proceeds: bool)
      requires Valid()
      modifies this
      ensures Valid()
      ensures proceeds <==> old(files) != [] && Validate(old(files)[0]) == Accepted
      ensures old(files) == [] ==>
        Ui() == old(Ui()) && nextSerial == old(nextSerial) + 1 &&
        notifications == [Notification(old(nextSerial), NoFileMessage, "error", NotificationIcon("error"))]
      ensures old(files) != [] && Validate(old(files)[0]) != Accepted ==>
        Ui() == Cleared(old(Ui())) && nextSerial == old(nextSerial) + 1 &&
        notifications == [Notification(old(nextSerial), RejectionMessage(Validate(old(files)[0])), "error", NotificationIcon("error"))]
      ensures proceeds ==>
        Ui() == (if hasLoader then Busy(old(Ui())) else old(Ui())) &&
        notifications == old(notifications) && nextSerial == old(nextSerial)
      ensures pending == old(pending) && shownFile == old(shownFile)
    {
      if |files| == 0 {
        ShowNotification(NoFileMessage, "error");
        return false;
      }
      var f := files[0];
      var ok := ValidateFile(f);
      if !ok {
        return false;
      }
      if hasLoader {
        loaderVisible := true;
        submitDisabled := true;
        submitProcessing := true;
        dropZoneOpacity := "0.5";
        previewOpacity := "0.5";
      }
      return true;
    }
  }

  /**
   * The decode race: a file is chosen, the preview is removed before its read
   * completes, and the late `onload` then enables the submit button with no
   * file selected. The submit guard still refuses the empty input.
   */
  method StaleDecodeScenario(f: File, dataUrl: string) returns (enabledWithoutFile: bool, proceeds: bool)
    requires Validate(f) == Accepted
    ensures enabledWithoutFile && !proceeds
  {
    var page := new UploadController(true);
    page.Choose([f]);
    page.Reset();
    page.CompleteDecode(0, dataUrl);
    enabledWithoutFile := !page.submitDisabled && page.files == [];
    proceeds := page.Submit();
  }
}
