# DermaAI upload flow and result routing, modelled in Dafny

This project models the two decision-making parts of the DermaAI skin-lesion
analysis site:

* **The upload controller of the page script** (`static/js/script.js`): the
  file input, preview, submit button, drop zone, loader and notification list,
  and the handlers that change them — file choice, drag and drop, validation,
  reset, the FileReader completion that shows the preview, and the submit
  guard. It also covers the script's pure helpers: the 1024-based size printer,
  the notification icon mapping, the confidence-bar counter and the rule that
  picks the active navigation link.
* **The result routing of the web application** (`app.py`, `index()`): how the
  binary detector's text (`"Cancer (xx.xx% confidence)"` or
  `"Non_Cancer (xx.xx% confidence)"`, the format of
  `skin_cancer_binary/main.py`) is parsed into `is_cancer` and a confidence,
  and which result page is rendered.

Modules, one per part of the program:

| file | module | models |
|---|---|---|
| `wrappers.dfy` | `Wrappers` | `Option` and `Result` |
| `format.dfy` | `Format` | `formatFileSize`, `getNotificationIcon` |
| `upload.dfy` | `Upload` | `initializeFileUpload`: class `UploadController` with the widget fields, `validateFile` |
| `animations.dfy` | `Animations` | the percentage counter of `animateConfidenceBars` |
| `navigation.dfy` | `Navigation` | the scroll handler that highlights the current section's nav link |
| `routing.dfy` | `Routing` | `index()`, with Python's `split`, `in` and the detector's output format |

The upload controller is a class whose fields are the DOM properties the
handlers assign (`fileInput.files`, `previewContainer.style.display`,
`submitBtn.disabled`, the opacities, `loader.style.display`, the
`dragover` class, the `.notification` elements of the body). Every handler is a
method whose postcondition gives the whole new state, through the `Widgets`
value `Ui()` and the functions `Cleared` (what `resetFileUpload` does), `Busy`
(what an accepted submission does when a loader exists) and `Shown` (what the
decode callback does). The invariant `Valid()` holds across every handler,
starting from the state the page markup renders (submit disabled, preview and
loader hidden, no notification): at most one notification exists, a FileReader is only ever started for an accepted
file, and an enabled submit button comes with a visible preview whose caption
names an accepted file.

FileReader is modelled by the list `pending` of reads started and not yet
delivered. `CompleteDecode(k, dataUrl)` is the `reader.onload` body for any of
them, and it may run after a reset or a newer selection, exactly as in the
page, which has no guard against that. So the page does not keep the property
"submission is enabled if and only if a selected file exists and has passed
validation" (a late decode
re-enables the button after a reset, and choosing no file in the picker leaves
it enabled). The model follows the code: `StaleDecodeScenario` shows the late
decode enabling the button with no file, and `Submit` shows that the guard
still refuses to submit an empty or invalid input.

Floating point is replaced by exact arithmetic. The unit index of
`formatFileSize` is the integer base-1024 logarithm (`UnitIndex`), the
`Math.round(x * 100) / 100` value is kept as whole hundredths, and JavaScript's
shortest printing of such a value is written out (`HundredthsText`). The
counter works on `real` values. The nav offsets are integers.

In `app.py` the detector, the multiclass predictor and the clock are
parameters of `Index`, the upload is its filename, and the rendered template
is a `Page` value. Python's `float(...)` followed by `f"{x:.2f}"` is a
parameter too (`twoDecimals`), which gives the re-printed text or `None` where
`float()` raises a ValueError; so the handler has two error outcomes, the
IndexError of a text without '(' and the ValueError of a confidence that is not
a number. For the detector's own output the model assumes that re-printing a
`%.2f` text gives it back.

## Model

| member | source | states |
|---|---|---|
| `Format.UnitIndex` | static/js/script.js:297 | the unit index i satisfies 1024^i <= bytes < 1024^(i+1) |
| `Format.UnitIndexUnique` | static/js/script.js:297 | any i with that bracket is the unit index, so it is floor(log1024(bytes)) |
| `Format.RoundedIsNearest` | static/js/script.js:298 | the printed value is bytes/1024^i rounded to the nearest hundredth (within half a hundredth) |
| `Format.ScaledValueBounds` | static/js/script.js:297-298 | in the chosen unit the printed value lies between 1 and 1024 |
| `Format.DecimalRoundTrip` | static/js/script.js:298 | the printed digits of a whole number read back as that number |
| `Format.HundredthsRoundTrip` | static/js/script.js:298 | the printed value (trailing zeros dropped) reads back as the rounded value |
| `Format.AcceptedSizeUnit` | static/js/script.js:125 | a file that passes the 10 MiB size check is printed in Bytes, KB or MB |
| `Format.RoundedHundredths` | static/js/script.js:298 | `Math.round(bytes / 1024^i * 100)` in whole hundredths; `RoundedIsNearest` states it is the nearest hundredth and `ScaledValueBounds` that it lies in [1, 1024] in the chosen unit |
| `Format.HundredthsText` | static/js/script.js:298 | the printing of a value in hundredths without trailing zeros; `HundredthsRoundTrip` states that the text reads back as the value |
| `Format.FormatFileSize` | static/js/script.js:293-299 | 0 prints "0 Bytes"; any other size is specified by `FormatFileSizeMeaning` |
| `Format.FormatFileSizeMeaning` | static/js/script.js:293-299 | a non-zero size prints as a number and the unit of the largest power of 1024 not above it; the number reads back as the size in that unit rounded to the nearest hundredth, between 1 and 1024 |
| `Format.FormatFileSizeExamples` | static/js/script.js:293-299 | 0 gives "0 Bytes", 1024 "1 KB", 1536 "1.5 KB", 1048576 "1 MB" |
| `Format.NotificationIcon` | static/js/script.js:470-478 | the icon is always one of the four icon names |
| `Format.NotificationIconCases` | static/js/script.js:470-478 | success, error and warning get their own icons and exactly every other type gets info-circle |
| `Upload.Validate` | static/js/script.js:115-132 | the verdict of `validateFile`; `ValidateCases` states it in both directions |
| `Upload.ValidateCases` | static/js/script.js:115-132 | accepted iff the MIME type is one of the five image types and the size is at most 10485760; a file breaking both rules is reported for its type |
| `Upload.Cleared` | static/js/script.js:134-145 | the widgets after `resetFileUpload`; `Reset` ensures the new state is exactly this and the invariant holds |
| `Upload.Busy` | static/js/script.js:76-82 | the widgets after an accepted submission with a loader; `Submit` ensures it is the new state in exactly that case |
| `Upload.Shown` | static/js/script.js:94-98 | the widgets after the decode callback; `CompleteDecode` ensures it is the new state and that the invariant still holds |
| `Upload.UploadController.constructor` | static/js/script.js:10-21 | the handlers start from the state the markup renders: no file, hidden preview and loader, disabled submit and no notification; the invariant holds there |
| `Upload.UploadController.ShowNotification` | static/js/script.js:301-318 | afterwards exactly one notification exists, the new one, with the icon of its type; nothing else changes |
| `Upload.UploadController.DismissNotification` | static/js/script.js:320-332 | removing a notification takes it out only if it is still the one shown |
| `Upload.UploadController.Reset` | static/js/script.js:134-145 | the input is emptied, the preview hidden, submit disabled and drop-zone opacity '1'; nothing else changes |
| `Upload.UploadController.ValidateFile` | static/js/script.js:115-132 | returns true iff the file is accepted; a rejection leaves the widgets reset and exactly one error notification with the message of the first broken rule |
| `Upload.UploadController.HandleFileSelect` | static/js/script.js:86-113 | with no file nothing happens; an accepted first file starts a read and changes no widget; a rejected one resets with one error notification |
| `Upload.UploadController.Choose` | static/js/script.js:28-29 | a choice replaces the file list and runs selection on its first file |
| `Upload.UploadController.DragOver` | static/js/script.js:40-43 | only the 'dragover' marker is set |
| `Upload.UploadController.DragLeave` | static/js/script.js:45-47 | only the 'dragover' marker is cleared |
| `Upload.UploadController.Drop` | static/js/script.js:49-58 | an empty drop changes only the marker; a non-empty drop replaces the file list and runs selection on its first file |
| `Upload.UploadController.CompleteDecode` | static/js/script.js:94-110 | the decode callback shows the preview of an accepted file with its caption and enables submit, whatever is selected by then |
| `Upload.UploadController.Submit` | static/js/script.js:61-84 | goes ahead iff a file is selected and accepted; with no file only the error notification changes; an invalid file resets; an accepted one with a loader shows the loader, disables submit and dims drop zone and preview to '0.5' |
| `Upload.StaleDecodeScenario` | static/js/script.js:94-98 | a decode completing after a reset enables submit with no file, and the submit guard still refuses |
| `Animations.Increment` | static/js/script.js:194 | `Math.ceil(confidence / 40)`; `IncrementReachesTarget` states it is at least 1 and that 40 of them reach a positive target |
| `Animations.Counted` | static/js/script.js:194-195 | the value after the (j+1)-th clamped increment; `CountedMonotonic` states it never decreases and stays in [0, target], and `CountUp` that the counter shows exactly these values |
| `Animations.IncrementReachesTarget` | static/js/script.js:194 | for a positive target each step is at least 1 and 40 steps reach the target |
| `Animations.CountedMonotonic` | static/js/script.js:194-195 | the shown values never decrease and stay between 0 and the target |
| `Animations.CountUp` | static/js/script.js:187-198 | the ticks show the clamped increments `Counted(target, j)` while they stay below the target, then the increment that reaches it, then the target once more on the stop tick; at most 40 increments, none for a target that is not positive; values non-decreasing and never past the target |
| `Navigation.LastReached` | static/js/script.js:229-236 | the chosen section satisfies scrollY >= offsetTop - 200 and no later one does; none is chosen iff no section does |
| `Navigation.ActiveSection` | static/js/script.js:229-236 | the id of the last reached section, or ''; `ActiveSectionSnoc` gives its effect section by section and `CurrentSection` computes it with the source's loop |
| `Navigation.ActiveSectionSnoc` | static/js/script.js:230-236 | a further section replaces the current id iff it is reached |
| `Navigation.CurrentSection` | static/js/script.js:229-236 | the loop's `current` is the id of the last reached section, or '' |
| `Navigation.MarkLinks` | static/js/script.js:238-243 | afterwards exactly the links whose href is '#' + current carry 'active' |
| `Navigation.OnScroll` | static/js/script.js:228-244 | after a scroll exactly the links naming the last reached section are active |
| `Routing.Split` | app.py:35 | Python's `str.split` on one character; `SplitJoin`, `SplitAtFirst` and `SplitPrefix` state its meaning |
| `Routing.IndexOf` | app.py:35 | the position found holds the character and none comes before it |
| `Routing.IndexOfAt` | app.py:35 | the first occurrence is unique |
| `Routing.SplitJoin` | app.py:35 | `split` pieces join back to the string and contain no separator |
| `Routing.SplitAtFirst` | app.py:35 | the first piece ends at the first separator |
| `Routing.SplitPrefix` | app.py:35 | the first piece is the prefix up to the first separator or the end |
| `Routing.Contains` | app.py:34 | Python's substring test `t in s`; `ContainsOccurrence` states it in both directions |
| `Routing.ContainsOccurrence` | app.py:34 | Python's `t in s` holds iff t occurs in s at some position |
| `Routing.ContainsFirstChar` | app.py:34 | a text cannot contain a piece whose first character it lacks |
| `Routing.ConfidenceText` | app.py:35 | `split("(")[1].split("%")[0]`, failing without '('; `ConfidenceTextMeaning` states both cases |
| `Routing.ConfidenceTextMeaning` | app.py:35 | no '(' means an index error; otherwise the text is the longest piece after the first '(' holding neither '(' nor '%' |
| `Routing.IsCancer` | app.py:34 | "Cancer" occurs and "Non_Cancer" does not; `IsCancerOfDetectorOutput` states what it gives on each detector output |
| `Routing.DetectorOutput` | skin_cancer_binary/main.py:30-33 | the two texts the detector prints; `IsCancerOfDetectorOutput` and `ConfidenceOfDetectorOutput` state that the handler's parsing recovers the outcome and the confidence |
| `Routing.IsCancerOfDetectorOutput` | skin_cancer_binary/main.py:30-33 | texts of the Cancer branch parse as cancer and texts of the Non_Cancer branch do not |
| `Routing.ConfidenceOfDetectorOutput` | skin_cancer_binary/main.py:31-33 | the confidence text of a detector output is exactly the printed confidence |
| `Routing.Index` | app.py:20-73 | the handler; specified by `IndexPageCases`, `IndexFailureCases`, `ResultPageFields` and `IndexOfDetectorOutput` |
| `Routing.IndexPageCases` | app.py:21-24 | the index page is rendered iff the request is a GET or carries no named file |
| `Routing.IndexFailureCases` | app.py:35 | with a file, the handler fails iff the detector text has no '(' (an IndexError) or `twoDecimals` rejects the piece after it (the ValueError of `float()`), and the error says which |
| `Routing.ResultPageFields` | app.py:43-71 | the page shows uploads/ + filename and the re-printed binary confidence; the multiclass branch is taken iff is_cancer; the benign branch reports "Benign / Non-Cancerous" with the binary confidence and does not depend on the multiclass predictor |
| `Routing.IndexOfDetectorOutput` | app.py:20-71 | end to end, a detector output for a named upload yields the page of its outcome, given that `float()` and `:.2f` give back the detector's two-decimal text |

## Left out

- FileReader's decoding itself: a decode delivers an arbitrary data-URL string to `CompleteDecode`.
- Timers and scrolling: the 300 ms scroll-into-view of the preview, the 5000 ms and 300 ms notification fade-out delays (the removal itself is `DismissNotification`), the 30 ms counter interval and the 500 + 300·index stagger; only the order of effects is kept.
- CSS: the `scaleIn`/`slideOut` animation strings, the injected style blocks, the bar width, the spinner markup of the submit label (kept as the flag `submitProcessing`), and the notification markup (kept as message, type and icon).
- Tooltips, the scroll-reveal of `.fade-in` elements, smooth scrolling of hash links, the click-to-copy report identifier and `handleImageError`: DOM glue without decisions of the upload flow.
- Element presence: the preview container, image, caption and submit button are assumed present; only the presence of the loader is a parameter. The drop zone and file input always exist once the handlers are installed.
- Opening the native file picker on a click of the drop zone: the browser's dialog; its outcome arrives as `Choose`.
- Floating point: `Math.log`, `Math.pow` and the division in `formatFileSize` are exact in the model; a NaN `data-confidence` (for which the counter never stops) is outside the `real` model; `toFixed(1)` texts are represented by the values they print.
- Format.NotificationIcon: type names that JavaScript objects inherit (such as "constructor") are treated as unknown types and get 'info-circle'; the page would look them up on the object prototype.
- Routing.Index: Python's `float()` and the `:.2f` printing are the parameter `twoDecimals`; which texts `float()` accepts and how `:.2f` rounds are not defined in the model, and the multiclass confidence arrives already printed in `Diagnosis`.
- Routing.IndexFailureCases: the ValueError case is stated in terms of `twoDecimals`, so it is exactly Python's only as far as that parameter is `float()` followed by `:.2f`.
- Upload.UploadController.constructor: the initial widget state (submit rendered disabled, preview and loader hidden, no inline opacities, no notification) comes from the page's HTML and style sheet, which are not part of this model; the invariant `Valid()` at start, and so at every later step, rests on that markup.
- `file.save`, `os.path.join` of the save path, `print` logging, `datetime.now` (a parameter) and `render_template` (the returned `Page`): input and output of the handler.
- TensorFlow inference in `skin_cancer_binary/main.py` and `skin_cancer_multi/main.py`: only the binary detector's output format is modelled, by `DetectorOutput`.
