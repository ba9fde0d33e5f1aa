/**
 * The request handler `index()` of the web application: after the upload is
 * saved, the binary detector's text ("Cancer (xx.xx% confidence)" or
 * "Non_Cancer (xx.xx% confidence)") decides whether the multiclass predictor
 * is consulted or the benign result is reported.
 *
 * The detector, the multiclass predictor, the clock and the file system are
 * outside the model: their outputs are parameters, and the rendered template
 * is returned as a value. So is Python's `float()` followed by the `:.2f`
 * printing of the result: a parameter `twoDecimals` that gives the printed
 * text, or `None` where `float()` raises a ValueError.
 */
module Routing {
  import opened Wrappers

  // ---------------------------------------------------------------------
  // Python string operations the handler relies on
  // ---------------------------------------------------------------------

  /** The position of the first `c`: where `str.split` cuts off its first piece. */
  function IndexOf(s: string, c: char): (i: nat)
    requires c in s
    ensures i < |s| && s[i] == c && c !in s[..i]
  {
    if s[0] == c then 0
    else
      assert s[1..][IndexOf(s[1..], c)] == c;
      assert s[..IndexOf(s[1..], c) + 1] == [s[0]] + s[1..][..IndexOf(s[1..], c)];
      IndexOf(s[1..], c) + 1
  }

  /** `s.split(sep)` for a one-character separator. */
  function Split(s: string, sep: char): (parts: seq<string>)
    ensures |parts| >= 1
    decreases |s|
  {
    if sep !in s then [s]
    else
      var i := IndexOf(s, sep);
      [s[..i]] + Split(s[i + 1..], sep)
  }

  /** `sep.join(parts)`. */
  function Join(parts: seq<string>, sep: char): string
    requires |parts| >= 1
  {
    if |parts| == 1 then parts[0] else parts[0] + [sep] + Join(parts[1..], sep)
  }

  /** Joining the pieces back gives the string; no piece holds the separator. */
  lemma {:induction false} SplitJoin(s: string, sep: char)
    ensures Join(Split(s, sep), sep) == s
    ensures forall k :: 0 <= k < |Split(s, sep)| ==> sep !in Split(s, sep)[k]
    decreases |s|
  {
    if sep in s {
      var i := IndexOf(s, sep);
      SplitJoin(s[i + 1..], sep);
      assert s == s[..i] + [sep] + s[i + 1..];
    }
  }

  /** A position holding `c` with no `c` before it is the first. */
  lemma {:induction false} IndexOfAt(s: string, c: char, j: nat)
    requires j < |s| && s[j] == c && c !in s[..j]
    ensures IndexOf(s, c) == j
  {
  }

  /** The first piece ends where the first separator is. */
  lemma SplitAtFirst(a: string, sep: char, b: string)
    requires sep !in a
    ensures Split(a + [sep] + b, sep) == [a] + Split(b, sep)
  {
    var s := a + [sep] + b;
    assert s[..|a|] == a && s[|a|] == sep;
    IndexOfAt(s, sep, |a|);
    assert s[|a| + 1..] == b;
  }

  /** `t in s` on strings: `t` occurs in `s` as a contiguous piece. */
  function Contains(s: string, t: string): bool
    decreases |s|
  {
    if |t| > |s| then false
    else if s[..|t|] == t then true
    else Contains(s[1..], t)
  }

  /** `t` occurs in `s` starting at position `i`. */
  predicate OccursAt(s: string, t: string, i: int)
  {
    0 <= i && i + |t| <= |s| && s[i..i + |t|] == t
  }

  /** `Contains` is substring occurrence, in both directions. */
  lemma {:induction false} ContainsOccurrence(s: string, t: string)
    ensures Contains(s, t) <==> exists i :: OccursAt(s, t, i)
    decreases |s|
  {
    if |t| > |s| {
    } else if s[..|t|] == t {
      assert OccursAt(s, t, 0);
    } else {
      ContainsOccurrence(s[1..], t);
      forall i | OccursAt(s, t, i)
        ensures OccursAt(s[1..], t, i - 1)
      {
        assert i != 0;
        assert s[1..][i - 1..i - 1 + |t|] == s[i..i + |t|];
      }
      forall j | OccursAt(s[1..], t, j)
        ensures OccursAt(s, t, j + 1)
      {
        assert s[j + 1..j + 1 + |t|] == s[1..][j..j + |t|];
      }
    }
  }

  /** A non-empty piece can only occur where its first character occurs. */
  lemma ContainsFirstChar(s: string, t: string)
    requires |t| >= 1 && t[0] !in s
    ensures !Contains(s, t)
  {
  }

  // ---------------------------------------------------------------------
  // The binary detector's text
  // ---------------------------------------------------------------------

  datatype Outcome = Cancer | NonCancer

  /**
   * The text `SkinCancerDetector.predict` returns for an outcome and a
   * confidence already printed with two decimals.
   */
  function DetectorOutput(outcome: Outcome, confidence: string): string
  {
    (if outcome == Cancer then "Cancer" else "Non_Cancer") + " (" + confidence + "% confidence)"
  }

  /** A confidence as `%.2f` prints it: digits and a point. */
  predicate Numeral(c: string)
  {
    forall k :: 0 <= k < |c| ==> c[k] in "0123456789."
  }

  lemma NumeralHasNo(c: string, x: char)
    requires Numeral(c) && x !in "0123456789."
    ensures x !in c
  {
  }

  /** `is_cancer`: the text mentions "Cancer" and does not mention "Non_Cancer". */
  function IsCancer(result: string): bool
  {
    Contains(result, "Cancer") && !Contains(result, "Non_Cancer")
  }

  /**
   * The errors `index()` raises on a text it cannot take apart: the IndexError
   * of `split("(")[1]` and the ValueError of `float()`.
   */
  datatype Failure = NoOpeningParenthesis | NotAFloat(text: string)

  /**
   * `binary_result.split("(")[1].split("%")[0]`: the text from the first '('
   * up to the next '(' or '%'. Without a '(' the index 1 is out of range.
   */
  function ConfidenceText(result: string): Result<string, Failure>
  {
    var parts := Split(result, '(');
    if |parts| < 2 then Err(NoOpeningParenthesis) else Ok(Split(parts[1], '%')[0])
  }

  /**
   * The confidence text fails exactly when there is no '('; otherwise it is
   * the longest piece right after the first '(' that holds neither '(' nor '%'.
   */
  lemma ConfidenceTextMeaning(result: string)
    ensures ConfidenceText(result).Err? <==> '(' !in result
    ensures '(' in result ==>
      var start := IndexOf(result, '(') + 1;
      var t := ConfidenceText(result).value;
      && start + |t| <= |result|
      && result[start..start + |t|] == t
      && '(' !in t && '%' !in t
      && (start + |t| == |result| || result[start + |t|] in "(%")
  {
  }

  /** The first piece of a split is a prefix, followed by the separator or the end. */
  lemma SplitPrefix(s: string, sep: char)
    ensures var p := Split(s, sep)[0];
      |p| <= |s| && s[..|p|] == p && sep !in p && (|p| == |s| || s[|p|] == sep)
  {
  }

  /** Texts from the Cancer branch of the detector parse as cancer, those from the other branch do not. */
  lemma IsCancerOfDetectorOutput(outcome: Outcome, confidence: string)
    requires Numeral(confidence)
    ensures IsCancer(DetectorOutput(outcome, confidence)) <==> outcome == Cancer
  {
    var s := DetectorOutput(outcome, confidence);
    if outcome == Cancer {
      assert OccursAt(s, "Cancer", 0);
      ContainsOccurrence(s, "Cancer");
      NumeralHasNo(confidence, 'N');
      assert 'N' !in s;
      ContainsFirstChar(s, "Non_Cancer");
    } else {
      assert OccursAt(s, "Non_Cancer", 0);
      ContainsOccurrence(s, "Non_Cancer");
    }
  }

  /** The label and the opening parenthesis of a detector output. */
  function OutcomeName(outcome: Outcome): string
  {
    if outcome == Cancer then "Cancer " else "Non_Cancer "
  }

  lemma DetectorOutputShape(outcome: Outcome, confidence: string)
    ensures DetectorOutput(outcome, confidence) ==
      OutcomeName(outcome) + ['('] + (confidence + ['%'] + " confidence)")
    ensures '(' !in OutcomeName(outcome)
  {
  }

  lemma TailSplit(confidence: string)
    requires '(' !in confidence && '%' !in confidence
    ensures Split(confidence + ['%'] + " confidence)", '(') == [confidence + ['%'] + " confidence)"]
    ensures Split(confidence + ['%'] + " confidence)", '%')[0] == confidence
  {
  }

  /** The confidence text of a detector output is the printed confidence. */
  lemma ConfidenceOfDetectorOutput(outcome: Outcome, confidence: string)
    requires '(' !in confidence && '%' !in confidence
    ensures ConfidenceText(DetectorOutput(outcome, confidence)) == Ok(confidence)
  {
    var tail := confidence + ['%'] + " confidence)";
    DetectorOutputShape(outcome, confidence);
    SplitAtFirst(OutcomeName(outcome), '(', tail);
    TailSplit(confidence);
  }

  // ---------------------------------------------------------------------
  // The handler
  // ---------------------------------------------------------------------

  datatype HttpMethod = Get | Post

  /** What `index()` reads from the request: the method and the filename of the "image" part, if sent. */
  datatype Request = Request(verb: HttpMethod, image: Option<string>)

  /** The class name and printed confidence the multiclass predictor reports. */
  datatype Diagnosis = Diagnosis(className: string, confidence: string)

  /** The template `index()` renders, with its arguments. */
  datatype Page =
    | IndexPage
    | ResultPage(binaryResult: string, binaryConfidence: string, prediction: string,
                 confidence: string, imagePath: string, timestamp: string, isCancer: bool)

  /** `if file:` — an upload part counts only with a non-empty filename. */
  predicate Uploaded(image: Option<string>)
  {
    image.Some? && image.value != ""
  }

  /** Where the result page finds the saved upload, relative to the static folder. */
  function ImagePath(filename: string): string
  {
    "uploads/" + filename
  }

  const BenignPrediction: string := "Benign / Non-Cancerous"

  /**
   * `index()`: `detected` is what the binary detector returns for the saved
   * file, `diagnosis` what the multiclass predictor would return for it,
   * `timestamp` the formatted current time, and `twoDecimals` the text
   * `f"{float(t):.2f}"` of a text `t`, or `None` where `float(t)` fails.
   */
  function Index(request: Request, detected: string, diagnosis: Diagnosis, timestamp: string,
                 twoDecimals: string -> Option<string>): Result<Page, Failure>
  {
    if request.verb != Post || !Uploaded(request.image) then Ok(IndexPage)
    else
      var isCancer := IsCancer(detected);
      match ConfidenceText(detected)
      case Err(e) => Err(e)
      case Ok(text) =>
        match twoDecimals(text)
        case None => Err(NotAFloat(text))
        case Some(confidence) =>
          var path := ImagePath(request.image.value);
          if isCancer then
            Ok(ResultPage("Cancer Detected", confidence + "%", diagnosis.className,
                          diagnosis.confidence + "%", path, timestamp, true))
          else
            Ok(ResultPage("No Cancer Detected", confidence + "%", BenignPrediction,
                          confidence + "%", path, timestamp, false))
  }

  /** A GET, or a POST without a named file, renders the upload page; anything else does not. */
  lemma IndexPageCases(request: Request, detected: string, diagnosis: Diagnosis, timestamp: string,
                       twoDecimals: string -> Option<string>)
    ensures Index(request, detected, diagnosis, timestamp, twoDecimals) == Ok(IndexPage) <==>
      request.verb == Get || !Uploaded(request.image)
  {
  }

  /**
   * With a file, the handler fails exactly when the detector text has no '('
   * (an IndexError) or `float()` rejects the piece after it (a ValueError).
   */
  lemma IndexFailureCases(request: Request, detected: string, diagnosis: Diagnosis, timestamp: string,
                          twoDecimals: string -> Option<string>)
    requires request.verb == Post && Uploaded(request.image)
    ensures var r := Index(request, detected, diagnosis, timestamp, twoDecimals);
      && (r == Err(NoOpeningParenthesis) <==> '(' !in detected)
      && (r.Err? <==> '(' !in detected || twoDecimals(ConfidenceText(detected).value).None?)
      && ('(' in detected && r.Err? ==> r.error == NotAFloat(ConfidenceText(detected).value))
  {
    ConfidenceTextMeaning(detected);
  }

  /**
   * With a file and a parsable text, the result page shows the upload under
   * uploads/, the re-printed binary confidence, and takes the multiclass
   * branch exactly when `is_cancer` holds; the benign branch repeats the
   * binary confidence and does not depend on the multiclass predictor at all.
   */
  lemma ResultPageFields(request: Request, detected: string, diagnosis: Diagnosis, timestamp: string,
                         twoDecimals: string -> Option<string>)
    requires request.verb == Post && Uploaded(request.image) && '(' in detected
    requires twoDecimals(ConfidenceText(detected).value).Some?
    ensures var r := Index(request, detected, diagnosis, timestamp, twoDecimals);
      && r.Ok? && r.value.ResultPage?
      && r.value.imagePath == "uploads/" + request.image.value
      && r.value.binaryConfidence == twoDecimals(ConfidenceText(detected).value).value + "%"
      && r.value.isCancer == IsCancer(detected)
      && (r.value.isCancer ==> r.value.prediction == diagnosis.className)
      && (!r.value.isCancer ==>
            r.value.prediction == BenignPrediction && r.value.confidence == r.value.binaryConfidence)
    ensures !IsCancer(detected) ==>
      forall other: Diagnosis :: Index(request, detected, other, timestamp, twoDecimals) ==
        Index(request, detected, diagnosis, timestamp, twoDecimals)
  {
  }

  /**
   * End to end: a detector output for a named upload yields the page of its
   * outcome, given that `float()` and `:.2f` give back the two-decimal text
   * the detector printed.
   */
  lemma IndexOfDetectorOutput(filename: string, outcome: Outcome, confidence: string, diagnosis: Diagnosis,
                              timestamp: string, twoDecimals: string -> Option<string>)
    requires filename != "" && Numeral(confidence) && twoDecimals(confidence) == Some(confidence)
    ensures Index(Request(Post, Some(filename)), DetectorOutput(outcome, confidence), diagnosis, timestamp, twoDecimals) ==
      if outcome == Cancer then
        Ok(ResultPage("Cancer Detected", confidence + "%", diagnosis.className, diagnosis.confidence + "%",
                      "uploads/" + filename, timestamp, true))
      else
        Ok(ResultPage("No Cancer Detected", confidence + "%", BenignPrediction, confidence + "%",
                      "uploads/" + filename, timestamp, false))
  {
    IsCancerOfDetectorOutput(outcome, confidence);
    NumeralHasNo(confidence, '(');
    NumeralHasNo(confidence, '%');
    ConfidenceOfDetectorOutput(outcome, confidence);
  }
}
