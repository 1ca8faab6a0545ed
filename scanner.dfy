/** The scanner screen: the live category summary over the history, and the
    upload handler that asks the classifier and, only on success, adds a
    scored entry to the history. */
module Scanner {
  import opened Types
  import opened Scoring
  import opened HistoryStore
  import Profile

  /** The three percentages the summary cards show. */
  datatype Summary = Summary(recyclable: int, organic: int, hazardous: int)

  /** The `Summary` stats: with an empty history all three are 0 and nothing
      is divided; otherwise the entries whose category is exactly
      Recyclable, Organic or Hazardous are counted (General Waste and a
      missing category are skipped) and each count becomes a rounded
      percentage of the history length. */
  method SummaryStats(h: seq<HistoryItem>) returns (s: Summary)
    ensures h == [] ==> s == Summary(0, 0, 0)
    ensures h != [] ==>
      && s.recyclable == Percent(CountOf(h, Recyclable), |h|)
      && s.organic == Percent(CountOf(h, Organic), |h|)
      && s.hazardous == Percent(CountOf(h, Hazardous), |h|)
    ensures 0 <= s.recyclable <= 100 && 0 <= s.organic <= 100 && 0 <= s.hazardous <= 100
  {
    var total := |h|;
    if total == 0 {
      return Summary(0, 0, 0);
    }
    var recyclable, organic, hazardous := 0, 0, 0;
    var i := 0;
    while i < total
      invariant 0 <= i <= total
      invariant recyclable == CountOf(h[..i], Recyclable)
      invariant organic == CountOf(h[..i], Organic)
      invariant hazardous == CountOf(h[..i], Hazardous)
    {
      assert h[..i + 1][..i] == h[..i];
      var category := h[i].result.category;
      if category == Some(Recyclable) {
        recyclable := recyclable + 1;
      } else if category == Some(Organic) {
        organic := organic + 1;
      } else if category == Some(Hazardous) {
        hazardous := hazardous + 1;
      }
      i := i + 1;
    }
    assert h[..total] == h;
    PercentRange(recyclable, total);
    PercentRange(organic, total);
    PercentRange(hazardous, total);
    s := Summary(Percent(recyclable, total), Percent(organic, total), Percent(hazardous, total));
  }

  /** The three counted categories together never exceed the history: what
      is missing is exactly the General Waste count (missing categories
      included). */
  lemma SummaryCountsBounded(h: seq<HistoryItem>)
    ensures CountOf(h, Recyclable) + CountOf(h, Organic) + CountOf(h, Hazardous)
      == |h| - CountOf(h, GeneralWaste)
    ensures CountOf(h, Recyclable) + CountOf(h, Organic) + CountOf(h, Hazardous) <= |h|
  {
    Profile.CountsSumToLength(h);
  }

  /** The image preview: the raw base64 payload and its data URI. */
  datatype Preview = Preview(data: string, uri: string)

  /** What the classifier call produced: a verdict, or an error with a
      message (possibly empty). */
  datatype AnalysisOutcome = Analyzed(result: AnalysisResult) | Failed(message: string)

  const DefaultError: string := "Failed to analyze image. Please try again."

  function DataUri(base64Data: string, mimeType: string): string {
    "data:" + mimeType + ";base64," + base64Data
  }

  /** `e.message || 'Failed to analyze image. Please try again.'` */
  function ErrorText(message: string): (text: string)
    ensures text != ""
    ensures message != "" ==> text == message
    ensures message == "" ==> text == DefaultError
  {
    if message != "" then message else DefaultError
  }

  /** What the scanner hands to the history for a verdict: the image, the
      verdict and its points. */
  function DraftFor(uri: string, result: AnalysisResult): Draft {
    Draft(uri, result, Points(result.recyclabilityScore))
  }

  class ScannerView {
    var image: Option<Preview>
    var isLoading: bool
    var result: Option<AnalysisResult>
    var error: Option<string>

    constructor ()
      ensures image == None && !isLoading && result == None && error == None
    {
      image, isLoading, result, error := None, false, None, None;
    }

    /** `handleImageUpload`: the classifier's outcome, the id and the
        timestamp the history callback would generate are parameters. The
        history grows only when the analysis succeeds; a failure only sets
        the error message. */
    method HandleImageUpload(base64Data: string, mimeType: string, outcome: AnalysisOutcome,
                             store: Store, id: string, timestamp: string)
      requires store.Valid()
      modifies this, store
      ensures store.Valid()
      ensures image == Some(Preview(base64Data, DataUri(base64Data, mimeType)))
      ensures !isLoading
      ensures outcome.Analyzed? ==>
        && result == Some(outcome.result)
        && error == None
        && store.items == Append(old(store.items), DraftFor(DataUri(base64Data, mimeType), outcome.result), id, timestamp)
      ensures outcome.Failed? ==>
        && result == None
        && error == Some(ErrorText(outcome.message))
        && store.items == old(store.items)
    {
      var fullDataUri := DataUri(base64Data, mimeType);
      image := Some(Preview(base64Data, fullDataUri));
      isLoading := true;
      result := None;
      error := None;
      match outcome {
        case Analyzed(analysisResult) =>
          result := Some(analysisResult);
          store.Add(DraftFor(fullDataUri, analysisResult), id, timestamp);
        case Failed(message) =>
          error := Some(ErrorText(message));
      }
      isLoading := false;
    }

    /** `handleScanAgain`: back to the upload view. */
    method ScanAgain()
      modifies this
      ensures result == None && image == None && error == None && isLoading == old(isLoading)
    {
      result, image, error := None, None, None;
    }
  }
}
