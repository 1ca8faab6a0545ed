/** The record model of the waste-sorting app: the classifier's verdict, a
    scan-history entry and the app's views. */
module Types {

  datatype Option<+T> = None | Some(value: T) {
    /** `x ?? d` and `x || d` for a value that is either present or missing. */
    function GetOr(default: T): T {
      match this
      case Some(v) => v
      case None => default
    }
  }

  /** Whether the classifier thinks the item can be recycled. */
  datatype Recyclability = Yes | No | Uncertain

  /** The closed set of waste categories the classifier may return. */
  datatype Category = Recyclable | Organic | Hazardous | GeneralWaste

  /** The classifier's verdict. The category is optional because the result
      is cast from JSON without validation: a missing (falsy) category is
      `None`. The score is meant to lie in 0..100, which nothing checks. */
  datatype AnalysisResult = AnalysisResult(
    itemName: string,
    recyclable: Recyclability,
    category: Option<Category>,
    recyclabilityScore: int,
    instructions: string,
    alternatives: seq<string>,
    ecoFriendlyTip: string)

  /** The score range the classifier's schema describes. */
  predicate ScoreInRange(r: AnalysisResult) {
    0 <= r.recyclabilityScore <= 100
  }

  /** One entry of the scan history. */
  datatype HistoryItem = HistoryItem(
    id: string,
    image: string,
    result: AnalysisResult,
    timestamp: string,
    points: int)

  /** What the scanner hands to the history: an entry without id and timestamp. */
  datatype Draft = Draft(image: string, result: AnalysisResult, points: int)

  datatype AppView = Welcome | Scanner | History | Map | Profile

  /** The category an entry is counted under in the profile: a missing
      category falls back to General Waste. */
  function EffectiveCategory(item: HistoryItem): Category {
    item.result.category.GetOr(GeneralWaste)
  }

  /** Number of entries counted under category `c` (recursive on the last
      entry, the order in which a left-to-right fold meets them). */
  function CountOf(h: seq<HistoryItem>, c: Category): (n: nat)
    ensures n <= |h|
  {
    if h == [] then 0
    else CountOf(h[..|h| - 1], c) + (if EffectiveCategory(h[|h| - 1]) == c then 1 else 0)
  }
}
