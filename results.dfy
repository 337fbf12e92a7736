/** The search-results page: the list of connection summaries it shows. */
module Results {
  import opened Transit
  import opened Utils

  const NoConnections := "No connections found"

  /** The list items: one summary per itinerary, in order, or the single
      placeholder when there is no itinerary. */
  function ResultItems(fmt: TimeFormatter, its: seq<Itinerary>): (items: seq<string>)
    requires forall i :: 0 <= i < |its| ==> |its[i].legs| > 0
    ensures |items| == if its == [] then 1 else |its|
    ensures its == [] ==> items == [NoConnections]
    ensures forall i :: 0 <= i < |its| ==> items[i] == Summary(fmt, its[i])
  {
    var summaries := ExtractItinerarySummaries(fmt, its);
    if |summaries| > 0 then summaries else [NoConnections]
  }

  /** `itemCount`: the number of list items, never zero. */
  function ItemCount(fmt: TimeFormatter, its: seq<Itinerary>): (n: nat)
    requires forall i :: 0 <= i < |its| ==> |its[i].legs| > 0
    ensures n == |ResultItems(fmt, its)|
    ensures n >= 1 && (its != [] ==> n == |its|)
  {
    |ResultItems(fmt, its)|
  }
}
