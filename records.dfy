/**
 * The record `process_profile_with_retry` appends for one line of `id.txt`:
 * which outcome the line has (invalid URL, fetch exhausted, payload
 * fetched) and the `{SteamID, TotalValue, ItemImage}` row each outcome gives.
 */
module Records {
  import opened Wrappers
  import opened Text
  import opened Money
  import opened Inventory
  import opened SteamId
  import Fetch

  const NA := "N/A"
  const ZeroValue := "0.00$"

  /** A row of `all_data`; `itemImage` is `None` once the report's fixup has cleared it. */
  datatype Record = Record(steamId: string, totalValue: string, itemImage: Option<string>)

  /** The network seen by every account: the response by steam id, attempt cycle and proxy position. */
  type AccountNetwork = (string, nat, nat) -> Fetch.Response

  /** What the fetch for one line came to. */
  datatype Outcome = InvalidInput | Exhausted(id: string) | Fetched(id: string, body: Body)

  /** The network as `get_inventory_data(steam_id, …)` sees it. */
  function NetworkFor(net: AccountNetwork, id: string): Fetch.Network {
    (c: nat, i: nat) => net(id, c, i)
  }

  /** The zero-value row of an account that has no valuation. */
  function Placeholder(id: string): Record {
    Record(id, ZeroValue, Some(NA))
  }

  /** `sum(float(item.get('totalCashPriceToday', 0)) …)` in cents; `None` when `float` raises on a price. */
  function PriceSum(items: seq<Item>): Option<int> {
    if items == [] then Some(0)
    else
      match PriceSum(items[..|items| - 1])
      case None => None
      case Some(s) =>
        match items[|items| - 1].price
        case Absent => Some(s)
        case Cents(c) => Some(s + c)
        case Malformed => None
  }

  /** Summing raises exactly when some price cannot be read. */
  lemma {:induction false} PriceSumRaises(items: seq<Item>)
    ensures PriceSum(items).None? <==> exists k :: 0 <= k < |items| && items[k].price.Malformed?
  {
    if items != [] {
      var init := items[..|items| - 1];
      PriceSumRaises(init);
      if exists k :: 0 <= k < |init| && init[k].price.Malformed? {
        var k :| 0 <= k < |init| && init[k].price.Malformed?;
        assert items[k] == init[k];
      }
      if exists k :: 0 <= k < |items| && items[k].price.Malformed? {
        var k :| 0 <= k < |items| && items[k].price.Malformed?;
        if k < |init| {
          assert init[k] == items[k];
        }
      }
    }
  }

  /** `parsed_data["items"][0].get('imgURL', 'N/A') if parsed_data["items"] else 'N/A'`. */
  function FirstImage(items: seq<Item>): string {
    if items == [] then NA else items[0].imgURL.GetOr(NA)
  }

  /** Lines 134-166: the row for a truthy fetched payload. */
  function BuildRecord(id: string, body: Body, excluded: seq<string>): Record {
    match ParseInventory(body, excluded)
    case None => Placeholder(id)
    case Some(items) =>
      match PriceSum(items)
      case None => Placeholder(id)
      case Some(total) =>
        var image := FirstImage(items);
        Record(id, FormatCents(if image == NA then 0 else total), Some(image))
  }

  /** The one row each outcome gives. */
  function Normalize(outcome: Outcome, excluded: seq<string>): Record {
    match outcome
    case InvalidInput => Placeholder(NA)
    case Exhausted(id) => Placeholder(id)
    case Fetched(id, body) => BuildRecord(id, body, excluded)
  }

  /**
   * The outcome for a stripped, non-blank line: a missing or empty steam id is
   * invalid input; a fetch that returns nothing or a falsy payload is exhausted.
   */
  function Classify(url: string, proxyCount: nat, net: AccountNetwork): Outcome {
    match ExtractSteamId(url)
    case None => InvalidInput
    case Some(id) =>
      if id == "" then InvalidInput
      else
        match Fetch.Protocol(proxyCount, NetworkFor(net, id))
        case None => Exhausted(id)
        case Some(body) => if Truthy(body) then Fetched(id, body) else Exhausted(id)
  }

  /** The rows `process_profile_with_retry` appends for one line: none for a blank line, one otherwise. */
  function LineRecords(line: string, proxyCount: nat, excluded: seq<string>, net: AccountNetwork): seq<Record> {
    if IsBlank(line) then [] else [Normalize(Classify(Strip(line), proxyCount, net), excluded)]
  }

  /**
   * What every row satisfies: its value reads back as a number of cents and is
   * never `N/A`, it has an image entry, and a row whose image is `N/A` is worth `0.00$`.
   */
  lemma RecordInvariants(outcome: Outcome, excluded: seq<string>)
    ensures var r := Normalize(outcome, excluded);
            && ParseValue(r.totalValue).Some?
            && r.totalValue != NA
            && r.itemImage.Some?
            && (r.itemImage == Some(NA) ==> r.totalValue == ZeroValue)
  {
    FormatZero(0);
    FormatRoundTrip(0);
    if outcome.Fetched? {
      match ParseInventory(outcome.body, excluded)
      case None =>
      case Some(items) =>
        match PriceSum(items)
        case None =>
        case Some(total) =>
          var image := FirstImage(items);
          var cents := if image == NA then 0 else total;
          FormatRoundTrip(cents);
          FormatNeverNA(cents);
    }
  }

  /**
   * The value of a fetched payload whose prices all read: `0.00$` with image
   * `N/A` when nothing is left after filtering or the first item left has no
   * image; otherwise the sum of the prices left, in dollars with two decimals,
   * with the first item's image.
   */
  lemma RecordValue(id: string, body: Body, excluded: seq<string>, total: int)
    requires Truthy(body)
    requires PriceSum(FilterItems(InventoryOf(body), excluded)) == Some(total)
    ensures var items := FilterItems(InventoryOf(body), excluded);
            var r := Normalize(Fetched(id, body), excluded);
            if items == [] || items[0].imgURL.GetOr(NA) == NA then r == Placeholder(id)
            else && r.steamId == id
                 && ParseValue(r.totalValue) == Some(total)
                 && (r.totalValue == ZeroValue <==> total == 0)
                 && r.itemImage == items[0].imgURL
  {
    FormatZero(0);
    FormatZero(total);
    FormatRoundTrip(total);
  }

  /** A fetched payload with an unreadable price left after filtering gives the placeholder row. */
  lemma RecordOnRaise(id: string, body: Body, excluded: seq<string>, k: nat)
    requires Truthy(body)
    requires var items := FilterItems(InventoryOf(body), excluded);
             k < |items| && items[k].price.Malformed?
    ensures Normalize(Fetched(id, body), excluded) == Placeholder(id)
  {
    PriceSumRaises(FilterItems(InventoryOf(body), excluded));
  }

  /** A non-blank line without the profile marker gives the row `{N/A, 0.00$, N/A}`. */
  lemma InvalidLineRecord(line: string, proxyCount: nat, excluded: seq<string>, net: AccountNetwork)
    requires !IsBlank(line) && !Contains(Strip(line), ProfileMarker)
    ensures LineRecords(line, proxyCount, excluded, net) == [Record(NA, ZeroValue, Some(NA))]
  {
  }

  /** A line with a steam id for which no request gets a usable response gives `{id, 0.00$, N/A}`. */
  lemma ExhaustedLineRecord(line: string, proxyCount: nat, excluded: seq<string>, net: AccountNetwork, id: string)
    requires !IsBlank(line) && ExtractSteamId(Strip(line)) == Some(id) && id != ""
    requires forall c: nat, i: nat :: c < Fetch.MaxAttempts && i < proxyCount ==> !Fetch.Usable(net(id, c, i))
    ensures LineRecords(line, proxyCount, excluded, net) == [Record(id, ZeroValue, Some(NA))]
  {
    var network := NetworkFor(net, id);
    forall c: nat, i: nat | c < Fetch.MaxAttempts && i < proxyCount
      ensures !Fetch.Usable(network(c, i))
    {
      assert network(c, i) == net(id, c, i);
    }
    Fetch.ExhaustedIffNoneUsable(proxyCount, network);
  }
}
