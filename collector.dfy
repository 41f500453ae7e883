/**
 * The run of `main`, with the thread pool replaced by a sequential loop:
 * every line goes through `process_profile_with_retry`, which appends to the
 * shared `all_data` list and advances the progress bar; then the total
 * balance is summed, the rows are fixed up in place and filtered for the CSV.
 */
module Collector {
  import opened Wrappers
  import opened Money
  import opened Text
  import opened SteamId
  import opened Inventory
  import opened Records
  import Fetch

  /** `all_data` and the progress bar's count. */
  class Sink {
    var rows: seq<Record>
    var progress: nat

    constructor ()
      ensures rows == [] && progress == 0
    {
      rows, progress := [], 0;
    }

    /** `process_profile_with_retry`: appends the line's rows, advancing progress once per row. */
    method ProcessProfile(line: string, proxies: seq<string>, excluded: seq<string>, net: AccountNetwork)
      modifies this
      ensures rows == old(rows) + LineRecords(line, |proxies|, excluded, net)
      ensures progress == old(progress) + |LineRecords(line, |proxies|, excluded, net)|
    {
      var url := Strip(line);
      if url == "" {
        return;
      }
      var row := LineRow(url, proxies, excluded, net);
      rows := rows + [row];
      progress := progress + 1;
    }

    /** Lines 226-230: each row's `N/A` value becomes `0.00$`, and a `0.00$` row loses its image. */
    method Fixup()
      modifies this
      ensures rows == FixAll(old(rows)) && progress == old(progress)
    {
      ghost var before := rows;
      var k := 0;
      while k < |rows|
        invariant k <= |rows| == |before|
        invariant forall j :: 0 <= j < k ==> rows[j] == FixRow(before[j])
        invariant forall j :: k <= j < |rows| ==> rows[j] == before[j]
        invariant progress == old(progress)
      {
        var row := rows[k];
        if row.totalValue == NA {
          row := row.(totalValue := ZeroValue);
        }
        if row.totalValue == ZeroValue {
          row := row.(itemImage := None);
        }
        rows := rows[k := row];
        k := k + 1;
      }
    }
  }

  /**
   * Lines 106-166 for a stripped, non-blank line: the row of an invalid URL,
   * of a fetch that gives nothing, or of the fetched payload.
   */
  method LineRow(url: string, proxies: seq<string>, excluded: seq<string>, net: AccountNetwork) returns (row: Record)
    ensures row == Normalize(Classify(url, |proxies|, net), excluded)
  {
    var steamId := ExtractSteamId(url);
    if steamId.None? || steamId.value == "" {
      return Record(NA, ZeroValue, Some(NA));
    }
    var id := steamId.value;
    var inventoryData, _, _, _ := Fetch.GetInventory(proxies, NetworkFor(net, id));
    if inventoryData.None? || !Truthy(inventoryData.value) {
      return Record(id, ZeroValue, Some(NA));
    }
    row := BuildRecord(id, inventoryData.value, excluded);
  }

  /** The rows of all lines, in line order. */
  function AllRecords(lines: seq<string>, proxyCount: nat, excluded: seq<string>, net: AccountNetwork): seq<Record> {
    if lines == [] then []
    else AllRecords(lines[..|lines| - 1], proxyCount, excluded, net) + LineRecords(lines[|lines| - 1], proxyCount, excluded, net)
  }

  function NonBlankCount(lines: seq<string>): nat {
    if lines == [] then 0
    else NonBlankCount(lines[..|lines| - 1]) + (if IsBlank(lines[|lines| - 1]) then 0 else 1)
  }

  /** One row per non-blank line. */
  lemma {:induction false} RowsPerLine(lines: seq<string>, proxyCount: nat, excluded: seq<string>, net: AccountNetwork)
    ensures |AllRecords(lines, proxyCount, excluded, net)| == NonBlankCount(lines)
  {
    if lines != [] {
      RowsPerLine(lines[..|lines| - 1], proxyCount, excluded, net);
    }
  }

  /** Every row of a run satisfies `RecordInvariants`. */
  lemma {:induction false} AllRecordsValid(lines: seq<string>, proxyCount: nat, excluded: seq<string>, net: AccountNetwork)
    ensures forall r :: r in AllRecords(lines, proxyCount, excluded, net) ==>
              && ParseValue(r.totalValue).Some? && r.totalValue != NA && r.itemImage.Some?
              && (r.itemImage == Some(NA) ==> r.totalValue == ZeroValue)
  {
    if lines != [] {
      var last := lines[|lines| - 1];
      AllRecordsValid(lines[..|lines| - 1], proxyCount, excluded, net);
      if !IsBlank(last) {
        RecordInvariants(Classify(Strip(last), proxyCount, net), excluded);
      }
    }
  }

  /** The rows and the count of the first `k + 1` lines extend those of the first `k` by line `k`'s. */
  lemma NextLine(lines: seq<string>, k: nat, proxyCount: nat, excluded: seq<string>, net: AccountNetwork)
    requires k < |lines|
    ensures AllRecords(lines[..k + 1], proxyCount, excluded, net)
         == AllRecords(lines[..k], proxyCount, excluded, net) + LineRecords(lines[k], proxyCount, excluded, net)
    ensures NonBlankCount(lines[..k + 1]) == NonBlankCount(lines[..k]) + |LineRecords(lines[k], proxyCount, excluded, net)|
  {
    assert lines[..k + 1][..k] == lines[..k];
  }

  /** Appending rows in two steps is appending them in one. */
  lemma Associative(a: seq<Record>, b: seq<Record>, c: seq<Record>)
    ensures a + (b + c) == (a + b) + c
  {
  }

  /** The thread pool's work, one submitted line after another. */
  method Dispatch(sink: Sink, lines: seq<string>, proxies: seq<string>, excluded: seq<string>, net: AccountNetwork)
    modifies sink
    ensures sink.rows == old(sink.rows) + AllRecords(lines, |proxies|, excluded, net)
    ensures sink.progress == old(sink.progress) + NonBlankCount(lines)
  {
    var k := 0;
    while k < |lines|
      invariant k <= |lines|
      invariant sink.rows == old(sink.rows) + AllRecords(lines[..k], |proxies|, excluded, net)
      invariant sink.progress == old(sink.progress) + NonBlankCount(lines[..k])
    {
      ghost var rowsBefore, progressBefore := sink.rows, sink.progress;
      sink.ProcessProfile(lines[k], proxies, excluded, net);
      ghost var added := LineRecords(lines[k], |proxies|, excluded, net);
      assert sink.rows == rowsBefore + added && sink.progress == progressBefore + |added|;
      NextLine(lines, k, |proxies|, excluded, net);
      Associative(old(sink.rows), AllRecords(lines[..k], |proxies|, excluded, net), added);
      k := k + 1;
    }
    assert lines[..k] == lines;
  }

  /** Line 232's condition: a row is written unless it is worth `0.00$` and still has an image. */
  predicate Written(r: Record) {
    r.totalValue != ZeroValue || r.itemImage.None?
  }

  /** The row after the fixup of lines 227-230. */
  function FixRow(r: Record): Record {
    var value := if r.totalValue == NA then ZeroValue else r.totalValue;
    Record(r.steamId, value, if value == ZeroValue then None else r.itemImage)
  }

  function FixAll(rows: seq<Record>): seq<Record> {
    seq(|rows|, k requires 0 <= k < |rows| => FixRow(rows[k]))
  }

  /** `[row for row in all_data if …]` with line 232's condition. */
  function CsvRows(rows: seq<Record>): seq<Record> {
    if rows == [] then []
    else CsvRows(rows[..|rows| - 1]) + (if Written(rows[|rows| - 1]) then [rows[|rows| - 1]] else [])
  }

  /** A row's share of `total_balance`: its value unless it is `N/A` or `0.00$`, and none when `float` raises. */
  function RowBalance(r: Record): int {
    if r.totalValue != NA && r.totalValue != ZeroValue then ParseValue(r.totalValue).GetOr(0) else 0
  }

  /** `total_balance`, in cents. */
  function BalanceCents(rows: seq<Record>): int {
    if rows == [] then 0 else BalanceCents(rows[..|rows| - 1]) + RowBalance(rows[|rows| - 1])
  }

  /** Lines 210-215: the loop that sums the total balance. */
  method TotalBalance(rows: seq<Record>) returns (total: int)
    ensures total == BalanceCents(rows)
  {
    total := 0;
    var k := 0;
    while k < |rows|
      invariant k <= |rows|
      invariant total == BalanceCents(rows[..k])
    {
      var row := rows[k];
      assert rows[..k + 1][..k] == rows[..k];
      if row.totalValue != NA && row.totalValue != ZeroValue {
        match ParseValue(row.totalValue) {
          case Some(v) => total := total + v;
          case None =>
        }
      }
      k := k + 1;
    }
    assert rows[..k] == rows;
  }

  /** The filter of line 232 keeps a list all of whose rows pass its condition. */
  lemma {:induction false} CsvRowsKeepsWritten(rows: seq<Record>)
    requires forall k :: 0 <= k < |rows| ==> Written(rows[k])
    ensures CsvRows(rows) == rows
  {
    if rows != [] {
      var init := rows[..|rows| - 1];
      assert forall k :: 0 <= k < |init| ==> init[k] == rows[k];
      CsvRowsKeepsWritten(init);
      assert Written(rows[|rows| - 1]);
      assert CsvRows(rows) == init + [rows[|rows| - 1]];
    }
  }

  /**
   * After the fixup no row is worth `N/A`, every `0.00$` row has no image,
   * a row worth anything else is unchanged, and so the filter of line 232 keeps every row.
   */
  lemma FixupKeepsEveryRow(rows: seq<Record>)
    ensures |FixAll(rows)| == |rows|
    ensures forall k :: 0 <= k < |rows| ==>
              && FixAll(rows)[k].steamId == rows[k].steamId
              && FixAll(rows)[k].totalValue != NA
              && (FixAll(rows)[k].totalValue == ZeroValue ==> FixAll(rows)[k].itemImage.None?)
              && (rows[k].totalValue != NA && rows[k].totalValue != ZeroValue ==> FixAll(rows)[k] == rows[k])
    ensures CsvRows(FixAll(rows)) == FixAll(rows)
  {
    CsvRowsKeepsWritten(FixAll(rows));
  }

  /** The balance printed equals the balance of the rows written to the CSV file. */
  lemma {:induction false} BalanceOfWrittenRows(rows: seq<Record>)
    ensures BalanceCents(rows) == BalanceCents(CsvRows(FixAll(rows)))
  {
    FixupKeepsEveryRow(rows);
    BalanceUnchangedByFix(rows);
  }

  lemma {:induction false} BalanceUnchangedByFix(rows: seq<Record>)
    ensures BalanceCents(FixAll(rows)) == BalanceCents(rows)
  {
    if rows != [] {
      var init := rows[..|rows| - 1];
      BalanceUnchangedByFix(init);
      assert FixAll(rows)[..|rows| - 1] == FixAll(init);
    }
  }

  /**
   * Lines 176-179 and 185-233: the rows written to the CSV file, `None` when no
   * file is written, and the total balance in cents. Without proxies the run
   * stops at once.
   */
  method Report(lines: seq<string>, proxies: seq<string>, excluded: seq<string>, net: AccountNetwork)
    returns (csv: Option<seq<Record>>, balance: int)
    ensures proxies == [] ==> csv == None && balance == 0
    ensures proxies != [] ==>
              var all := AllRecords(lines, |proxies|, excluded, net);
              && balance == BalanceCents(all)
              && csv == (if all == [] then None else Some(FixAll(all)))
              && (csv.Some? ==> |csv.value| == NonBlankCount(lines) && balance == BalanceCents(csv.value))
  {
    if proxies == [] {
      return None, 0;
    }
    var sink := new Sink();
    Dispatch(sink, lines, proxies, excluded, net);
    ghost var all := AllRecords(lines, |proxies|, excluded, net);
    assert sink.rows == all;
    balance := TotalBalance(sink.rows);
    if sink.rows == [] {
      return None, balance;
    }
    sink.Fixup();
    csv := Some(CsvRows(sink.rows));
    assert csv.value == FixAll(all) by {
      FixupKeepsEveryRow(all);
    }
    assert balance == BalanceCents(csv.value) by {
      BalanceOfWrittenRows(all);
    }
    RowsPerLine(lines, |proxies|, excluded, net);
  }
}
