/**
 * `append_to_csv`: trades are appended to a CSV file as rows of cells, with
 * a header row first when the file did not exist. Files are a map from name
 * to rows; a name missing from the map is a file that does not exist.
 */
module CsvOutput {
  import opened Outcomes
  import opened LunoApi

  type Row = seq<string>

  /** The 13 column names, in the order their cells are written. */
  const Header: Row := [
    "base", "client_order_id", "counter", "fee_base", "fee_counter", "is_buy",
    "order_id", "pair", "price", "sequence", "timestamp", "type", "volume"
  ]

  /** The header has 13 columns, from `base` to `volume`, and names no column twice. */
  lemma HeaderColumns()
    ensures |Header| == 13 && Header[0] == "base" && Header[12] == "volume"
    ensures forall i, j :: 0 <= i < j < |Header| ==> Header[i] != Header[j]
  {
    forall i, j | 0 <= i < j < |Header| ensures Header[i] != Header[j] {
      if i < 7 {
        assert Header[i] == ["base", "client_order_id", "counter", "fee_base", "fee_counter", "is_buy", "order_id"][i];
      } else {
        assert Header[i] == ["pair", "price", "sequence", "timestamp", "type", "volume"][i - 7];
      }
    }
  }

  /** `trade.get(field)`, written as an empty cell when the field is missing. */
  function Cell(trade: Trade, field: string): string {
    if field in trade then trade[field] else ""
  }

  /** The row written for one trade: cell `i` is the trade's value for header column `i`. */
  function TradeRow(trade: Trade): (row: Row)
    ensures |row| == |Header|
  {
    [
      Cell(trade, "base"), Cell(trade, "client_order_id"), Cell(trade, "counter"),
      Cell(trade, "fee_base"), Cell(trade, "fee_counter"), Cell(trade, "is_buy"),
      Cell(trade, "order_id"), Cell(trade, "pair"), Cell(trade, "price"),
      Cell(trade, "sequence"), Cell(trade, "timestamp"), Cell(trade, "type"),
      Cell(trade, "volume")
    ]
  }

  /** Cell `i` of a trade's row is the trade's value for header column `i`, or empty. */
  lemma TradeRowCells(trade: Trade)
    ensures forall i :: 0 <= i < |Header| ==> TradeRow(trade)[i] == Cell(trade, Header[i])
  {
    var row := TradeRow(trade);
    forall i | 0 <= i < |Header| ensures row[i] == Cell(trade, Header[i]) {
      if i < 7 {
        assert Header[i] == ["base", "client_order_id", "counter", "fee_base", "fee_counter", "is_buy", "order_id"][i];
      } else {
        assert Header[i] == ["pair", "price", "sequence", "timestamp", "type", "volume"][i - 7];
      }
    }
  }

  /** Reading a row back under the header: each non-empty cell becomes the field of its column. */
  function RowTrade(row: Row): Trade
    requires |row| == |Header|
  {
    map i | 0 <= i < |Header| && row[i] != "" :: Header[i] := row[i]
  }

  /**
   * A trade whose fields are all header columns with non-empty values is
   * recovered exactly from its row: no field is lost, moved or invented.
   */
  lemma TradeRowRoundTrip(trade: Trade)
    requires forall f :: f in trade ==> f in Header && trade[f] != ""
    ensures RowTrade(TradeRow(trade)) == trade
  {
    var back := RowTrade(TradeRow(trade));
    RowTradeKeeps(trade);
    RowTradeInventsNothing(trade);
    assert back.Keys == trade.Keys;
  }

  /** Every field of a trade whose fields are all header columns is read back with its value. */
  lemma RowTradeKeeps(trade: Trade)
    requires forall f :: f in trade ==> f in Header && trade[f] != ""
    ensures forall f :: f in trade ==> f in RowTrade(TradeRow(trade)) && RowTrade(TradeRow(trade))[f] == trade[f]
  {
    var row := TradeRow(trade);
    TradeRowCells(trade);
    forall f | f in trade ensures f in RowTrade(row) && RowTrade(row)[f] == trade[f] {
      var i :| 0 <= i < |Header| && Header[i] == f;
      assert row[i] == trade[f];
    }
  }

  /** Only the trade's own fields are read back from its row. */
  lemma RowTradeInventsNothing(trade: Trade)
    ensures forall f :: f in RowTrade(TradeRow(trade)) ==> f in trade
  {
    var row := TradeRow(trade);
    TradeRowCells(trade);
    forall f | f in RowTrade(row) ensures f in trade {
      var i :| 0 <= i < |Header| && row[i] != "" && Header[i] == f;
    }
  }

  /** The rows written for a batch, one per trade, in batch order. */
  function Rows(trades: seq<Trade>): (rows: seq<Row>)
    ensures |rows| == |trades|
  {
    if trades == [] then [] else Rows(trades[..|trades| - 1]) + [TradeRow(trades[|trades| - 1])]
  }

  /** Row `k` of a batch is the row of trade `k`. */
  lemma {:induction false} RowsAt(trades: seq<Trade>)
    ensures forall k :: 0 <= k < |trades| ==> Rows(trades)[k] == TradeRow(trades[k])
  {
    if trades != [] {
      var init := trades[..|trades| - 1];
      RowsAt(init);
      assert forall k :: 0 <= k < |init| ==> init[k] == trades[k];
    }
  }

  /** Writing one more trade adds its row at the end. */
  lemma RowsSnoc(trades: seq<Trade>, k: nat)
    requires k < |trades|
    ensures Rows(trades[..k + 1]) == Rows(trades[..k]) + [TradeRow(trades[k])]
  {
    assert trades[..k + 1][..k] == trades[..k];
  }

  /**
   * The file's rows after one `append_to_csv(trades, name)`, given the rows it
   * held before (`None`: it did not exist). Opening in append mode creates it.
   */
  function Appended(prior: Option<seq<Row>>, trades: seq<Trade>): seq<Row> {
    match prior
    case None => [Header] + Rows(trades)
    case Some(rows) => rows + Rows(trades)
  }

  /**
   * One append keeps the old rows as an unchanged prefix, adds the header
   * exactly when the file did not exist, and then one 13-cell row per trade, in order.
   */
  lemma AppendedToExisting(rows: seq<Row>, trades: seq<Trade>)
    ensures |Appended(Some(rows), trades)| == |rows| + |trades|
    ensures Appended(Some(rows), trades)[..|rows|] == rows
    ensures forall k :: 0 <= k < |trades| ==> Appended(Some(rows), trades)[|rows| + k] == TradeRow(trades[k])
  {
    var after := Appended(Some(rows), trades);
    RowsAt(trades);
    assert after == rows + Rows(trades);
    assert after[..|rows|] == rows;
  }

  /** Appending to a file that does not exist writes the header, then one row per trade. */
  lemma AppendedToNew(trades: seq<Trade>)
    ensures |Appended(None, trades)| == 1 + |trades|
    ensures Appended(None, trades)[0] == Header
    ensures forall k :: 0 <= k < |trades| ==> Appended(None, trades)[1 + k] == TradeRow(trades[k])
  {
    RowsAt(trades);
  }

  /** The file after a series of appends, in order. */
  function AppendAll(prior: Option<seq<Row>>, batches: seq<seq<Trade>>): Option<seq<Row>> {
    if batches == [] then prior
    else Some(Appended(AppendAll(prior, batches[..|batches| - 1]), batches[|batches| - 1]))
  }

  /** The data rows of a series of batches, in order. */
  function AllRows(batches: seq<seq<Trade>>): seq<Row> {
    if batches == [] then [] else AllRows(batches[..|batches| - 1]) + Rows(batches[|batches| - 1])
  }

  /** Successive appends to an existing file add only data rows, after the old ones. */
  lemma {:induction false} AppendAllToExisting(rows: seq<Row>, batches: seq<seq<Trade>>)
    ensures AppendAll(Some(rows), batches) == Some(rows + AllRows(batches))
  {
    if batches == [] {
      assert rows + AllRows(batches) == rows;
    } else {
      var init := batches[..|batches| - 1];
      var last := batches[|batches| - 1];
      AppendAllToExisting(rows, init);
      assert AllRows(batches) == AllRows(init) + Rows(last);
      assert rows + AllRows(init) + Rows(last) == rows + AllRows(batches);
    }
  }

  /**
   * Successive appends starting from no file leave exactly one header, at the
   * top, however many batches are appended; no batch leaves no file.
   */
  lemma {:induction false} AppendAllFromNothing(batches: seq<seq<Trade>>)
    ensures batches == [] ==> AppendAll(None, batches) == None
    ensures batches != [] ==> AppendAll(None, batches) == Some([Header] + AllRows(batches))
  {
    if batches != [] {
      var init := batches[..|batches| - 1];
      var last := batches[|batches| - 1];
      assert AllRows(batches) == AllRows(init) + Rows(last);
      if init == [] {
        assert AllRows(batches) == Rows(last);
      } else {
        AppendAllFromNothing(init);
        assert AppendAll(None, batches) == Some(Appended(Some([Header] + AllRows(init)), last));
        assert [Header] + AllRows(init) + Rows(last) == [Header] + AllRows(batches) by {
          SeqAssoc([Header], AllRows(init), Rows(last));
        }
      }
    }
  }

  lemma SeqAssoc(a: seq<Row>, b: seq<Row>, c: seq<Row>)
    ensures a + b + c == a + (b + c)
  {
  }

  /** Storing twice under one name keeps only the second content. */
  lemma StoreTwice(files: map<string, seq<Row>>, name: string, first: seq<Row>, second: seq<Row>)
    ensures files[name := first][name := second] == files[name := second]
  {
  }

  /** The files of the working directory, which `append_to_csv` changes in place. */
  class FileSystem {
    var files: map<string, seq<Row>>

    constructor (initial: map<string, seq<Row>>)
      ensures files == initial
    {
      files := initial;
    }

    /**
     * `append_to_csv(trades, name)`: only the named file changes, and it ends
     * up holding its old rows, the header if it was new, and one row per trade.
     */
    method Append(name: string, trades: seq<Trade>)
      modifies this
      ensures files == old(files)[name := Appended(Lookup(old(files), name), trades)]
    {
      var fileExists := name in files;
      if !fileExists {
        files := files[name := []];
        files := files[name := files[name] + [Header]];
      }
      ghost var start := files[name];
      assert start == (if fileExists then old(files)[name] else [Header]);
      assert files == old(files)[name := start + Rows(trades[..0])] by {
        assert start + Rows(trades[..0]) == start;
      }
      for k := 0 to |trades|
        invariant name in files
        invariant files == old(files)[name := start + Rows(trades[..k])]
      {
        RowsSnoc(trades, k);
        assert start + Rows(trades[..k + 1]) == start + Rows(trades[..k]) + [TradeRow(trades[k])];
        files := files[name := files[name] + [TradeRow(trades[k])]];
        StoreTwice(old(files), name, start + Rows(trades[..k]), start + Rows(trades[..k + 1]));
      }
      assert trades[..|trades|] == trades;
    }
  }
}
