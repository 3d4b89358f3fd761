/**
 The timetable scraper of main.py (`get_timetable`): the first table of the
 fetched page becomes one record per data row, keyed by the table's header
 texts when they fit the row and by synthetic `col1..colN` keys otherwise.
 */
module Table {
  import opened Common
  import opened Strings
  import opened Dom
  import Dict
  import Portal

  /** One scraped record: column label to cell text. */
  type Row = map<string, string>

  /** The response body of the timetable endpoint: `count` and the records. */
  datatype Timetable = Timetable(count: nat, rows: seq<Row>)

  /** The pairs produced by Python's `zip(a, b)`, which stops at the shorter input. */
  function Zip(a: seq<string>, b: seq<string>): (ps: Dict.Pairs)
    ensures |ps| == if |a| <= |b| then |a| else |b|
    ensures forall i :: 0 <= i < |ps| ==> ps[i] == (a[i], b[i])
  {
    seq(if |a| <= |b| then |a| else |b|, i requires 0 <= i < |a| && i < |b| => (a[i], b[i]))
  }

  /** `dict(zip(headers, values))`. */
  function HeaderRow(headers: seq<string>, values: seq<string>): Row
  {
    Dict.FromPairs(Zip(headers, values))
  }

  /** The synthetic key `f"col{i}"`. */
  function ColKey(i: nat): string
  {
    "col" + NatToDecimal(i)
  }

  /** Synthetic keys of distinct positions are distinct. */
  lemma ColKeyInjective(i: nat, j: nat)
    requires ColKey(i) == ColKey(j)
    ensures i == j
  {
    assert ColKey(i)[3..] == NatToDecimal(i);
    assert ColKey(j)[3..] == NatToDecimal(j);
    NatToDecimalInjective(i, j);
  }

  /** The pairs of `{f"col{i}": v for i, v in enumerate(values, start=1)}`. */
  function ColPairs(values: seq<string>): Dict.Pairs
  {
    seq(|values|, i requires 0 <= i < |values| => (ColKey(i + 1), values[i]))
  }

  function ColRow(values: seq<string>): Row
  {
    Dict.FromPairs(ColPairs(values))
  }

  /** A row is keyed by the headers exactly when there are headers and as many as cells. */
  predicate HeaderKeyed(headers: seq<string>, values: seq<string>)
  {
    |headers| > 0 && |values| == |headers|
  }

  /** The record built from one row's cell texts. */
  function BuildRow(headers: seq<string>, values: seq<string>): Row
  {
    if HeaderKeyed(headers, values) then HeaderRow(headers, values) else ColRow(values)
  }

  /**
   A header-keyed record has the headers as its keys; each header holds the
   cell at its position, the last one winning among duplicate headers, so
   there are at most as many keys as headers.
   */
  lemma HeaderRowSpec(headers: seq<string>, values: seq<string>)
    requires |values| == |headers|
    ensures HeaderRow(headers, values).Keys == set i | 0 <= i < |headers| :: headers[i]
    ensures forall i :: 0 <= i < |headers| && (forall j :: i < j < |headers| ==> headers[j] != headers[i]) ==>
      HeaderRow(headers, values)[headers[i]] == values[i]
    ensures |HeaderRow(headers, values)| <= |headers|
  {
    var ps := Zip(headers, values);
    Dict.FromPairsKeys(ps);
    assert Dict.Names(ps) == set i | 0 <= i < |headers| :: headers[i] by {
      forall k | k in Dict.Names(ps) ensures k in set i | 0 <= i < |headers| :: headers[i] {
        var i :| 0 <= i < |ps| && ps[i].0 == k;
        assert headers[i] == k;
      }
      forall k | k in set i | 0 <= i < |headers| :: headers[i] ensures k in Dict.Names(ps) {
        var i :| 0 <= i < |headers| && headers[i] == k;
        assert ps[i].0 == k;
      }
    }
    forall i | 0 <= i < |headers| && (forall j :: i < j < |headers| ==> headers[j] != headers[i])
      ensures HeaderRow(headers, values)[headers[i]] == values[i]
    {
      assert Dict.LastFor(ps, i);
      Dict.FromPairsLast(ps, i);
    }
    Dict.FromPairsSize(ps);
  }

  /** The synthetic keys of a row are pairwise distinct. */
  lemma ColPairsDistinct(values: seq<string>)
    ensures var ps := ColPairs(values);
      forall i, j :: 0 <= i < j < |ps| ==> ps[i].0 != ps[j].0
  {
    var ps := ColPairs(values);
    forall i, j | 0 <= i < j < |ps|
      ensures ps[i].0 != ps[j].0
    {
      if ps[i].0 == ps[j].0 {
        ColKeyInjective(i + 1, j + 1);
      }
    }
  }

  lemma ColPairsNames(values: seq<string>)
    ensures Dict.Names(ColPairs(values)) == set i | 1 <= i <= |values| :: ColKey(i)
  {
    var ps := ColPairs(values);
    forall k | k in Dict.Names(ps) ensures k in set i | 1 <= i <= |values| :: ColKey(i) {
      var i :| 0 <= i < |ps| && ps[i].0 == k;
      assert ColKey(i + 1) == k;
    }
    forall k | k in set i | 1 <= i <= |values| :: ColKey(i) ensures k in Dict.Names(ps) {
      var i :| 1 <= i <= |values| && ColKey(i) == k;
      assert ps[i - 1].0 == k;
    }
  }

  /** A fallback record has exactly the keys `col1..colN`, and `col<i>` holds the i-th cell. */
  lemma ColRowSpec(values: seq<string>)
    ensures ColRow(values).Keys == set i | 1 <= i <= |values| :: ColKey(i)
    ensures forall i :: 1 <= i <= |values| ==> ColRow(values)[ColKey(i)] == values[i - 1]
    ensures |ColRow(values)| == |values|
  {
    var ps := ColPairs(values);
    ColPairsDistinct(values);
    Dict.FromPairsKeys(ps);
    ColPairsNames(values);
    forall i | 1 <= i <= |values|
      ensures ColRow(values)[ColKey(i)] == values[i - 1]
    {
      assert Dict.LastFor(ps, i - 1);
      Dict.FromPairsLast(ps, i - 1);
    }
    Dict.FromPairsDistinctSize(ps);
  }

  /**
   The record of one row: header-keyed when `HeaderKeyed`, with each header
   holding the cell at its last position; otherwise keyed by exactly
   `col1..colN` with `col<i>` holding the i-th cell.
   */
  lemma BuildRowSpec(headers: seq<string>, values: seq<string>)
    ensures HeaderKeyed(headers, values) ==>
      && BuildRow(headers, values).Keys == (set i | 0 <= i < |headers| :: headers[i])
      && |BuildRow(headers, values)| <= |headers|
      && forall i :: 0 <= i < |headers| && (forall j :: i < j < |headers| ==> headers[j] != headers[i]) ==>
           BuildRow(headers, values)[headers[i]] == values[i]
    ensures !HeaderKeyed(headers, values) ==>
      && BuildRow(headers, values).Keys == (set i | 1 <= i <= |values| :: ColKey(i))
      && |BuildRow(headers, values)| == |values|
      && forall i :: 1 <= i <= |values| ==> BuildRow(headers, values)[ColKey(i)] == values[i - 1]
  {
    if HeaderKeyed(headers, values) {
      HeaderRowSpec(headers, values);
    } else {
      ColRowSpec(values);
    }
  }

  predicate HasCells(values: seq<string>)
  {
    |values| > 0
  }

  /** The rows that yield a record: those with at least one data cell. */
  function KeptRows(cells: seq<seq<string>>): seq<seq<string>>
  {
    Filter(cells, HasCells)
  }

  /**
   Dropping empty rows keeps every other row, in document order: the filter
   distributes over concatenation and keeps a single row exactly when it has cells.
   */
  lemma KeptRowsSpec(a: seq<seq<string>>, b: seq<seq<string>>, values: seq<string>)
    ensures KeptRows(a + b) == KeptRows(a) + KeptRows(b)
    ensures KeptRows([values]) == if |values| > 0 then [values] else []
    ensures forall k :: 0 <= k < |KeptRows(a)| ==> |KeptRows(a)[k]| > 0
  {
    FilterAppend(a, b, HasCells);
    FilterSingleton(values, HasCells);
  }

  /**
   The row loop of `get_timetable`: one record per row with cells, in order,
   and `count` equal to the number of records.
   */
  method TableToRecords(headers: seq<string>, cells: seq<seq<string>>) returns (t: Timetable)
    ensures t.count == |t.rows|
    ensures |t.rows| == |KeptRows(cells)|
    ensures forall k :: 0 <= k < |t.rows| ==> t.rows[k] == BuildRow(headers, KeptRows(cells)[k])
  {
    var rows: seq<Row> := [];
    for i := 0 to |cells|
      invariant |rows| == |KeptRows(cells[..i])|
      invariant forall k :: 0 <= k < |rows| ==> rows[k] == BuildRow(headers, KeptRows(cells[..i])[k])
    {
      var values := cells[i];
      assert cells[..i + 1] == cells[..i] + [values];
      KeptRowsSpec(cells[..i], [values], values);
      if |values| > 0 {
        rows := rows + [BuildRow(headers, values)];
      }
    }
    assert cells[..|cells|] == cells;
    t := Timetable(|rows|, rows);
  }

  /** `[el.get_text(strip=True) for el in ns]`. */
  function Texts(ns: seq<Node>): (r: seq<string>)
    ensures |r| == |ns|
    ensures forall i :: 0 <= i < |ns| ==> r[i] == ns[i].text
  {
    seq(|ns|, i requires 0 <= i < |ns| => ns[i].text)
  }

  /** The header texts of a table: every `th` below it, wherever it sits. */
  function HeaderTexts(table: Node): seq<string>
  {
    Texts(FindAll(table.children, "th"))
  }

  /** The cell texts of each `tr` below a table, one sequence per row, in document order. */
  function RowCells(table: Node): (r: seq<seq<string>>)
    ensures |r| == |FindAll(table.children, "tr")|
    ensures forall i :: 0 <= i < |r| ==>
      var tr := FindAll(table.children, "tr")[i];
      |r[i]| == |FindAll(tr.children, "td")|
      && forall j :: 0 <= j < |r[i]| ==> r[i][j] == FindAll(tr.children, "td")[j].text
  {
    var trs := FindAll(table.children, "tr");
    seq(|trs|, i requires 0 <= i < |trs| => Texts(FindAll(trs[i].children, "td")))
  }

  /** `req.timetable_url or <default>`. */
  function TimetableUrl(requested: Option<string>): (url: string)
    ensures url != ""
    ensures Truthy(requested) ==> url == requested.value
    ensures !Truthy(requested) ==> url == Portal.DEFAULT_TIMETABLE_URL
  {
    if Truthy(requested) then requested.value else Portal.DEFAULT_TIMETABLE_URL
  }

  /**
   The `/timetable` endpoint. The authenticated fetch is the parameter `fetch`
   (the caller's cookies travel with it). A failed fetch gives 502, a page
   without a table 404, otherwise the records of the page's first table.
   */
  method GetTimetable(requested: Option<string>, fetch: string -> Page) returns (r: Result<Timetable>)
    ensures var page := fetch(TimetableUrl(requested));
      !IsOk(page.status) ==> r == Err(HttpError(502, "Failed to fetch timetable: " + NatToDecimal(page.status)))
    ensures var page := fetch(TimetableUrl(requested));
      IsOk(page.status) && Find(page.doc, "table").None? ==>
        r == Err(HttpError(404, "No table found; verify you are logged in and URL is correct"))
    ensures var page := fetch(TimetableUrl(requested));
      IsOk(page.status) && Find(page.doc, "table").Some? ==>
        var table := Find(page.doc, "table").value;
        var kept := KeptRows(RowCells(table));
        && r.Ok?
        && r.value.count == |r.value.rows| == |kept|
        && forall k :: 0 <= k < |kept| ==> r.value.rows[k] == BuildRow(HeaderTexts(table), kept[k])
  {
    var page := fetch(TimetableUrl(requested));
    if !IsOk(page.status) {
      return Err(HttpError(502, "Failed to fetch timetable: " + NatToDecimal(page.status)));
    }
    match Find(page.doc, "table")
    case None =>
      return Err(HttpError(404, "No table found; verify you are logged in and URL is correct"));
    case Some(table) =>
      var t := TableToRecords(HeaderTexts(table), RowCells(table));
      return Ok(t);
  }
}
