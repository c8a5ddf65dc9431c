/**
 * The training-log sorter of the differential-drive experiments
 * (`smooth-diff-drive/src/sorting.py`): it reads every second line of the log,
 * takes the number written between the last space before the first comma and
 * that comma, drops `NaN` losses, and lists the rows by ascending loss.
 *
 * The log file is a sequence of lines.  `float(num_string)` is the parameter
 * `parse`: `None` when Python raises `ValueError`, otherwise the value it
 * reads.  An exception ends the script; it is the `Err` outcome.
 */
module LogSorting {
  import opened Wrappers

  /** `Row`: ordered by `loss` alone, since `index` has `compare=False`. */
  datatype Row = Row(loss: real, index: int)

  /** The exceptions the script can raise on a line. */
  datatype LogError =
    | NoComma    // `line.index(',')` raises `ValueError`
    | NoSpace    // `raise Exception("No Space")`
    | BadNumber  // `float(num_string)` raises `ValueError`

  /** `s.index(c)`: the first position of `c`, or `None` where Python raises. */
  function IndexOf(s: string, c: char): (r: Option<nat>)
    ensures r.None? <==> c !in s
    ensures r.Some? ==> r.value < |s| && s[r.value] == c && forall j :: 0 <= j < r.value ==> s[j] != c
    decreases |s|
  {
    if s == [] then None
    else if s[0] == c then Some(0)
    else match IndexOf(s[1..], c)
      case None => None
      case Some(k) => Some(k + 1)
  }

  /** The backward scan `for j in range(k - 1, -1, -1)`: the last space before position `k`. */
  function LastSpaceBefore(line: string, k: nat): (r: Option<nat>)
    requires k <= |line|
    ensures r.None? <==> forall j :: 0 <= j < k ==> line[j] != ' '
    ensures r.Some? ==> r.value < k && line[r.value] == ' ' && forall j :: r.value < j < k ==> line[j] != ' '
    decreases k
  {
    if k == 0 then None
    else if line[k - 1] == ' ' then Some(k - 1)
    else LastSpaceBefore(line, k - 1)
  }

  /** `c` is the position of the first comma of `line`. */
  ghost predicate FirstComma(line: string, c: int)
  {
    0 <= c < |line| && line[c] == ',' && forall j :: 0 <= j < c ==> line[j] != ','
  }

  /** `sp` is the position of the last space before position `c`. */
  ghost predicate LastSpace(line: string, c: int, sp: int)
    requires 0 <= c <= |line|
  {
    0 <= sp < c && line[sp] == ' ' && forall j :: sp < j < c ==> line[j] != ' '
  }

  /** `num_string`, or the exception raised while looking for it. */
  function Token(line: string): Result<string, LogError>
  {
    match IndexOf(line, ',')
    case None => Err(NoComma)
    case Some(c) =>
      match LastSpaceBefore(line, c)
      case None => Err(NoSpace)
      case Some(sp) => Ok(line[sp + 1..c])
  }

  /** A line without a comma raises `ValueError`. */
  lemma TokenNoComma(line: string)
    ensures Token(line) == Err(NoComma) <==> ',' !in line
  {
  }

  /**
   * With a first comma at `c`, the script raises "No Space" exactly when no
   * space comes before `c` (in particular when `c` is 0); otherwise the number
   * text is what lies strictly between the last such space and the comma.
   */
  lemma TokenBetween(line: string, c: int)
    requires FirstComma(line, c)
    ensures Token(line) == Err(NoSpace) <==> forall j :: 0 <= j < c ==> line[j] != ' '
    ensures forall sp :: LastSpace(line, c, sp) ==> Token(line) == Ok(line[sp + 1..c])
  {
    assert IndexOf(line, ',') == Some(c);
    forall sp | LastSpace(line, c, sp)
      ensures Token(line) == Ok(line[sp + 1..c])
    {
      assert LastSpaceBefore(line, c) == Some(sp);
    }
  }

  /**
   * One parsed line, `i` being its position in the file: no row for `NaN`,
   * otherwise a row numbered `int(i / 2) + 1`.
   */
  function ParseLine(line: string, i: nat, parse: string -> Option<real>): (r: Result<Option<Row>, LogError>)
    ensures r.Ok? && r.value.Some? ==> r.value.value.index == i / 2 + 1
  {
    match Token(line)
    case Err(e) => Err(e)
    case Ok(t) =>
      if t == "NaN" then Ok(None)
      else match parse(t)
        case None => Err(BadNumber)
        case Some(loss) => Ok(Some(Row(loss, i / 2 + 1)))
  }

  /**
   * The text `NaN` gives no row, a text `float()` rejects raises, and any
   * other text gives the row of the value `float()` reads.
   */
  lemma ParseLineOutcomes(line: string, i: nat, parse: string -> Option<real>)
    ensures ParseLine(line, i, parse) == Ok(None) <==> Token(line) == Ok("NaN")
    ensures ParseLine(line, i, parse) == Err(BadNumber) <==>
            Token(line).Ok? && Token(line).value != "NaN" && parse(Token(line).value).None?
    ensures ParseLine(line, i, parse).Ok? && ParseLine(line, i, parse).value.Some? ==>
            Token(line).Ok? && parse(Token(line).value) == Some(ParseLine(line, i, parse).value.value.loss)
    ensures Token(line).Err? ==> ParseLine(line, i, parse) == Err(Token(line).error)
  {
  }

  /**
   * The rows of the lines read so far (`rows` before `rows.sort()`), or the
   * first exception raised.  The first line and every second one after it
   * are skipped.
   */
  function ParseLines(lines: seq<string>, parse: string -> Option<real>): Result<seq<Row>, LogError>
    decreases |lines|
  {
    if lines == [] then Ok([])
    else
      var i := |lines| - 1;
      match ParseLines(lines[..i], parse)
      case Err(e) => Err(e)
      case Ok(rows) =>
        if i % 2 == 0 then Ok(rows)
        else match ParseLine(lines[i], i, parse)
          case Err(e) => Err(e)
          case Ok(None) => Ok(rows)
          case Ok(Some(row)) => Ok(rows + [row])
  }

  /** Once a line raises, later lines change nothing: the script has stopped. */
  lemma {:induction false} ErrorStops(lines: seq<string>, k: nat, parse: string -> Option<real>)
    requires k <= |lines| && ParseLines(lines[..k], parse).Err?
    ensures ParseLines(lines, parse) == ParseLines(lines[..k], parse)
    decreases |lines| - k
  {
    if k < |lines| {
      assert lines[..k + 1][..k] == lines[..k];
      ErrorStops(lines, k + 1, parse);
    } else {
      assert lines[..k] == lines;
    }
  }

  /**
   * The script runs to the end exactly when no odd-numbered line raises;
   * otherwise it raises what the first such line raises.
   */
  lemma {:induction false} ParseLinesOutcome(lines: seq<string>, parse: string -> Option<real>)
    ensures ParseLines(lines, parse).Ok? <==>
            forall i :: 0 <= i < |lines| && i % 2 == 1 ==> ParseLine(lines[i], i, parse).Ok?
    ensures ParseLines(lines, parse).Err? ==>
            exists i :: 0 <= i < |lines| && i % 2 == 1 && ParseLine(lines[i], i, parse) == Err(ParseLines(lines, parse).error) &&
                        forall j :: 0 <= j < i && j % 2 == 1 ==> ParseLine(lines[j], j, parse).Ok?
    decreases |lines|
  {
    if lines != [] {
      var i := |lines| - 1;
      var init := lines[..i];
      ParseLinesOutcome(init, parse);
      assert forall j :: 0 <= j < i ==> init[j] == lines[j];
    }
  }

  /** Line `i` is an odd-numbered line of the log and gives `row`. */
  ghost predicate Produces(lines: seq<string>, i: int, parse: string -> Option<real>, row: Row)
  {
    0 <= i < |lines| && i % 2 == 1 && ParseLine(lines[i], i, parse) == Ok(Some(row))
  }

  /** The line that row `k` comes from. */
  lemma {:induction false} RowSource(lines: seq<string>, parse: string -> Option<real>, k: nat) returns (i: int)
    requires ParseLines(lines, parse).Ok? && k < |ParseLines(lines, parse).value|
    ensures Produces(lines, i, parse, ParseLines(lines, parse).value[k])
    decreases |lines|
  {
    var n := |lines| - 1;
    var init := lines[..n];
    var rows := ParseLines(init, parse).value;
    if k < |rows| {
      i := RowSource(init, parse, k);
      assert init[i] == lines[i];
    } else {
      i := n;
    }
  }

  /** Each row comes from an odd-numbered line. */
  lemma RowsFromOddLines(lines: seq<string>, parse: string -> Option<real>)
    requires ParseLines(lines, parse).Ok?
    ensures forall row :: row in ParseLines(lines, parse).value ==> exists i :: Produces(lines, i, parse, row)
  {
    var rows := ParseLines(lines, parse).value;
    forall row | row in rows
      ensures exists i :: Produces(lines, i, parse, row)
    {
      var k :| 0 <= k < |rows| && rows[k] == row;
      var i := RowSource(lines, parse, k);
    }
  }

  /** Every odd-numbered line that gives a row has its row listed. */
  lemma {:induction false} OddRowsListed(lines: seq<string>, parse: string -> Option<real>)
    requires ParseLines(lines, parse).Ok?
    ensures forall i, row :: Produces(lines, i, parse, row) ==> row in ParseLines(lines, parse).value
    decreases |lines|
  {
    if lines != [] {
      var n := |lines| - 1;
      var init := lines[..n];
      OddRowsListed(init, parse);
      var rows := ParseLines(init, parse).value;
      var rows' := ParseLines(lines, parse).value;
      assert forall x :: x in rows ==> x in rows';
      forall i, row | Produces(lines, i, parse, row)
        ensures row in rows'
      {
        if i < n {
          assert init[i] == lines[i];
          assert Produces(init, i, parse, row);
        }
      }
    }
  }

  /**
   * The rows keep the order of their lines and record their positions, so
   * no line gives two rows: the row numbers increase and lie in [1, n / 2].
   */
  lemma {:induction false} RowNumbersIncrease(lines: seq<string>, parse: string -> Option<real>)
    requires ParseLines(lines, parse).Ok?
    ensures var rows := ParseLines(lines, parse).value;
            (forall k, l :: 0 <= k < l < |rows| ==> rows[k].index < rows[l].index) &&
            (forall k :: 0 <= k < |rows| ==> 1 <= rows[k].index <= |lines| / 2)
    decreases |lines|
  {
    if lines != [] {
      var i := |lines| - 1;
      RowNumbersIncrease(lines[..i], parse);
    }
  }

  /** The line at an even position is never looked at: replacing it changes nothing. */
  lemma {:induction false} EvenLinesIgnored(lines: seq<string>, i: nat, other: string, parse: string -> Option<real>)
    requires i < |lines| && i % 2 == 0
    ensures ParseLines(lines[i := other], parse) == ParseLines(lines, parse)
    decreases |lines|
  {
    var n := |lines| - 1;
    var lines' := lines[i := other];
    if i < n {
      assert lines'[..n] == lines[..n][i := other];
      assert lines'[n] == lines[n];
      EvenLinesIgnored(lines[..n], i, other, parse);
    } else {
      assert lines'[..n] == lines[..n];
    }
  }

  /** `space_i`: the backward scan over `line[comma_i - 1]`, …, `line[0]`. */
  method FindSpace(line: string, comma: nat) returns (r: Option<nat>)
    requires comma <= |line|
    ensures r == LastSpaceBefore(line, comma)
  {
    var j := comma;
    while j > 0
      invariant 0 <= j <= comma
      invariant LastSpaceBefore(line, comma) == LastSpaceBefore(line, j)
    {
      if line[j - 1] == ' ' {
        return Some(j - 1);
      }
      j := j - 1;
    }
    return None;
  }

  /** The body of the loop for a line that is not skipped, `i` being its position. */
  method ReadLine(line: string, i: nat, parse: string -> Option<real>) returns (r: Result<Option<Row>, LogError>)
    ensures r == ParseLine(line, i, parse)
  {
    var n := i / 2;
    var comma := IndexOf(line, ',');
    if comma.None? {
      return Err(NoComma);
    }
    var space := FindSpace(line, comma.value);
    if space.None? {
      return Err(NoSpace);
    }
    var numString := line[space.value + 1..comma.value];
    if numString == "NaN" {
      return Ok(None);
    }
    var loss := parse(numString);
    if loss.None? {
      return Err(BadNumber);
    }
    return Ok(Some(Row(loss.value, n + 1)));
  }

  /** Reading one more line: a skipped line adds nothing, a read line adds its row or stops. */
  lemma ReadOneMore(lines: seq<string>, i: nat, parse: string -> Option<real>, rows: seq<Row>)
    requires i < |lines| && ParseLines(lines[..i], parse) == Ok(rows)
    ensures i % 2 == 0 ==> ParseLines(lines[..i + 1], parse) == Ok(rows)
    ensures i % 2 == 1 && ParseLine(lines[i], i, parse).Err? ==>
              ParseLines(lines[..i + 1], parse) == Err(ParseLine(lines[i], i, parse).error)
    ensures i % 2 == 1 && ParseLine(lines[i], i, parse) == Ok(None) ==> ParseLines(lines[..i + 1], parse) == Ok(rows)
    ensures i % 2 == 1 && ParseLine(lines[i], i, parse).Ok? && ParseLine(lines[i], i, parse).value.Some? ==>
              ParseLines(lines[..i + 1], parse) == Ok(rows + [ParseLine(lines[i], i, parse).value.value])
  {
    assert lines[..i + 1][..i] == lines[..i];
  }

  lemma NextParity(i: nat)
    ensures (i + 1) % 2 == 0 <==> i % 2 == 1
  {
  }

  /** The loop over the lines of the log, with the `skip` flag; `rows` before sorting. */
  method ReadRows(lines: seq<string>, parse: string -> Option<real>) returns (r: Result<seq<Row>, LogError>)
    ensures r == ParseLines(lines, parse)
  {
    var skip := true;
    var rows: seq<Row> := [];
    var i := 0;
    while i < |lines|
      invariant 0 <= i <= |lines|
      invariant skip <==> i % 2 == 0
      invariant ParseLines(lines[..i], parse) == Ok(rows)
    {
      ReadOneMore(lines, i, parse, rows);
      NextParity(i);
      if skip {
        skip := false;
        i := i + 1;
        continue;
      }
      skip := true;
      var row := ReadLine(lines[i], i, parse);
      if row.Err? {
        ErrorStops(lines, i + 1, parse);
        return Err(row.error);
      }
      if row.value.Some? {
        rows := rows + [row.value.value];
      }
      i := i + 1;
    }
    assert lines[..i] == lines;
    return Ok(rows);
  }

  /** Rows in ascending loss, as `rows.sort()` leaves them. */
  ghost predicate Sorted(rows: seq<Row>)
  {
    forall k, l :: 0 <= k < l < |rows| ==> rows[k].loss <= rows[l].loss
  }

  /** The rows whose loss is `v`, in their order: what a stable sort keeps. */
  function WithLoss(rows: seq<Row>, v: real): (r: seq<Row>)
    ensures forall k :: 0 <= k < |r| ==> r[k].loss == v
    decreases |rows|
  {
    if rows == [] then []
    else (if rows[0].loss == v then [rows[0]] else []) + WithLoss(rows[1..], v)
  }

  lemma {:induction false} WithLossAppend(a: seq<Row>, b: seq<Row>, v: real)
    ensures WithLoss(a + b, v) == WithLoss(a, v) + WithLoss(b, v)
    decreases |a|
  {
    if a == [] {
      assert a + b == b;
    } else {
      assert (a + b)[1..] == a[1..] + b;
      WithLossAppend(a[1..], b, v);
    }
  }

  lemma {:induction false} WithLossNone(rows: seq<Row>, v: real)
    requires forall k :: 0 <= k < |rows| ==> rows[k].loss != v
    ensures WithLoss(rows, v) == []
    decreases |rows|
  {
    if rows != [] {
      WithLossNone(rows[1..], v);
    }
  }

  /** `row` placed after every row of `rows` whose loss is not greater than its own. */
  function Insert(rows: seq<Row>, row: Row): seq<Row>
    decreases |rows|
  {
    if rows == [] then [row]
    else if row.loss < rows[0].loss then [row] + rows
    else [rows[0]] + Insert(rows[1..], row)
  }

  /** Inserting adds exactly that row, once, and nothing else. */
  lemma {:induction false} InsertContents(rows: seq<Row>, row: Row)
    ensures multiset(Insert(rows, row)) == multiset(rows) + multiset{row}
    ensures |Insert(rows, row)| == |rows| + 1
    ensures forall x :: x in Insert(rows, row) <==> x == row || x in rows
    decreases |rows|
  {
    if rows != [] && row.loss >= rows[0].loss {
      InsertContents(rows[1..], row);
      assert rows == [rows[0]] + rows[1..];
    }
    forall x
      ensures x in Insert(rows, row) <==> x == row || x in rows
    {
      assert x in Insert(rows, row) <==> x in multiset(Insert(rows, row));
      assert x in rows <==> x in multiset(rows);
    }
  }

  /** Inserting into sorted rows keeps them sorted. */
  lemma {:induction false} InsertSorted(rows: seq<Row>, row: Row)
    requires Sorted(rows)
    ensures Sorted(Insert(rows, row))
    decreases |rows|
  {
    if rows != [] && row.loss >= rows[0].loss {
      var tail := Insert(rows[1..], row);
      InsertSorted(rows[1..], row);
      InsertContents(rows[1..], row);
      forall k | 0 <= k < |tail|
        ensures rows[0].loss <= tail[k].loss
      {
        if tail[k] != row {
          assert tail[k] in rows[1..];
        }
      }
    }
  }

  /** Inserting into sorted rows puts the new row after the ones with the same loss. */
  lemma {:induction false} InsertStable(rows: seq<Row>, row: Row, v: real)
    requires Sorted(rows)
    ensures WithLoss(Insert(rows, row), v) == WithLoss(rows, v) + (if row.loss == v then [row] else [])
    decreases |rows|
  {
    if rows == [] {
    } else if row.loss < rows[0].loss {
      assert ([row] + rows)[1..] == rows;
      if row.loss == v {
        WithLossNone(rows, v);
      }
    } else {
      var tail := Insert(rows[1..], row);
      assert ([rows[0]] + tail)[1..] == tail;
      InsertStable(rows[1..], row, v);
    }
  }

  /** `rows.sort()`: a stable sort by loss, taking the rows in their order. */
  function SortRows(rows: seq<Row>): seq<Row>
    decreases |rows|
  {
    if rows == [] then [] else Insert(SortRows(rows[..|rows| - 1]), rows[|rows| - 1])
  }

  /** The sorted rows are in ascending loss and are the same rows, each as often. */
  lemma {:induction false} SortRowsSorted(rows: seq<Row>)
    ensures Sorted(SortRows(rows))
    ensures multiset(SortRows(rows)) == multiset(rows)
    decreases |rows|
  {
    if rows != [] {
      var init := rows[..|rows| - 1];
      SortRowsSorted(init);
      InsertSorted(SortRows(init), rows[|rows| - 1]);
      InsertContents(SortRows(init), rows[|rows| - 1]);
      assert rows == init + [rows[|rows| - 1]];
    }
  }

  /** The sort is stable: rows with equal loss keep the order they were read in. */
  lemma {:induction false} SortRowsStable(rows: seq<Row>, v: real)
    ensures WithLoss(SortRows(rows), v) == WithLoss(rows, v)
    decreases |rows|
  {
    if rows != [] {
      var init, last := rows[..|rows| - 1], rows[|rows| - 1];
      calc {
        WithLoss(SortRows(rows), v);
        WithLoss(Insert(SortRows(init), last), v);
        { SortRowsSorted(init); InsertStable(SortRows(init), last, v); }
        WithLoss(SortRows(init), v) + (if last.loss == v then [last] else []);
        { SortRowsStable(init, v); }
        WithLoss(init, v) + (if last.loss == v then [last] else []);
        { assert [last][1..] == []; WithLossAppend(init, [last], v); }
        WithLoss(init + [last], v);
        { assert rows == init + [last]; }
        WithLoss(rows, v);
      }
    }
  }

  /** The whole script: the rows it prints, in order, or the exception that stops it. */
  method SortLog(lines: seq<string>, parse: string -> Option<real>) returns (r: Result<seq<Row>, LogError>)
    ensures r.Err? <==> ParseLines(lines, parse).Err?
    ensures r.Err? ==> r.error == ParseLines(lines, parse).error
    ensures r.Ok? ==> r.value == SortRows(ParseLines(lines, parse).value)
  {
    var rows := ReadRows(lines, parse);
    if rows.Err? {
      return rows;
    }
    return Ok(SortRows(rows.value));
  }
}
