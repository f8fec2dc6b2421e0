/** The header and row loop of `main` (main.py:110-131) over rows the CSV
    reader has already split into cells. The output file is the sequence
    of rows handed to `writer.writerow`, in order. */
module Pipeline {
  import opened Detector
  import opened Fabricator
  import opened Options

  type Row = seq<string>

  /** `header.index(name)`: the first position holding `name`, or `None`
      where Python raises `ValueError`. */
  function ColumnIndex(header: Row, name: string): (r: Option<nat>)
    ensures r.None? <==> name !in header
    ensures r.Some? ==> r.value < |header| && header[r.value] == name
    ensures r.Some? ==> forall j :: 0 <= j < r.value ==> header[j] != name
  {
    if header == [] then None
    else if header[0] == name then Some(0)
    else match ColumnIndex(header[1..], name)
      case None => None
      case Some(i) => Some(i + 1)
  }

  /** One pass of the loop body (main.py:120-131): a row too short for the
      column is written as it is (`IndexError`), a fabricator that raises
      leaves the row as it is (`Exception`), and otherwise the cell at
      `idx` is replaced by the fabricated value for the cell and its
      detected tag. */
  function MaskRow(row: Row, idx: nat, faker: Outcome<Generator>): (r: Row)
    ensures |r| == |row|
    ensures forall j :: 0 <= j < |row| && j != idx ==> r[j] == row[j]
    ensures idx >= |row| || faker.Raised? ==> r == row
    ensures idx < |row| && faker.Returned? ==> r[idx] == FabricateWith(row[idx], Detect(row[idx]), faker.value)
  {
    if idx >= |row| then row
    else match Fabricate(row[idx], Detect(row[idx]), faker)
      case Raised => row
      case Returned(v) => row[idx := v]
  }

  /** How a run ends: the data rows were processed, the input had no
      header row (`next(reader)` raises `StopIteration`, caught by the
      outer handler), or the header lacks the column (`sys.exit(1)`). */
  datatype Status = Completed | NoHeader | ColumnMissing

  function ExitCode(s: Status): (code: nat)
    ensures code == 0 <==> s == Completed
    ensures s != Completed ==> code == 1
  {
    if s == Completed then 0 else 1
  }

  /** Reads `input` (header first), writes `written`. `fakers(i)` is what
      `Faker(locale)` yields while data row `i` is processed. The header is
      written before the column is looked up, so it is written even when
      the column is missing; no data row is written in that case. */
  method MaskTable(input: seq<Row>, column: string, fakers: nat -> Outcome<Generator>)
    returns (written: seq<Row>, status: Status)
    ensures input == [] ==> written == [] && status == NoHeader
    ensures input != [] && column !in input[0] ==> written == [input[0]] && status == ColumnMissing
    ensures input != [] && column in input[0] ==>
      status == Completed && written == MaskedTable(input, ColumnIndex(input[0], column).value, fakers)
  {
    if input == [] {
      return [], NoHeader;
    }
    var header := input[0];
    written := [header];
    assert input[..1] == [header];
    var found := ColumnIndex(header, column);
    if found.None? {
      return written, ColumnMissing;
    }
    var idx := found.value;
    var i := 1;
    while i < |input|
      invariant 1 <= i <= |input|
      invariant written == MaskedTable(input[..i], idx, fakers)
    {
      assert input[..i + 1][..i] == input[..i];
      written := written + [MaskRow(input[i], idx, fakers(i))];
      i := i + 1;
    }
    assert input[..i] == input;
    status := Completed;
  }

  /** The table that a completed run writes, one row at a time. */
  function MaskedTable(input: seq<Row>, idx: nat, fakers: nat -> Outcome<Generator>): (out: seq<Row>)
    requires input != []
    ensures |out| == |input| && out[0] == input[0]
    ensures forall i :: 1 <= i < |input| ==> out[i] == MaskRow(input[i], idx, fakers(i))
  {
    if |input| == 1 then input
    else
      var out := MaskedTable(input[..|input| - 1], idx, fakers) + [MaskRow(input[|input| - 1], idx, fakers(|input| - 1))];
      out
  }

  /** The shape a completed run preserves: as many rows as were read, in
      the same order, each row as long as before and equal to it outside
      the masked column; rows too short for the column are unchanged. */
  lemma MaskedTableShape(input: seq<Row>, idx: nat, fakers: nat -> Outcome<Generator>)
    requires input != []
    ensures var out := MaskedTable(input, idx, fakers);
      |out| == |input| && out[0] == input[0] &&
      (forall i :: 0 <= i < |input| ==> |out[i]| == |input[i]|) &&
      (forall i, j :: 0 <= i < |input| && 0 <= j < |input[i]| && j != idx ==> out[i][j] == input[i][j]) &&
      (forall i :: 0 <= i < |input| && |input[i]| <= idx ==> out[i] == input[i])
  {
    var out := MaskedTable(input, idx, fakers);
    forall i | 1 <= i < |input|
      ensures |out[i]| == |input[i]|
      ensures forall j :: 0 <= j < |input[i]| && j != idx ==> out[i][j] == input[i][j]
      ensures |input[i]| <= idx ==> out[i] == input[i]
    {
      assert out[i] == MaskRow(input[i], idx, fakers(i));
    }
  }

  /** When `Faker(locale)` raises for every row, the output is the input. */
  lemma NoFakerKeepsTable(input: seq<Row>, idx: nat, fakers: nat -> Outcome<Generator>)
    requires input != []
    requires forall i :: 1 <= i < |input| ==> fakers(i).Raised?
    ensures MaskedTable(input, idx, fakers) == input
  {
    var out := MaskedTable(input, idx, fakers);
    forall i | 1 <= i < |input|
      ensures out[i] == input[i]
    {
      assert out[i] == MaskRow(input[i], idx, fakers(i));
    }
  }
}
