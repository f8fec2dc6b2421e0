/** The name of the output file (main.py:100): the `-o` argument when it
    is given and not empty, otherwise the input path with every `.csv`
    replaced by `_masked.csv`. */
module Paths {
  import opened Text
  import opened Options

  /** `csv_file.replace(".csv", "_masked.csv")`. */
  function DefaultOutputPath(csvFile: string): string {
    ReplaceAll(csvFile, ".csv", "_masked.csv")
  }

  /** `args.output_file or <default>`: `None` and the empty string both
      select the default. */
  function OutputPath(csvFile: string, outputFile: Option<string>): (r: string)
    ensures outputFile.Some? && outputFile.value != [] ==> r == outputFile.value
    ensures outputFile.None? || outputFile.value == [] ==> r == DefaultOutputPath(csvFile)
  {
    if outputFile.Some? && outputFile.value != [] then outputFile.value
    else DefaultOutputPath(csvFile)
  }

  /** The default name equals the input name exactly when the input has no
      `.csv` anywhere in it (such as `data.txt`); the tool then opens the
      input file for writing as well. */
  lemma DefaultUnchanged(csvFile: string)
    ensures DefaultOutputPath(csvFile) == csvFile <==> forall k: nat :: !OccursAt(csvFile, ".csv", k)
  {
    if forall k: nat :: !OccursAt(csvFile, ".csv", k) {
      ReplaceAbsent(csvFile, ".csv", "_masked.csv");
    } else {
      var k: nat :| OccursAt(csvFile, ".csv", k);
      ReplaceGrows(csvFile, ".csv", "_masked.csv", k);
    }
  }

  /** Every `.csv` is rewritten: the text on either side of one is
      rewritten on its own. `.csv` cannot overlap itself, so no occurrence
      straddles the boundary. */
  lemma {:induction false} SplitAtCsv(x: string, y: string)
    ensures DefaultOutputPath(x + ".csv" + y) == DefaultOutputPath(x) + "_masked.csv" + DefaultOutputPath(y)
    decreases |x|
  {
    var s := x + ".csv" + y;
    if x == [] {
      assert s == ".csv" + y && s[..4] == ".csv" && s[4..] == y;
    } else if |x| >= 4 {
      assert s[..4] == x[..4];
      if x[..4] == ".csv" {
        assert s[4..] == x[4..] + ".csv" + y;
        SplitAtCsv(x[4..], y);
      } else {
        assert s[1..] == x[1..] + ".csv" + y;
        SplitAtCsv(x[1..], y);
      }
    } else {
      assert s[..4][|x|] == '.' && ".csv"[|x|] != '.';
      assert s[1..] == x[1..] + ".csv" + y;
      SplitAtCsv(x[1..], y);
      assert x == [x[0]] + x[1..];
    }
  }

  /** A trailing `.csv` becomes `_masked.csv` and the rest of the name is
      rewritten on its own. */
  lemma DefaultAppendCsv(stem: string)
    ensures DefaultOutputPath(stem + ".csv") == DefaultOutputPath(stem) + "_masked.csv"
  {
    SplitAtCsv(stem, []);
    assert stem + ".csv" + [] == stem + ".csv";
  }

  /** `a.csv` becomes `a_masked.csv`. */
  lemma SimpleExample()
    ensures DefaultOutputPath("a.csv") == "a_masked.csv"
  {
    assert "a.csv" == "a" + ".csv";
    DefaultAppendCsv("a");
  }

  /** Not only a trailing `.csv` is rewritten: for names free of `.csv`,
      `x.csv.y` becomes `x_masked.csv.y` (`data.csv.bak` becomes
      `data_masked.csv.bak`), and `x.csv.csv` becomes
      `x_masked.csv_masked.csv`. */
  lemma DefaultInnerCsv(x: string, y: string)
    requires forall k: nat :: !OccursAt(x, ".csv", k)
    requires forall k: nat :: !OccursAt(y, ".csv", k)
    ensures DefaultOutputPath(x + ".csv" + y) == x + "_masked.csv" + y
    ensures DefaultOutputPath(x + ".csv" + ".csv") == x + "_masked.csv" + "_masked.csv"
  {
    DefaultUnchanged(x);
    DefaultUnchanged(y);
    SplitAtCsv(x, y);
    SplitAtCsv(x, ".csv");
    DefaultAppendCsv([]);
    assert [] + ".csv" == ".csv";
  }
}
