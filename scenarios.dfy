/** The pipeline's behaviour on the sample frame its unit tests use. */
module Scenarios {
  import opened Wrappers
  import opened Headers
  import opened Pipeline

  /** The three-state sample: rank, state, state code, 2020 census, percent of total. */
  function SampleRows(): seq<Row> {
    [ [Some(Num(1)), Some(Text("California")), Some(Text("CA")), Some(Num(39538223)), Some(Other(0))],
      [Some(Num(2)), Some(Text("Texas")), Some(Text("TX")), Some(Num(29145505)), Some(Other(1))],
      [Some(Num(3)), Some(Text("Florida")), Some(Text("FL")), Some(Num(21538187)), Some(Other(2))] ]
  }

  function SampleColumns(): seq<string> {
    ["rank", "state", "state_code", "2020_census", "percent_of_total"]
  }

  /** The sample with the second rank missing and a space after every header. */
  // With a missing rank, pandas stores `rank` as float64 (1.0, NaN, 3.0); it stays `Num` here because `rank` is never summed.
  function SampleWithIssues(): Table {
    var rows := SampleRows();
    Table([ "rank ", "state ", "state_code ", "2020_census ", "percent_of_total "],
          [rows[0], rows[1][0 := None], rows[2]])
  }

  /** Cleaning drops the one row with a missing rank and keeps the other two as they were. */
  lemma CleanSampleRows()
    ensures |CleanData(SampleWithIssues()).rows| == 2
    ensures CleanData(SampleWithIssues()).rows == [SampleRows()[0], SampleRows()[2]]
  {
    var rows := SampleWithIssues().rows;
    assert Complete(rows[2]);
    assert DropMissing(rows[2..]) == [rows[2]] by {
      assert rows[2..][1..] == [];
    }
    assert rows[1][0] == None;
    assert DropMissing(rows[1..]) == [rows[2]] by {
      assert rows[1..][1..] == rows[2..];
    }
    assert Complete(rows[0]);
  }

  /** Cleaning turns `"rank "` into `"rank"`, and likewise for every sample header. */
  lemma CleanSampleHeaders()
    ensures CleanData(SampleWithIssues()).columns == SampleColumns()
  {
    var t := SampleWithIssues();
    var want := SampleColumns();
    forall i | 0 <= i < 5 ensures IsNormalized(want[i]) && t.columns[i] == want[i] + " " {
    }
    forall i | 0 <= i < 5 ensures Normalize(t.columns[i]) == want[i] {
      TrailingSpaceRemoved(want[i]);
    }
  }

  /** Every sample row has one cell per sample column. */
  lemma SampleWellFormed()
    ensures WellFormed(Table(SampleColumns(), SampleRows()))
  {
    var rows := SampleRows();
    assert |rows[0]| == |rows[1]| == |rows[2]| == 5;
  }

  /** The census cells of the sample add up to 90221915. */
  lemma SampleCensusSum()
    ensures forall r :: r in SampleRows() ==> 3 < |r|
    ensures NumericAt(SampleRows(), 3)
    ensures ColumnSum(SampleRows(), 3) == 90221915
  {
    var rows := SampleRows();
    assert |rows[0]| == |rows[1]| == |rows[2]| == 5;
    assert rows[0][3] == Some(Num(39538223));
    assert rows[1][3] == Some(Num(29145505));
    assert rows[2][3] == Some(Num(21538187));
    assert ColumnSum(rows[2..], 3) == 21538187 by {
      assert rows[2..][1..] == [];
    }
    assert ColumnSum(rows[1..], 3) == 29145505 + 21538187 by {
      assert rows[1..][1..] == rows[2..];
    }
  }

  /** The sample's census total is 39538223 + 29145505 + 21538187 = 90221915. */
  lemma ProcessSample()
    ensures WellFormed(Table(SampleColumns(), SampleRows()))
    ensures ProcessData(Table(SampleColumns(), SampleRows())).Ok?
    ensures Total(Table(SampleColumns(), SampleRows())) == 90221915
  {
    var t := Table(SampleColumns(), SampleRows());
    SampleWellFormed();
    SampleCensusSum();
    LookupFinds(t.columns, CensusColumn, 3);
    assert Wrap64(90221915) == 90221915;
  }

  /** Without a `2020_census` column the pipeline fails with the missing-column error. */
  lemma MissingCensusColumn()
    ensures CleanThenProcess(Table(["State", "Population"], [])) == Err(ColumnNotFound(CensusColumn))
  {
    var t := Table(["State", "Population"], []);
    forall i | 0 <= i < |t.columns| ensures Normalize(t.columns[i]) != CensusColumn {
      assert |t.columns[i]| < |CensusColumn|;
    }
  }

  /** Two headers that both normalise to `2020_census` make the lookup ambiguous after cleaning. */
  lemma CollidingCensusHeaders()
    ensures CleanThenProcess(Table(["2020 Census", "2020_census"], [])) == Err(DuplicateColumn(CensusColumn))
  {
    var t := Table(["2020 Census", "2020_census"], []);
    CensusHeadersCollide();
    var cleaned := CleanData(t);
    assert cleaned.columns[0] == Normalize("2020 Census") == CensusColumn;
    assert cleaned.columns[1] == Normalize("2020_census") == CensusColumn;
    LookupAmbiguous(cleaned.columns, CensusColumn, 0, 1);
  }
}
