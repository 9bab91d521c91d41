/** The feature table that api_commit writes the consensus into: the rows
    of the workbook, each a map from column name to cell, as pandas holds
    them after ensure_excel_with_features. */
module FeatureStore {
  import opened Wrappers

  datatype Cell = Blank | Text(text: string) | Number(n: int)

  type Row = map<string, Cell>

  const FEATURE_ID: string := "Feature ID"

  /** `df["Feature ID"] == fid` for one row. */
  predicate OfFeature(row: Row, featureId: string) {
    FEATURE_ID in row && row[FEATURE_ID] == Text(featureId)
  }

  /** The consensus entries among the given columns. */
  function Restrict(consensus: map<string, Option<int>>, cols: set<string>): map<string, Option<int>> {
    map c | c in consensus && c in cols :: consensus[c]
  }

  /** A row after the whole commit: in a row of the feature, every existing
      column with a consensus value holds that value; all else is kept. */
  function CommittedRow(row: Row, consensus: map<string, Option<int>>, featureId: string): Row {
    if OfFeature(row, featureId) then
      map c | c in row :: if c in consensus && consensus[c].Some? then Number(consensus[c].value) else row[c]
    else row
  }

  /** The commit writes only consensus values, only into rows of the
      feature and only into columns the row has. */
  lemma CommitWritesOnlyConsensus(row: Row, consensus: map<string, Option<int>>, featureId: string)
    ensures CommittedRow(row, consensus, featureId).Keys == row.Keys
    ensures !OfFeature(row, featureId) ==> CommittedRow(row, consensus, featureId) == row
    ensures forall c :: c in row && CommittedRow(row, consensus, featureId)[c] != row[c] ==>
      && OfFeature(row, featureId) && c in consensus && consensus[c].Some?
      && CommittedRow(row, consensus, featureId)[c] == Number(consensus[c].value)
  {
  }

  /** Committing the same consensus twice is committing it once, as long as
      the consensus does not rewrite the column that selects the rows. */
  lemma CommitIdempotent(row: Row, consensus: map<string, Option<int>>, featureId: string)
    requires FEATURE_ID !in consensus
    ensures CommittedRow(CommittedRow(row, consensus, featureId), consensus, featureId)
         == CommittedRow(row, consensus, featureId)
  {
    if OfFeature(row, featureId) {
      assert OfFeature(CommittedRow(row, consensus, featureId), featureId);
    }
  }

  /** Writing one more consensus column is one pandas `loc` assignment on
      the rows of the feature. */
  lemma CommitStep(row: Row, consensus: map<string, Option<int>>, done: set<string>, col: string, featureId: string)
    requires col in consensus && col !in done && FEATURE_ID !in consensus
    ensures var before := CommittedRow(row, Restrict(consensus, done), featureId);
      CommittedRow(row, Restrict(consensus, done + {col}), featureId)
        == if col in before && consensus[col].Some? && OfFeature(before, featureId)
           then before[col := Number(consensus[col].value)]
           else before
  {
    var before := CommittedRow(row, Restrict(consensus, done), featureId);
    var after := CommittedRow(row, Restrict(consensus, done + {col}), featureId);
    if OfFeature(row, featureId) {
      assert OfFeature(before, featureId);
      if col in before && consensus[col].Some? {
        assert after == before[col := Number(consensus[col].value)];
      } else {
        assert after == before;
      }
    } else {
      assert !OfFeature(before, featureId);
    }
  }

  /** The rows of the workbook. Every row has exactly the table's columns,
      among them "Feature ID". */
  class FeatureTable {
    var columns: set<string>
    var rows: seq<Row>

    ghost predicate Valid()
      reads this
    {
      FEATURE_ID in columns && forall j :: 0 <= j < |rows| ==> rows[j].Keys == columns
    }

    constructor (columns: set<string>, rows: seq<Row>)
      requires FEATURE_ID in columns && forall j :: 0 <= j < |rows| ==> rows[j].Keys == columns
      ensures Valid() && this.columns == columns && this.rows == rows
    {
      this.columns := columns;
      this.rows := rows;
    }

    /** `df.loc[df["Feature ID"] == featureId, col] = Number(v)` on a copy
        of the rows, for a column the table already has. */
    static method WriteColumn(df: seq<Row>, featureId: string, col: string, v: int) returns (out: seq<Row>)
      requires forall j :: 0 <= j < |df| ==> col in df[j]
      ensures |out| == |df|
      ensures forall j :: 0 <= j < |df| ==>
        out[j] == if OfFeature(df[j], featureId) then df[j][col := Number(v)] else df[j]
    {
      out := df;
      var j := 0;
      while j < |out|
        invariant 0 <= j <= |out| == |df|
        invariant forall k :: 0 <= k < j ==>
          out[k] == if OfFeature(df[k], featureId) then df[k][col := Number(v)] else df[k]
        invariant forall k :: j <= k < |out| ==> out[k] == df[k]
      {
        if OfFeature(out[j], featureId) {
          out := out[j := out[j][col := Number(v)]];
        }
        j := j + 1;
      }
    }

    /** The commit loop of api_commit, then the write-back of the workbook:
        when the write-back succeeds (`saved`) the rows become the committed
        rows, otherwise the stored rows stay as they were. */
    method Commit(featureId: string, consensus: map<string, Option<int>>, saved: bool) returns (ok: bool)
      requires Valid() && FEATURE_ID !in consensus
      modifies this
      ensures Valid() && columns == old(columns)
      ensures ok == saved
      ensures saved ==> |rows| == |old(rows)|
      ensures saved ==> forall j :: 0 <= j < |rows| ==> rows[j] == CommittedRow(old(rows)[j], consensus, featureId)
      ensures !saved ==> rows == old(rows)
    {
      var df := rows;
      var pending := consensus.Keys;
      var done: set<string> := {};
      while pending != {}
        invariant columns == old(columns) && rows == old(rows)
        invariant pending + done == consensus.Keys && pending !! done
        invariant |df| == |rows|
        invariant forall j :: 0 <= j < |df| ==> df[j] == CommittedRow(rows[j], Restrict(consensus, done), featureId)
        invariant forall j :: 0 <= j < |df| ==> df[j].Keys == columns
        decreases |pending|
      {
        var col :| col in pending;
        var val := consensus[col];
        forall j | 0 <= j < |df|
          ensures CommittedRow(rows[j], Restrict(consensus, done + {col}), featureId)
            == if col in df[j] && val.Some? && OfFeature(df[j], featureId)
               then df[j][col := Number(val.value)] else df[j]
        {
          CommitStep(rows[j], consensus, done, col, featureId);
        }
        if col in columns && val.Some? {
          df := WriteColumn(df, featureId, col, val.value);
        }
        done := done + {col};
        pending := pending - {col};
      }
      assert Restrict(consensus, done) == consensus;
      if saved {
        rows := df;
      }
      ok := saved;
    }
  }
}
