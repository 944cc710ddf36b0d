/**
 * Few-shot examples drawn from a table: one example per row, holding that
 * row's text as its only text and an empty placeholder summary.
 */
module FewShot {
  import opened Wrappers
  import opened Frames

  /** `{"texts": [row[text_column]], "summary": ""}`. */
  datatype FewShotExample = FewShotExample(texts: seq<Cell>, summary: string)

  /**
   * `prepare_few_shot_examples`: the loop over `df.iterrows()`. A missing
   * column raises only when a row is read, so a table without rows yields
   * no examples whatever the column.
   */
  method PrepareFewShotExamples(df: Table, textColumn: string) returns (r: Result<seq<FewShotExample>, Error>)
    requires WellFormed(df)
    ensures r.Failure? <==> |df.rows| > 0 && textColumn !in df.columns
    ensures r.Failure? ==> r.error == KeyError(textColumn)
    ensures r.Success? ==> |r.value| == |df.rows|
    ensures r.Success? ==> forall i :: 0 <= i < |df.rows| ==>
              r.value[i].texts == [df.rows[i][textColumn]] && r.value[i].summary == ""
  {
    var examples: seq<FewShotExample> := [];
    for i := 0 to |df.rows|
      invariant |examples| == i
      invariant textColumn !in df.columns ==> i == 0
      invariant forall k :: 0 <= k < i ==>
                  textColumn in df.rows[k] && examples[k].texts == [df.rows[k][textColumn]] && examples[k].summary == ""
    {
      var row := df.rows[i];
      if textColumn !in row {
        return Failure(KeyError(textColumn));
      }
      examples := examples + [FewShotExample([row[textColumn]], "")];
    }
    r := Success(examples);
  }
}
