/**
 * The second copy of the partition-registering handler, `scripts/lambda_code.py`.
 * Its key parsing, location and statement are the shared definitions of
 * `LambdaCode`; only the database name and the result location differ.
 */
module ScriptsLambdaCode {
  import opened Wrappers
  import LambdaCode

  /** The settings of `scripts/lambda_code.py`, placeholders as written there. */
  const ScriptsConfig := LambdaCode.Config("your-database-name", "s3://your-output-query-bucket/")

  /** `lambda_handler` of `scripts/lambda_code.py`. */
  function LambdaHandler(event: LambdaCode.Event, athenaAccepts: bool): (inv: LambdaCode.Invocation)
    ensures inv.submitted.Some? <==> |event.records| > 0 && LambdaCode.ParseKey(event.records[0].key).Success?
    ensures inv.submitted.Some? ==>
      var r := event.records[0];
      var p := LambdaCode.ParseKey(r.key).value;
      inv.submitted.value
        == LambdaCode.Submission(LambdaCode.AddPartitionQuery(p, LambdaCode.PartitionLocation(r.bucket, p)),
                                 "your-database-name", "s3://your-output-query-bucket/")
    ensures inv.result.Success? <==> inv.submitted.Some? && athenaAccepts
    ensures inv.result.Success? ==> inv.result.value.statusCode == 200
  {
    LambdaCode.Handle(ScriptsConfig, event, athenaAccepts)
  }

  /**
   * The two handlers return and raise alike and submit the same statement;
   * what they submit differs only in the database and the result location.
   */
  lemma HandlersAgree(event: LambdaCode.Event, athenaAccepts: bool)
    ensures var a, b := LambdaCode.LambdaHandler(event, athenaAccepts), LambdaHandler(event, athenaAccepts);
      a.result == b.result
      && (a.submitted.Some? <==> b.submitted.Some?)
      && (a.submitted.Some? ==>
            b.submitted.value
              == a.submitted.value.(database := "your-database-name", outputLocation := "s3://your-output-query-bucket/"))
  {
  }

  /** Records after the first have no effect on this handler either. */
  lemma ReadsFirstRecordOnly(first: LambdaCode.Record, rest: seq<LambdaCode.Record>, athenaAccepts: bool)
    ensures LambdaHandler(LambdaCode.Event([first] + rest), athenaAccepts)
      == LambdaHandler(LambdaCode.Event([first]), athenaAccepts)
  {
    LambdaCode.HandleReadsFirstRecordOnly(ScriptsConfig, first, rest, athenaAccepts);
  }

  /** A key with too few segments, or a segment 1 to 3 without `=`, raises that key's error and submits nothing. */
  lemma MalformedKeyRaises(event: LambdaCode.Event, athenaAccepts: bool)
    requires |event.records| > 0 && LambdaCode.ParseKey(event.records[0].key).Failure?
    ensures LambdaHandler(event, athenaAccepts)
      == LambdaCode.Invocation(None, Failure(LambdaCode.ParseKey(event.records[0].key).error))
  {
    LambdaCode.MalformedKeySubmitsNothing(ScriptsConfig, event, athenaAccepts);
  }
}
