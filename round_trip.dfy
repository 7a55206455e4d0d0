/**
 * The upload side and the handler side together: a key built by the upload
 * script is parsed back by either handler to the same year, month and day
 * text, and the partition registered is the directory the log was put in.
 */
module RoundTrip {
  import opened Wrappers
  import opened Text
  import opened Decimal
  import opened UploadLog
  import opened LambdaCode
  import ScriptsLambdaCode

  /** The partition values as the upload key writes them: `str(year)` and two-digit month and day. */
  function KeyPartition(d: Date): Partition
    requires ValidDate(d)
  {
    Partition(Str(d.year), ZeroPad(d.month, 2), ZeroPad(d.day, 2))
  }

  lemma TemplateSegmentsArePairs(year: string, month: string, day: string, stamp: string)
    ensures var segs := TemplateSegments(year, month, day, stamp);
      segs[1] == "year" + "=" + year && segs[2] == "month" + "=" + month && segs[3] == "day" + "=" + day
  {
  }

  /** Any key of the upload template whose fields hold neither `/` nor `=` parses back to those fields. */
  lemma TemplateParses(year: string, month: string, day: string, stamp: string)
    requires '/' !in year && '/' !in month && '/' !in day && '/' !in stamp
    requires '=' !in year && '=' !in month && '=' !in day
    ensures ParseKey(KeyTemplate(year, month, day, stamp)) == Success(Partition(year, month, day))
  {
    KeyTemplateSegments(year, month, day, stamp);
    TemplateSegmentsArePairs(year, month, day, stamp);
    ParseKeyOfFields(KeyTemplate(year, month, day, stamp), "year", year, "month", month, "day", day);
  }

  /** The values the upload key writes are decimal digits that read as the date, month and day in two. */
  lemma KeyPartitionDigits(d: Date)
    requires ValidDate(d)
    ensures var p := KeyPartition(d);
      AllDigits(p.year) && AllDigits(p.month) && AllDigits(p.day)
      && Value(p.year) == d.year && Value(p.month) == d.month && Value(p.day) == d.day
      && |p.month| == 2 && |p.day| == 2
  {
    ZeroPadIsLastDigits(d.month, 2);
    ZeroPadIsLastDigits(d.day, 2);
  }

  /**
   * Parsing the upload key gives back the formatted year, month and day, and
   * those read as numbers are the date the key was built from.
   */
  lemma UploadKeyParses(d: Date)
    requires ValidDate(d)
    ensures ParseKey(S3Key(d)) == Success(KeyPartition(d))
    ensures var p := KeyPartition(d);
      AllDigits(p.year) && AllDigits(p.month) && AllDigits(p.day)
      && Value(p.year) == d.year && Value(p.month) == d.month && Value(p.day) == d.day
      && |p.month| == 2 && |p.day| == 2
  {
    var p := KeyPartition(d);
    KeyPartitionDigits(d);
    NonDigitAbsent(p.year, '/');
    NonDigitAbsent(p.month, '/');
    NonDigitAbsent(p.day, '/');
    NonDigitAbsent(DateStamp(d), '/');
    NonDigitAbsent(p.year, '=');
    NonDigitAbsent(p.month, '=');
    NonDigitAbsent(p.day, '=');
    TemplateParses(p.year, p.month, p.day, DateStamp(d));
  }

  /** The template is the partition's directory followed by the file name. */
  lemma TemplateIsDirectoryThenFile(year: string, month: string, day: string, stamp: string)
    ensures KeyTemplate(year, month, day, stamp) == PartitionPath(Partition(year, month, day)) + FileName(stamp)
  {
  }

  /** The upload key is the directory of its partition followed by `plc-data-<stamp>.csv`. */
  lemma UploadKeyIsDirectoryThenFile(d: Date)
    requires ValidDate(d)
    ensures S3Key(d) == PartitionPath(KeyPartition(d)) + FileName(DateStamp(d))
  {
    TemplateIsDirectoryThenFile(Str(d.year), ZeroPad(d.month, 2), ZeroPad(d.day, 2), DateStamp(d));
  }

  /**
   * The notification for an uploaded log makes the handler, under either
   * setting, submit the statement for the log's own date, located at the
   * directory the log was uploaded into, whatever other records follow.
   */
  lemma UploadRegistersItsDirectory(cfg: Config, d: Date, bucket: string, rest: seq<Record>, athenaAccepts: bool)
    requires ValidDate(d)
    ensures var p := KeyPartition(d);
      var inv := Handle(cfg, Event([Record(bucket, S3Key(d))] + rest), athenaAccepts);
      S3Key(d) == PartitionPath(p) + FileName(DateStamp(d))
      && inv.submitted
           == Some(Submission(AddPartitionQuery(p, "s3://" + bucket + "/" + PartitionPath(p)), cfg.database, cfg.outputLocation))
      && (inv.result.Success? <==> athenaAccepts)
  {
    var p := KeyPartition(d);
    var event := Event([Record(bucket, S3Key(d))] + rest);
    UploadKeyParses(d);
    UploadKeyIsDirectoryThenFile(d);
    LocationIsDirectory(bucket, p);
    HandleSubmitsPartition(cfg, event, athenaAccepts);
  }

  /** The round trip through the handler of `lambda_code.py`. */
  lemma PrimaryHandlerRoundTrip(d: Date, bucket: string, athenaAccepts: bool)
    requires ValidDate(d)
    ensures var p := KeyPartition(d);
      LambdaHandler(Event([Record(bucket, S3Key(d))]), athenaAccepts).submitted
        == Some(Submission(AddPartitionQuery(p, "s3://" + bucket + "/" + PartitionPath(p)),
                           "plc_analytics", "s3://athena-query-results-plc-analytics-db/"))
  {
    UploadRegistersItsDirectory(PrimaryConfig, d, bucket, [], athenaAccepts);
    assert [Record(bucket, S3Key(d))] + [] == [Record(bucket, S3Key(d))];
  }

  /** The round trip through the handler of `scripts/lambda_code.py`. */
  lemma ScriptsHandlerRoundTrip(d: Date, bucket: string, athenaAccepts: bool)
    requires ValidDate(d)
    ensures var p := KeyPartition(d);
      ScriptsLambdaCode.LambdaHandler(Event([Record(bucket, S3Key(d))]), athenaAccepts).submitted
        == Some(Submission(AddPartitionQuery(p, "s3://" + bucket + "/" + PartitionPath(p)),
                           "your-database-name", "s3://your-output-query-bucket/"))
  {
    UploadRegistersItsDirectory(ScriptsLambdaCode.ScriptsConfig, d, bucket, [], athenaAccepts);
    assert [Record(bucket, S3Key(d))] + [] == [Record(bucket, S3Key(d))];
  }
}
