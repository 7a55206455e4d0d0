# PLC log partition keys

This is a model of the object-key grammar `plc-logs/year=<Y>/month=<MM>/day=<DD>/<file>` and of its three uses in the PLC data pipeline:

- **Upload script** (`upload_log.py`). It builds the key `plc-logs/year=<Y>/month=<MM>/day=<DD>/plc-data-<YYYYMMDD>.csv` from one date.
- **Partition-registering handler** (`lambda_code.py`). It reads the first record of an object-created notification. It takes year, month and day out of the key by position. It builds the partition location. It submits an `ALTER TABLE daily_logs ADD IF NOT EXISTS PARTITION … LOCATION '…'` statement.
- **Second copy of the handler** (`scripts/lambda_code.py`). The logic is the same; the database name and the result location differ.

Modules:

- `Wrappers`: the `Option` and `Result` types.
- `Text`: Python's `str.split` on one character, its inverse `Join`, and infix occurrence.
- `Decimal`: `str(n)`, the `{n:0Nd}` padding, and the value of a digit string.
- `UploadLog`: the date and the upload key.
- `LambdaCode`: the handler. It is parameterised by its two settings and also holds the settings of `lambda_code.py`.
- `ScriptsLambdaCode`: the second handler, and why it is equivalent to the first.
- `RoundTrip`: upload key to handler, end to end.

How the source's behaviour is represented:

- **Raising a Python exception.** The model returns a `Failure`. An empty record list gives `NoRecords`. A missing `/`-segment gives `MissingSegment(i)`. A segment 1 to 3 without `=` gives `MissingValue(i)`. A rejected submission gives `SubmissionRejected`. Nothing is submitted before the key has parsed.
- **The outcome of `start_query_execution`.** It is the boolean parameter `athenaAccepts`.
- **The current date.** It is the parameter `d` of `S3Key`.

## Model

| member | source | states |
|---|---|---|
| Text.Split | lambda_code.py:14 | `key.split('/')`: at least one piece; exactly one piece iff the separator is absent; no piece contains the separator |
| Text.JoinSplit | lambda_code.py:14 | joining the pieces of a split with the separator gives back the string |
| Text.SplitJoin | lambda_code.py:14 | splitting a join of separator-free pieces gives back the pieces |
| Text.SplitCount | lambda_code.py:14 | a split gives one more piece than there are separators |
| Decimal.Str | upload_log.py:8 | `{today.year}`: non-empty decimal digits, no leading zero, reading back as the number |
| Decimal.ZeroPad | upload_log.py:8 | `{n:02d}`: digits reading back as the number, of length max(width, length of `str(n)`) |
| Decimal.TwoDigits | upload_log.py:8 | a number below 100 padded to width 2 is its tens digit then its units digit (6 gives `06`) |
| UploadLog.KeyTemplate | upload_log.py:8 | the key f-string with its four replacement fields as parameters; KeyTemplateSegments and KeyTemplateStartsWithYear state its shape, RoundTrip.TemplateParses its parse |
| UploadLog.S3Key | upload_log.py:5-8 | the key of one date; S3KeyStartsWithYear, S3KeySegments, MonthAndDayAreTwoDigits, FileNameMatchesDirectories and RoundTrip.UploadKeyParses state its properties |
| UploadLog.DateStamp | upload_log.py:8 | `strftime('%Y%m%d')` is eight decimal digits |
| UploadLog.StampRoundTrip | upload_log.py:8 | reading the stamp back gives the date it was written from |
| UploadLog.DateStampFields | upload_log.py:8 | the stamp is the year padded to 4, then the month and the day padded to 2 |
| UploadLog.S3KeyStartsWithYear | upload_log.py:8 | the key starts with `plc-logs/year=`, then `str(year)`, then `/` |
| UploadLog.KeyTemplateSegments | upload_log.py:8 | when no field contains `/`, the key template splits into its five segments |
| UploadLog.S3KeySegments | upload_log.py:8 | the key splits on `/` into exactly `plc-logs`, `year=Y`, `month=MM`, `day=DD`, `plc-data-YYYYMMDD.csv` |
| UploadLog.MonthAndDayAreTwoDigits | upload_log.py:8 | the month and day segments hold exactly two digits, tens first |
| UploadLog.FileNameMatchesDirectories | upload_log.py:5-8 | the file name's stamp reads back as the same date, and its month and day are the text of the month and day segments |
| UploadLog.YearDirectoryMatchesStampIff | upload_log.py:8 | the unpadded year directory equals the stamp's first four characters iff the year is at least 1000 |
| UploadLog.YearDirectoryDiffersAt999 | upload_log.py:8 | for 0999-01-01 the directory says `year=999` while the stamp starts `0999` |
| UploadLog.KeyOfJune24 | upload_log.py:8 | 2025-06-24 gives `plc-logs/year=2025/month=06/day=24/plc-data-20250624.csv` |
| LambdaCode.Segment | lambda_code.py:15-17 | `parts[i]` succeeds iff `i` is below the number of segments, and then it is that segment |
| LambdaCode.FieldValue | lambda_code.py:15-17 | `segment.split('=')[1]` succeeds iff the segment has an `=`; the value holds no `=` and only characters of the segment |
| LambdaCode.FieldValueIsTextAfterFirstEquals | lambda_code.py:15-17 | the value is the text right after the first `=`, up to the next `=` or the end |
| LambdaCode.FieldValueOfPair | lambda_code.py:15-17 | `name=value` yields `value` whatever the name; a further `=value2` is cut off |
| LambdaCode.ParseKey | lambda_code.py:14-17 | a parsed partition holds no `/` and no `=` |
| LambdaCode.ParseKeyOutcome | lambda_code.py:14-17 | it raises iff there are fewer than 4 segments or segment 1, 2 or 3 lacks `=`; otherwise the values are the second `=`-pieces of segments 1, 2 and 3 |
| LambdaCode.ParseKeyErrorIsGenuine | lambda_code.py:15-17 | the error names an index that really fails: a missing segment 1 to 3, or a present one without `=` |
| LambdaCode.ParseKeyReadsSegmentsOneToThree | lambda_code.py:14-17 | keys that agree on segments 1 to 3 parse alike, whatever segment 0 and the tail hold |
| LambdaCode.ParseKeyOfFields | lambda_code.py:14-17 | a key whose segments 1 to 3 are `name=value` pairs yields the three values |
| LambdaCode.ParseKeyOfPairs | lambda_code.py:14-17 | `s0/n1=v1/n2=v2/n3=v3/…` yields `(v1, v2, v3)` for any `s0`, any names and any tail |
| LambdaCode.ShortKeyRaises | lambda_code.py:15-17 | a key with fewer than three `/` raises |
| LambdaCode.OneSegmentKeyRaises | lambda_code.py:15 | `onlyoneseg` raises on `parts[1]` |
| LambdaCode.ExampleKeyParses | lambda_code.py:13-17 | `plc-logs/year=2025/month=06/day=24/file.csv` yields `("2025", "06", "24")` |
| LambdaCode.PartitionPath | lambda_code.py:20 | the directory part of `partition_location`; PartitionPathParsesBack states that it parses back to its partition |
| LambdaCode.PartitionLocation | lambda_code.py:20 | `partition_location`; LocationIsDirectory states its shape |
| LambdaCode.LocationIsDirectory | lambda_code.py:20 | the location is `s3://` + bucket + `/` + `plc-logs/year=Y/month=M/day=D/`, with the literal `plc-logs`, and it ends in `/` |
| LambdaCode.PartitionPathParsesBack | lambda_code.py:20 | the partition's directory is itself a key and parses back to the same partition |
| LambdaCode.ParsedLocationRoundTrip | lambda_code.py:14-20 | re-parsing the directory registered for a parsed key gives the same partition |
| LambdaCode.QueryLines | lambda_code.py:23-27 | the five lines of the triple-quoted `query`; QueryLinesSplit states that they are exactly the lines of the statement |
| LambdaCode.AddPartitionQuery | lambda_code.py:23-27 | `query`; QueryJoined, QueryEmbedsPartition and QueryLinesSplit state its text |
| LambdaCode.QueryJoined | lambda_code.py:23-27 | the statement is exactly: a line break, `    ALTER TABLE daily_logs ` (with its trailing space), the partition line, the location line, and a final four-space line |
| LambdaCode.QueryEmbedsPartition | lambda_code.py:23-27 | the statement contains `ALTER TABLE daily_logs`, `ADD IF NOT EXISTS PARTITION (year='Y', month='M', day='D')` and `LOCATION '<location>'` verbatim |
| LambdaCode.QueryLinesSplit | lambda_code.py:23-27 | without line breaks in the values, the statement splits into exactly its five lines |
| LambdaCode.Handle | lambda_code.py:10-36 | The statement is submitted iff there is a record and its key parses. The run succeeds iff the statement was submitted and accepted. Success returns status 200 with the fixed body. Database and output location come from the settings. No records raises `NoRecords`. |
| LambdaCode.HandleReadsFirstRecordOnly | lambda_code.py:10-11 | records after the first do not change the run |
| LambdaCode.HandleSubmitsPartition | lambda_code.py:14-34 | for a well-formed key, the submission is the statement for the key's partition at the location built from the record's bucket |
| LambdaCode.MalformedKeySubmitsNothing | lambda_code.py:14-17 | a malformed key raises its own error and submits nothing |
| LambdaCode.LambdaHandler | lambda_code.py:6-36 | Submits iff the first record's key parses. What it submits is the statement and location from that key, under `plc_analytics` and `s3://athena-query-results-plc-analytics-db/`. It succeeds iff the statement was submitted and accepted, and success is status 200. |
| ScriptsLambdaCode.LambdaHandler | scripts/lambda_code.py:8-29 | Submits iff the first record's key parses. What it submits is the statement and location from that key, under `your-database-name` and `s3://your-output-query-bucket/`. It succeeds iff the statement was submitted and accepted, and success is status 200. |
| ScriptsLambdaCode.HandlersAgree | scripts/lambda_code.py:10-27 | the two handlers return and raise alike and submit the same statement, differing only in database and output location |
| ScriptsLambdaCode.ReadsFirstRecordOnly | scripts/lambda_code.py:8-9 | records after the first do not change the run |
| ScriptsLambdaCode.MalformedKeyRaises | scripts/lambda_code.py:10-13 | a key with too few segments or a segment 1 to 3 without `=` raises and submits nothing |
| RoundTrip.TemplateParses | lambda_code.py:14-17 | any key of the upload template whose fields hold no `/` or `=` parses back to those fields |
| RoundTrip.UploadKeyParses | upload_log.py:8 | parsing the upload key gives `str(year)` and the two-digit month and day, which read back as the date |
| RoundTrip.UploadKeyIsDirectoryThenFile | upload_log.py:8 | the upload key is the partition's directory followed by `plc-data-<stamp>.csv` |
| RoundTrip.UploadRegistersItsDirectory | lambda_code.py:10-34 | the notification for an uploaded log submits the statement for the log's own date, located at `s3://<bucket>/` + the directory the log was put in |
| RoundTrip.PrimaryHandlerRoundTrip | lambda_code.py:14-34 | the same, through the handler of `lambda_code.py` and its settings |
| RoundTrip.ScriptsHandlerRoundTrip | scripts/lambda_code.py:10-27 | the same, through the handler of `scripts/lambda_code.py` and its settings |

## Left out

- `create_s3.py` and `fake_datalog.py` are not part of this model. One is a cloud-SDK wrapper. The other is random sampling, floating point, console input and CSV writing.
- `s3.upload_file` (the transfer of the log, its local file name and bucket) and `athena.start_query_execution` are network calls. The first is not modelled. The second is reduced to the submission record and the boolean `athenaAccepts`.
- `datetime.now()` reads the clock. The date is a parameter.
- `urllib.parse.unquote_plus` is a library call. The handler takes the key already decoded.
- `boto3.client('athena')` is not modelled; its failure paths are not in the model.
- The event's nested dictionaries are flattened to records of bucket and key. The `KeyError` a missing `s3`, `bucket` or `object` entry would raise is not modelled.
- `json.dumps('Partition added successfully')` is the constant `SuccessBody`, its JSON text. The JSON encoder is not modelled.
- The catalog's handling of `IF NOT EXISTS` happens in the query engine. Running the statement twice is not modelled.
- UploadLog.DateStamp: `%Y` is modelled as the year zero-padded to four digits, as Python documents it. The C library on Linux prints years below 1000 unpadded (`999`). On such a platform the year directory and the stamp would agree for every year.
- The concrete example keeps to the key. The literal text of the example location and statement is not stated. Those are stated for all inputs by LocationIsDirectory and QueryJoined.
- LambdaCode.ShortKeyRaises: states only that a short key raises, not which error. `a/b` raises on the missing `=` of segment 1 before segment 2 is reached. ParseKeyErrorIsGenuine pins the error down.
