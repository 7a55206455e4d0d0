/**
 * The partition-registering event handler: it reads the first record of an
 * object-created event, takes year, month and day out of the object key
 * `plc-logs/year=<Y>/month=<M>/day=<D>/<file>` by position, and submits an
 * `ALTER TABLE … ADD IF NOT EXISTS PARTITION` statement to the query engine.
 *
 * The handler is modelled once, parameterised by the two settings in which the
 * repository's two copies of it differ (database name and result location);
 * this module also holds the settings of `lambda_code.py`.
 */
module LambdaCode {
  import opened Wrappers
  import opened Text

  /** The exceptions the handler raises, each named by the access that fails. */
  datatype Error =
    | NoRecords               // `event['Records'][0]` on an empty record list
    | MissingSegment(index: nat) // `parts[index]` on a key with too few `/`-segments
    | MissingValue(index: nat)   // `parts[index].split('=')[1]` on a segment without `=`
    | SubmissionRejected      // `start_query_execution` raised

  /** The partition values as the handler extracts them: text, not numbers. */
  datatype Partition = Partition(year: string, month: string, day: string)

  /** One notification record: bucket name and object key, the key already URL-decoded. */
  datatype Record = Record(bucket: string, key: string)

  datatype Event = Event(records: seq<Record>)

  /** The two settings the handler passes to the query engine besides the statement. */
  datatype Config = Config(database: string, outputLocation: string)

  /** What the handler hands to `start_query_execution`. */
  datatype Submission = Submission(query: string, database: string, outputLocation: string)

  datatype Response = Response(statusCode: int, body: string)

  /** One run of the handler: the statement it submitted, if any, and what it returned or raised. */
  datatype Invocation = Invocation(submitted: Option<Submission>, result: Result<Response, Error>)

  /** The settings of `lambda_code.py`. */
  const PrimaryConfig := Config("plc_analytics", "s3://athena-query-results-plc-analytics-db/")

  /** `json.dumps('Partition added successfully')`. */
  const SuccessBody := "\"Partition added successfully\""

  /** `parts[index]`. */
  function Segment(parts: seq<string>, index: nat): (r: Result<string, Error>)
    ensures r.Success? <==> index < |parts|
    ensures r.Success? ==> r.value == parts[index]
    ensures r.Failure? ==> r.error == MissingSegment(index)
  {
    if index < |parts| then Success(parts[index]) else Failure(MissingSegment(index))
  }

  /** `segment.split('=')[1]`: the text after the first `=`, up to the next `=` if any. */
  function FieldValue(segment: string, index: nat): (r: Result<string, Error>)
    ensures r.Success? <==> '=' in segment
    ensures r.Success? ==> '=' !in r.value
    ensures r.Success? ==> forall ch :: ch in r.value ==> ch in segment
    ensures r.Failure? ==> r.error == MissingValue(index)
  {
    var pieces := Split(segment, '=');
    forall ch | true
      ensures forall k :: 0 <= k < |pieces| && ch in pieces[k] ==> ch in segment
    {
      SplitPiecesWithin(segment, '=', ch);
    }
    if |pieces| < 2 then Failure(MissingValue(index)) else Success(pieces[1])
  }

  /** No partition value contains a `/` or an `=`. */
  predicate SeparatorFree(p: Partition)
  {
    '/' !in p.year && '/' !in p.month && '/' !in p.day
    && '=' !in p.year && '=' !in p.month && '=' !in p.day
  }

  /**
   * `parts = key.split('/')` and the three positional extractions, in source
   * order: segment 1 gives the year, 2 the month, 3 the day.
   */
  function ParseKey(key: string): (r: Result<Partition, Error>)
    ensures r.Success? ==> SeparatorFree(r.value)
  {
    var parts := Split(key, '/');
    var yearSegment :- Segment(parts, 1);
    var year :- FieldValue(yearSegment, 1);
    var monthSegment :- Segment(parts, 2);
    var month :- FieldValue(monthSegment, 2);
    var daySegment :- Segment(parts, 3);
    var day :- FieldValue(daySegment, 3);
    Success(Partition(year, month, day))
  }

  /** The partition's directory, `plc-logs/year=<Y>/month=<M>/day=<D>/`. */
  function PartitionPath(p: Partition): string
  {
    "plc-logs/year=" + p.year + "/month=" + p.month + "/day=" + p.day + "/"
  }

  /** `partition_location`: the literal prefix `plc-logs`, never segment 0 of the key. */
  function PartitionLocation(bucket: string, p: Partition): string
  {
    "s3://" + bucket + "/plc-logs/year=" + p.year + "/month=" + p.month + "/day=" + p.day + "/"
  }

  /** The statement's partition clause, `year='<Y>', month='<M>', day='<D>'`. */
  function PartitionSpec(p: Partition): string
  {
    "year='" + p.year + "', month='" + p.month + "', day='" + p.day + "'"
  }

  /** The lines of the statement's triple-quoted f-string: it opens with a line break and ends in indentation. */
  function QueryLines(p: Partition, location: string): seq<string>
  {
    [ "",
      Indent + TableClause + " ",
      Indent + PartitionClause(p),
      Indent + LocationClause(location),
      Indent ]
  }

  /** The four spaces that open every line of the statement after the first. */
  const Indent: string := "    "

  const TableClause: string := "ALTER TABLE daily_logs"

  function PartitionClause(p: Partition): string
  {
    "ADD IF NOT EXISTS PARTITION (" + PartitionSpec(p) + ")"
  }

  function LocationClause(location: string): string
  {
    "LOCATION '" + location + "'"
  }

  /** The statement text: its lines joined by line breaks. */
  function AddPartitionQuery(p: Partition, location: string): string
  {
    Join(QueryLines(p, location), '\n')
  }

  /**
   * `lambda_handler` under a given configuration. `athenaAccepts` stands for the
   * outcome of `start_query_execution`. Only the first record is read; a
   * malformed key raises before anything is submitted.
   */
  function Handle(cfg: Config, event: Event, athenaAccepts: bool): (inv: Invocation)
    ensures inv.submitted.Some? <==> |event.records| > 0 && ParseKey(event.records[0].key).Success?
    ensures inv.result.Success? <==> inv.submitted.Some? && athenaAccepts
    ensures inv.result.Success? ==> inv.result.value == Response(200, SuccessBody)
    ensures inv.submitted.Some? ==>
      inv.submitted.value.database == cfg.database && inv.submitted.value.outputLocation == cfg.outputLocation
    ensures |event.records| == 0 ==> inv.result == Failure(NoRecords)
  {
    if |event.records| == 0 then
      Invocation(None, Failure(NoRecords))
    else
      var record := event.records[0];
      match ParseKey(record.key)
      case Failure(e) => Invocation(None, Failure(e))
      case Success(p) =>
        var location := PartitionLocation(record.bucket, p);
        var submission := Submission(AddPartitionQuery(p, location), cfg.database, cfg.outputLocation);
        Invocation(Some(submission), if athenaAccepts then Success(Response(200, SuccessBody)) else Failure(SubmissionRejected))
  }

  /** `lambda_handler` of `lambda_code.py`. */
  function LambdaHandler(event: Event, athenaAccepts: bool): (inv: Invocation)
    ensures inv.submitted.Some? <==> |event.records| > 0 && ParseKey(event.records[0].key).Success?
    ensures inv.submitted.Some? ==>
      var r := event.records[0];
      var p := ParseKey(r.key).value;
      inv.submitted.value
        == Submission(AddPartitionQuery(p, PartitionLocation(r.bucket, p)),
                      "plc_analytics", "s3://athena-query-results-plc-analytics-db/")
    ensures inv.result.Success? <==> inv.submitted.Some? && athenaAccepts
    ensures inv.result.Success? ==> inv.result.value.statusCode == 200
  {
    Handle(PrimaryConfig, event, athenaAccepts)
  }

  /**
   * The extracted value is the text right after the first `=` of the segment,
   * running to the next `=` or to the end of the segment.
   */
  lemma FieldValueIsTextAfterFirstEquals(segment: string, index: nat)
    requires '=' in segment
    ensures var i, r := IndexOf(segment, '='), FieldValue(segment, index);
      r.Success?
      && i + 1 + |r.value| <= |segment|
      && segment[i + 1..i + 1 + |r.value|] == r.value
      && (i + 1 + |r.value| == |segment| || segment[i + 1 + |r.value|] == '=')
  {
    FieldValueIsSecondPiece(segment, index);
    SplitSecondPiece(segment, '=');
  }

  lemma FieldValueIsSecondPiece(segment: string, index: nat)
    requires '=' in segment
    ensures FieldValue(segment, index) == Success(Split(segment, '=')[1])
  {
  }

  lemma SplitPair(name: string, value: string)
    requires '=' !in name && '=' !in value
    ensures Split(name + "=" + value, '=') == [name, value]
  {
    SplitAfterFree(name, '=', value);
  }

  lemma SplitPairThenMore(name: string, value: string, rest: string)
    requires '=' !in name && '=' !in value
    ensures Split(name + "=" + value + "=" + rest, '=')[1] == value
  {
    assert name + "=" + value + "=" + rest == name + ['='] + (value + "=" + rest);
    SplitAfterFree(name, '=', value + "=" + rest);
    SplitAfterFree(value, '=', rest);
  }

  /** Any segment `name=value`, whatever the name, yields `value`; a further `=` cuts the value off. */
  lemma FieldValueOfPair(name: string, value: string, rest: string, index: nat)
    requires '=' !in name && '=' !in value
    ensures FieldValue(name + "=" + value, index) == Success(value)
    ensures FieldValue(name + "=" + value + "=" + rest, index) == Success(value)
  {
    SplitPair(name, value);
    SplitPairThenMore(name, value, rest);
  }

  /**
   * The key raises exactly when it has fewer than four `/`-segments or one of
   * segments 1 to 3 has no `=`; otherwise year, month and day are the second
   * `=`-pieces of segments 1, 2 and 3.
   */
  lemma ParseKeyOutcome(key: string)
    ensures var parts := Split(key, '/');
      && (ParseKey(key).Failure? <==> |parts| < 4 || '=' !in parts[1] || '=' !in parts[2] || '=' !in parts[3])
      && (ParseKey(key).Success? ==>
            ParseKey(key).value == Partition(Split(parts[1], '=')[1], Split(parts[2], '=')[1], Split(parts[3], '=')[1]))
  {
  }

  /** The error names an access that really fails: a segment the key lacks, or a segment 1 to 3 without `=`. */
  lemma ParseKeyErrorIsGenuine(key: string)
    requires ParseKey(key).Failure?
    ensures var parts := Split(key, '/');
      match ParseKey(key).error
      case MissingSegment(i) => |parts| <= i <= 3
      case MissingValue(i) => 1 <= i <= 3 && i < |parts| && '=' !in parts[i]
      case _ => false
  {
  }

  /** Only segments 1 to 3 matter: keys that agree on them parse alike, whatever their segment 0 and tail. */
  lemma ParseKeyReadsSegmentsOneToThree(key1: string, key2: string)
    requires |Split(key1, '/')| >= 4 && |Split(key2, '/')| >= 4
    requires Split(key1, '/')[1..4] == Split(key2, '/')[1..4]
    ensures ParseKey(key1) == ParseKey(key2)
  {
    var p1, p2 := Split(key1, '/'), Split(key2, '/');
    assert p1[1] == p1[1..4][0] && p1[2] == p1[1..4][1] && p1[3] == p1[1..4][2];
    assert p2[1] == p2[1..4][0] && p2[2] == p2[1..4][1] && p2[3] == p2[1..4][2];
  }

  /** A key whose segments 1 to 3 are `name=value` pairs parses to the three values. */
  lemma ParseKeyOfFields(key: string, n1: string, v1: string, n2: string, v2: string, n3: string, v3: string)
    requires |Split(key, '/')| >= 4
    requires Split(key, '/')[1] == n1 + "=" + v1 && Split(key, '/')[2] == n2 + "=" + v2 && Split(key, '/')[3] == n3 + "=" + v3
    requires '=' !in n1 && '=' !in v1 && '=' !in n2 && '=' !in v2 && '=' !in n3 && '=' !in v3
    ensures ParseKey(key) == Success(Partition(v1, v2, v3))
  {
    FieldValueOfPair(n1, v1, "", 1);
    FieldValueOfPair(n2, v2, "", 2);
    FieldValueOfPair(n3, v3, "", 3);
  }

  /** A pair `name=value` has a character other than `=` only if its name or its value has it. */
  lemma PairWithout(name: string, value: string, c: char)
    requires c != '=' && c !in name && c !in value
    ensures c !in name + "=" + value
  {
  }

  /** The segments `s0, n1=v1, n2=v2, n3=v3, tail…` as a list. */
  function PairSegments(s0: string, n1: string, v1: string, n2: string, v2: string, n3: string, v3: string, tail: seq<string>): seq<string>
  {
    [s0, n1 + "=" + v1, n2 + "=" + v2, n3 + "=" + v3] + tail
  }

  lemma PairSegmentsSlashFree(s0: string, n1: string, v1: string, n2: string, v2: string, n3: string, v3: string, tail: seq<string>)
    requires '/' !in s0 && '/' !in n1 && '/' !in v1 && '/' !in n2 && '/' !in v2 && '/' !in n3 && '/' !in v3
    requires forall k :: 0 <= k < |tail| ==> '/' !in tail[k]
    ensures var parts := PairSegments(s0, n1, v1, n2, v2, n3, v3, tail);
      forall k :: 0 <= k < |parts| ==> '/' !in parts[k]
  {
    var parts := PairSegments(s0, n1, v1, n2, v2, n3, v3, tail);
    PairWithout(n1, v1, '/');
    PairWithout(n2, v2, '/');
    PairWithout(n3, v3, '/');
    assert forall k :: 4 <= k < |parts| ==> parts[k] == tail[k - 4];
  }

  /** Segments free of `/` are split back out of their join. */
  lemma PairSegmentsSplit(s0: string, n1: string, v1: string, n2: string, v2: string, n3: string, v3: string, tail: seq<string>)
    requires '/' !in s0 && '/' !in n1 && '/' !in v1 && '/' !in n2 && '/' !in v2 && '/' !in n3 && '/' !in v3
    requires forall k :: 0 <= k < |tail| ==> '/' !in tail[k]
    ensures var parts := PairSegments(s0, n1, v1, n2, v2, n3, v3, tail);
      Split(Join(parts, '/'), '/') == parts
  {
    PairSegmentsSlashFree(s0, n1, v1, n2, v2, n3, v3, tail);
    SplitJoin(PairSegments(s0, n1, v1, n2, v2, n3, v3, tail), '/');
  }

  /**
   * Segment names are not checked, segment 0 is ignored and so is everything
   * after segment 3: a key `s0/n1=v1/n2=v2/n3=v3[/…]` yields `(v1, v2, v3)`.
   */
  lemma ParseKeyOfPairs(s0: string, n1: string, v1: string, n2: string, v2: string, n3: string, v3: string, tail: seq<string>)
    requires '/' !in s0 && '/' !in n1 && '/' !in v1 && '/' !in n2 && '/' !in v2 && '/' !in n3 && '/' !in v3
    requires forall k :: 0 <= k < |tail| ==> '/' !in tail[k]
    requires '=' !in n1 && '=' !in v1 && '=' !in n2 && '=' !in v2 && '=' !in n3 && '=' !in v3
    ensures ParseKey(Join(PairSegments(s0, n1, v1, n2, v2, n3, v3, tail), '/')) == Success(Partition(v1, v2, v3))
  {
    var parts := PairSegments(s0, n1, v1, n2, v2, n3, v3, tail);
    var key := Join(parts, '/');
    PairSegmentsSplit(s0, n1, v1, n2, v2, n3, v3, tail);
    PairSegmentsFields(s0, n1, v1, n2, v2, n3, v3, tail);
    ParseKeyOfFields(key, n1, v1, n2, v2, n3, v3);
  }

  lemma PairSegmentsFields(s0: string, n1: string, v1: string, n2: string, v2: string, n3: string, v3: string, tail: seq<string>)
    ensures var parts := PairSegments(s0, n1, v1, n2, v2, n3, v3, tail);
      |parts| >= 4 && parts[1] == n1 + "=" + v1 && parts[2] == n2 + "=" + v2 && parts[3] == n3 + "=" + v3
  {
  }

  /** A key with fewer than three `/` has fewer than four segments, so it raises. */
  lemma ShortKeyRaises(key: string)
    requires Count(key, '/') < 3
    ensures ParseKey(key).Failure?
  {
    SplitCount(key, '/');
    ParseKeyOutcome(key);
  }

  /** The key `onlyoneseg` has no segment 1, so reading the year raises. */
  lemma OneSegmentKeyRaises(key: string)
    requires key == "onlyoneseg"
    ensures ParseKey(key) == Failure(MissingSegment(1))
  {
    assert '/' !in key;
  }

  /** The location is `s3://<bucket>/` followed by the partition's directory; it always ends in `/`. */
  lemma LocationIsDirectory(bucket: string, p: Partition)
    ensures PartitionLocation(bucket, p) == "s3://" + bucket + "/" + PartitionPath(p)
    ensures PartitionLocation(bucket, p)[|PartitionLocation(bucket, p)| - 1] == '/'
  {
  }

  lemma PartitionPathIsJoin(p: Partition)
    ensures PartitionPath(p) == Join(PairSegments("plc-logs", "year", p.year, "month", p.month, "day", p.day, [""]), '/')
  {
    var y, m, d := "year" + "=" + p.year, "month" + "=" + p.month, "day" + "=" + p.day;
    assert PairSegments("plc-logs", "year", p.year, "month", p.month, "day", p.day, [""]) == ["plc-logs", y, m, d, ""];
    JoinFive("plc-logs", y, m, d, "", '/');
    PathLiterals();
  }

  /** The literal parts of the directory, cut at their `/` and `=`. */
  lemma PathLiterals()
    ensures "plc-logs/year=" == "plc-logs" + ['/'] + ("year" + "=")
    ensures "/month=" == ['/'] + ("month" + "=")
    ensures "/day=" == ['/'] + ("day" + "=")
    ensures "/" == ['/'] + ""
  {
  }

  /** The partition's directory is itself a key of the grammar and parses back to the same partition. */
  lemma PartitionPathParsesBack(p: Partition)
    requires SeparatorFree(p)
    ensures ParseKey(PartitionPath(p)) == Success(p)
  {
    PartitionPathIsJoin(p);
    ParseKeyOfPairs("plc-logs", "year", p.year, "month", p.month, "day", p.day, [""]);
  }

  /** Re-parsing the directory registered for a parsed key recovers the same partition. */
  lemma ParsedLocationRoundTrip(key: string)
    requires ParseKey(key).Success?
    ensures ParseKey(PartitionPath(ParseKey(key).value)) == ParseKey(key)
  {
    PartitionPathParsesBack(ParseKey(key).value);
  }

  /** The statement as its lines joined by line breaks, written out. */
  lemma QueryJoined(p: Partition, location: string)
    ensures AddPartitionQuery(p, location)
      == "" + "\n" + (Indent + TableClause + " ") + "\n" + (Indent + PartitionClause(p))
         + "\n" + (Indent + LocationClause(location)) + "\n" + Indent
  {
    var lines := QueryLines(p, location);
    JoinFive(lines[0], lines[1], lines[2], lines[3], lines[4], '\n');
  }

  /** The statement names the table, asks for `ADD IF NOT EXISTS`, and embeds the values and the location verbatim. */
  lemma QueryEmbedsPartition(p: Partition, location: string)
    ensures var q := AddPartitionQuery(p, location);
      IsInfix(TableClause, q)
      && IsInfix("ADD IF NOT EXISTS PARTITION (" + PartitionSpec(p) + ")", q)
      && IsInfix("LOCATION '" + location + "'", q)
  {
    QueryJoined(p, location);
    var l1, l2, l3 := Indent + TableClause + " ", Indent + PartitionClause(p), Indent + LocationClause(location);
    var nl := "\n";
    // the table clause, inside line 1
    InfixOfConcat(Indent, TableClause, " ");
    InfixExtendLeft(TableClause, l1, "" + nl);
    InfixExtendRight(TableClause, "" + nl + l1, nl);
    InfixExtendRight(TableClause, "" + nl + l1 + nl, l2);
    InfixExtendRight(TableClause, "" + nl + l1 + nl + l2, nl);
    InfixExtendRight(TableClause, "" + nl + l1 + nl + l2 + nl, l3);
    InfixExtendRight(TableClause, "" + nl + l1 + nl + l2 + nl + l3, nl);
    InfixExtendRight(TableClause, "" + nl + l1 + nl + l2 + nl + l3 + nl, Indent);
    // the partition clause, which is line 2 after its indentation
    InfixSuffix(Indent, PartitionClause(p));
    InfixExtendLeft(PartitionClause(p), l2, "" + nl + l1 + nl);
    InfixExtendRight(PartitionClause(p), "" + nl + l1 + nl + l2, nl);
    InfixExtendRight(PartitionClause(p), "" + nl + l1 + nl + l2 + nl, l3);
    InfixExtendRight(PartitionClause(p), "" + nl + l1 + nl + l2 + nl + l3, nl);
    InfixExtendRight(PartitionClause(p), "" + nl + l1 + nl + l2 + nl + l3 + nl, Indent);
    // the location clause, which is line 3 after its indentation
    InfixSuffix(Indent, LocationClause(location));
    InfixExtendLeft(LocationClause(location), l3, "" + nl + l1 + nl + l2 + nl);
    InfixExtendRight(LocationClause(location), "" + nl + l1 + nl + l2 + nl + l3, nl);
    InfixExtendRight(LocationClause(location), "" + nl + l1 + nl + l2 + nl + l3 + nl, Indent);
  }

  /**
   * When neither the values nor the location contain a line break, splitting
   * the statement into lines gives back its five lines.
   */
  lemma QueryLinesSplit(p: Partition, location: string)
    requires '\n' !in p.year && '\n' !in p.month && '\n' !in p.day && '\n' !in location
    ensures Split(AddPartitionQuery(p, location), '\n') == QueryLines(p, location)
  {
    var lines := QueryLines(p, location);
    assert '\n' !in PartitionSpec(p);
    assert forall k :: 0 <= k < |lines| ==> '\n' !in lines[k];
    SplitJoin(lines, '\n');
  }

  /** Records after the first have no effect on the run. */
  lemma HandleReadsFirstRecordOnly(cfg: Config, first: Record, rest: seq<Record>, athenaAccepts: bool)
    ensures Handle(cfg, Event([first] + rest), athenaAccepts) == Handle(cfg, Event([first]), athenaAccepts)
  {
  }

  /**
   * What the handler submits for a well-formed key: the statement for the
   * key's partition at the location built from the record's bucket.
   */
  lemma HandleSubmitsPartition(cfg: Config, event: Event, athenaAccepts: bool)
    requires |event.records| > 0 && ParseKey(event.records[0].key).Success?
    ensures var r := event.records[0];
      var p := ParseKey(r.key).value;
      Handle(cfg, event, athenaAccepts).submitted
        == Some(Submission(AddPartitionQuery(p, PartitionLocation(r.bucket, p)), cfg.database, cfg.outputLocation))
  {
  }

  /** A malformed key raises the key's own error and submits nothing: no partial partition is registered. */
  lemma MalformedKeySubmitsNothing(cfg: Config, event: Event, athenaAccepts: bool)
    requires |event.records| > 0 && ParseKey(event.records[0].key).Failure?
    ensures Handle(cfg, event, athenaAccepts) == Invocation(None, Failure(ParseKey(event.records[0].key).error))
  {
  }

  lemma ExampleKeyIsJoin(key: string)
    requires key == "plc-logs/year=2025/month=06/day=24/file.csv"
    ensures key == Join(["plc-logs", "year=2025", "month=06", "day=24", "file.csv"], '/')
  {
    ExampleKeyPieces(key);
    JoinFive("plc-logs", "year=2025", "month=06", "day=24", "file.csv", '/');
  }

  lemma ExampleKeyPieces(key: string)
    requires key == "plc-logs/year=2025/month=06/day=24/file.csv"
    ensures key == "plc-logs" + ['/'] + "year=2025" + ['/'] + "month=06" + ['/'] + "day=24" + ['/'] + "file.csv"
  {
    assert "plc-logs" + ['/'] + "year=2025" == "plc-logs/year=2025";
    assert "plc-logs/year=2025" + ['/'] + "month=06" == "plc-logs/year=2025/month=06";
    assert "plc-logs/year=2025/month=06" + ['/'] + "day=24" == "plc-logs/year=2025/month=06/day=24";
  }

  lemma ExampleKeySegments(key: string)
    requires key == Join(["plc-logs", "year=2025", "month=06", "day=24", "file.csv"], '/')
    ensures Split(key, '/') == ["plc-logs", "year=2025", "month=06", "day=24", "file.csv"]
  {
    var parts := ["plc-logs", "year=2025", "month=06", "day=24", "file.csv"];
    assert forall k :: 0 <= k < |parts| ==> '/' !in parts[k];
    SplitJoin(parts, '/');
  }

  lemma ExampleSegmentsParse(key: string)
    requires Split(key, '/') == ["plc-logs", "year=2025", "month=06", "day=24", "file.csv"]
    ensures ParseKey(key) == Success(Partition("2025", "06", "24"))
  {
    var parts := Split(key, '/');
    assert parts[1] == "year" + "=" + "2025" && parts[2] == "month" + "=" + "06" && parts[3] == "day" + "=" + "24";
    ParseKeyOfFields(key, "year", "2025", "month", "06", "day", "24");
  }

  /** The example key `plc-logs/year=2025/month=06/day=24/file.csv` names the partition `(2025, 06, 24)`. */
  lemma ExampleKeyParses(key: string)
    requires key == "plc-logs/year=2025/month=06/day=24/file.csv"
    ensures ParseKey(key) == Success(Partition("2025", "06", "24"))
  {
    ExampleKeyIsJoin(key);
    ExampleKeySegments(key);
    ExampleSegmentsParse(key);
  }
}
