/** Properties of whole sequences of host calls on one session: the dataset
    is fetched once, the header record is captured once, and a reset replays
    the same rows. */
module Lifecycle {
  import opened Wrappers
  import opened Columns
  import opened Values
  import opened Scan

  /** One host call on the session. `response` is what a request for the
      dataset would return during that call. */
  datatype Call =
    | Begin(response: Result<seq<byte>>)
    | Iter(columns: seq<string>)
    | Rescan(response: Result<seq<byte>>)
    | End

  /** The session after one call. */
  function Apply(s: Session, call: Call, decode: Decoder, parse: NumberParser): Session {
    match call
    case Begin(response) => BeginScan(s, response, decode).1
    case Iter(columns) => IterScan(s, columns, parse).1
    case Rescan(response) => ReScan(s, response, decode).1
    case End => EndScan(s).1
  }

  /** The session after a sequence of calls. */
  function Run(s: Session, calls: seq<Call>, decode: Decoder, parse: NumberParser): Session
    decreases |calls|
  {
    if |calls| == 0 then s else Run(Apply(s, calls[0], decode, parse), calls[1..], decode, parse)
  }

  /** The outcomes of `n` consecutive `iter_scan` calls. */
  function Steps(s: Session, columns: seq<string>, parse: NumberParser, n: nat): (r: seq<Step>)
    ensures |r| == n
    decreases n
  {
    if n == 0 then []
    else
      var (step, next) := IterScan(s, columns, parse);
      [step] + Steps(next, columns, parse, n - 1)
  }

  /** A record lacking its key is skipped without ending the scan: the next
      `iter_scan` hands out the row of the record after it. */
  lemma SkipThenRow(s: Session, columns: seq<string>, parse: NumberParser)
    requires s.reader.Some? && s.reader.value.next + 1 < |s.reader.value.stream.records|
    requires MissingKey(s.headers, s.reader.value.stream.records[s.reader.value.next])
    requires var fields := s.reader.value.stream.records[s.reader.value.next + 1];
             !MissingKey(s.headers, fields) && Project(parse, s.headers, fields, columns).Success?
    ensures var fields := s.reader.value.stream.records[s.reader.value.next + 1];
            Steps(s, columns, parse, 2) == [Skipped, Produced(Project(parse, s.headers, fields, columns).value)]
  {
    var c := s.reader.value;
    var (first, s1) := IterScan(s, columns, parse);
    assert first == Skipped;
    assert s1.reader == Some(Cursor(c.stream, c.next + 1)) && s1.headers == s.headers;
    var (second, s2) := IterScan(s1, columns, parse);
    assert second.Produced?;
    assert Steps(s1, columns, parse, 1) == [second];
  }

  /** A body is cached and the captured headers are the ones a fresh read
      of it would give, or were captured earlier and are kept, or cannot be
      read from it at all (then every scan fails, and none requests again). */
  predicate Cached(s: Session, decode: Decoder) {
    && |s.body| > 0
    && (|s.headers| > 0 || ReadHeader(decode(s.body)) == Success(s.headers)
        || ReadHeader(decode(s.body)).Failure?)
  }

  /** Once a body is cached, no call makes a request or changes the body
      or the headers. */
  lemma {:induction false} RunKeepsCache(s: Session, calls: seq<Call>, decode: Decoder, parse: NumberParser)
    requires Cached(s, decode)
    ensures Run(s, calls, decode, parse).body == s.body
    ensures Run(s, calls, decode, parse).headers == s.headers
    ensures Run(s, calls, decode, parse).fetches == s.fetches
    decreases |calls|
  {
    if |calls| > 0 {
      var next := Apply(s, calls[0], decode, parse);
      assert next.body == s.body && next.headers == s.headers && next.fetches == s.fetches;
      RunKeepsCache(next, calls[1..], decode, parse);
    }
  }

  /** A successful `begin_scan` that caches a non-empty body leaves the
      session cached. */
  lemma BeginScanCaches(s: Session, response: Result<seq<byte>>, decode: Decoder)
    requires BeginScan(s, response, decode).0.Ok? && |BeginScan(s, response, decode).1.body| > 0
    ensures Cached(BeginScan(s, response, decode).1, decode)
  {
  }

  /** After a successful first scan, any further calls and then a reset
      restore exactly the session the first scan left, with no new request,
      so the reset scan replays exactly the rows the first scan gives. */
  lemma ResetReplays(s: Session, response: Result<seq<byte>>, decode: Decoder, parse: NumberParser,
                     calls: seq<Call>, response': Result<seq<byte>>, columns: seq<string>, n: nat)
    requires BeginScan(s, response, decode).0.Ok? && |BeginScan(s, response, decode).1.body| > 0
    ensures var first := BeginScan(s, response, decode).1;
            var reset := ReScan(Run(first, calls, decode, parse), response', decode);
            && reset == (Ok, first)
            && Steps(reset.1, columns, parse, n) == Steps(first, columns, parse, n)
  {
    var first := BeginScan(s, response, decode).1;
    BeginScanCaches(s, response, decode);
    RunKeepsCache(first, calls, decode, parse);
  }

  /** A fresh session whose first request returns a non-empty body makes
      exactly one request over any sequence of later calls, whether or not
      a header record can be read from that body. */
  lemma FetchOnce(body: seq<byte>, decode: Decoder, parse: NumberParser, calls: seq<Call>)
    requires |body| > 0
    ensures Run(BeginScan(Initial, Success(body), decode).1, calls, decode, parse).fetches == 1
  {
    var first := BeginScan(Initial, Success(body), decode).1;
    assert first.body == body && first.fetches == 1;
    assert Cached(first, decode);
    RunKeepsCache(first, calls, decode, parse);
  }

  /** After `end_scan`, iterating is an error until the next `begin_scan`. */
  lemma IterAfterEndFails(s: Session, columns: seq<string>, parse: NumberParser)
    ensures IterScan(EndScan(s).1, columns, parse).0 == Failed(ReaderMissing)
  {
  }

  /** Where the example's columns sit in its header record. */
  lemma ExampleIndices()
    ensures ColumnIndex(["NoticeId", "Title"], NoticeIdColumn) == Some(0)
    ensures ColumnIndex(["NoticeId", "Title"], "title") == Some(1)
  {
    KeySource();
    TitleSource();
  }

  /** The example's fields are plain text. */
  lemma ExampleCells(parse: NumberParser)
    ensures Transform(parse, NoticeIdColumn, "N1") == Str("N1")
    ensures Transform(parse, "title", "Kept") == Str("Kept")
  {
    NotMissingWith("N1", 0);
    NotMissingWith("Kept", 0);
    assert RuleOf(NoticeIdColumn) == TextRule;
    assert RuleOf("title") == TextRule;
    DefaultColumnRule(parse, NoticeIdColumn, "N1");
    DefaultColumnRule(parse, "title", "Kept");
  }
}
