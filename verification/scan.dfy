/** The scan session: the cached response body, the captured header record,
    the live record cursor and the life-cycle hooks the host calls
    (`begin_scan`, `iter_scan`, `re_scan`, `end_scan` and the modify hooks).
    The session is an explicit value threaded through the hooks; each hook
    returns its outcome together with the session it leaves behind. */
module Scan {
  import opened Wrappers
  import opened Text
  import opened Columns
  import opened Values

  newtype byte = x: int | 0 <= x < 256

  /** How tokenising a body ends once its records run out: cleanly, or with
      a read error. */
  datatype Trailer = Clean | Broken(reason: string)

  /** A tokenised body: its records in order (the header record first),
      then its trailer. */
  datatype Stream = Stream(records: seq<seq<string>>, trailer: Trailer)

  /** Decoding the body from Windows-1252 and tokenising it as CSV,
      supplied by the caller. */
  type Decoder = seq<byte> -> Stream

  /** A reader over a tokenised body, `next` being the position of the next
      record to hand out. */
  datatype Cursor = Cursor(stream: Stream, next: nat)

  /** The connector's state. An empty `body` means nothing has been fetched;
      an empty `headers` means no header record has been captured. `fetches`
      counts the requests made for the dataset. */
  datatype Session = Session(body: seq<byte>, headers: seq<string>, reader: Option<Cursor>, fetches: nat)

  /** The state `init` creates. */
  const Initial: Session := Session([], [], None, 0)

  /** The result of reading one record. */
  datatype Read = Record(fields: seq<string>) | EndOfStream | ReadError(reason: string)

  /** The four outcomes of `iter_scan`. The source reports both `Skipped`
      and `Produced` as `Ok(Some(0))`, telling them apart only by whether
      cells were pushed into the row. */
  datatype Step = Failed(reason: string) | Exhausted | Skipped | Produced(row: seq<Cell>)

  const ReaderMissing: string := "CSV reader not initialized"

  /** A fresh reader over a stream: the header record is consumed, so the
      first record handed out is the first data record. */
  function Open(st: Stream): (c: Cursor)
    ensures c.stream == st && c.next == 1
  {
    Cursor(st, 1)
  }

  /** `read_record`: the next record, the end of the stream, or the read
      error; only a record moves the cursor on. */
  function ReadRecord(c: Cursor): (r: (Read, Cursor))
    ensures r.1.stream == c.stream
    ensures c.next < |c.stream.records| ==>
              r.0 == Record(c.stream.records[c.next]) && r.1.next == c.next + 1
    ensures c.next >= |c.stream.records| ==> r.1 == c
    ensures c.next >= |c.stream.records| && c.stream.trailer.Clean? ==> r.0 == EndOfStream
    ensures c.next >= |c.stream.records| && c.stream.trailer.Broken? ==>
              r.0 == ReadError(c.stream.trailer.reason)
  {
    if c.next < |c.stream.records| then (Record(c.stream.records[c.next]), c.(next := c.next + 1))
    else match c.stream.trailer
      case Clean => (EndOfStream, c)
      case Broken(e) => (ReadError(e), c)
  }

  /** `headers()`: the first record; an empty record when the stream has no
      records and ended cleanly; the read error otherwise. */
  function ReadHeader(st: Stream): (r: Result<seq<string>>)
    ensures |st.records| > 0 ==> r == Success(st.records[0])
    ensures |st.records| == 0 ==> (r.Success? <==> st.trailer.Clean?)
    ensures r.Success? && |st.records| == 0 ==> r.value == []
  {
    if |st.records| > 0 then Success(st.records[0])
    else match st.trailer
      case Clean => Success([])
      case Broken(e) => Failure(e)
  }

  // ---------------------------------------------------------------------
  // begin_scan / re_scan / end_scan

  /** `begin_scan`. `response` is what the request for the dataset returns
      if one is made. The dataset is requested only when no body is cached;
      the header record is captured only when none is; a fresh reader
      positioned at the first data record is always installed. A failed
      request or header read leaves the reader as it was. */
  function BeginScan(s: Session, response: Result<seq<byte>>, decode: Decoder): (r: (Status, Session))
    // a request is made exactly when no body is cached
    ensures r.1.fetches == s.fetches + (if |s.body| == 0 then 1 else 0)
    ensures |s.body| > 0 ==> r.1.body == s.body
    ensures |s.body| == 0 ==> r.1.body == (if response.Success? then response.value else s.body)
    // captured headers are never replaced
    ensures |s.headers| > 0 ==> r.1.headers == s.headers
    ensures |s.headers| == 0 && r.0.Ok? ==> Success(r.1.headers) == ReadHeader(decode(r.1.body))
    // success installs a fresh reader over the cached body
    ensures r.0.Ok? ==> r.1.reader == Some(Open(decode(r.1.body)))
    // the two ways to fail, each leaving reader and headers alone
    ensures r.0.Err? <==> (|s.body| == 0 && response.Failure?)
                          || (|s.headers| == 0 && ReadHeader(decode(r.1.body)).Failure?)
    ensures r.0.Err? ==> r.1.reader == s.reader && r.1.headers == s.headers
  {
    if |s.body| == 0 && response.Failure? then
      (Err(response.error), s.(fetches := s.fetches + 1))
    else
      var fetched :=
        if |s.body| == 0 then s.(body := response.value, fetches := s.fetches + 1) else s;
      var stream := decode(fetched.body);
      if |s.headers| == 0 then
        match ReadHeader(stream)
        case Failure(e) => (Err(e), fetched)
        case Success(h) => (Ok, fetched.(headers := h, reader := Some(Open(stream))))
      else
        (Ok, fetched.(reader := Some(Open(stream))))
  }

  /** `re_scan` is `begin_scan` over the same session. */
  function ReScan(s: Session, response: Result<seq<byte>>, decode: Decoder): (r: (Status, Session))
    ensures |s.body| > 0 ==> r.1.fetches == s.fetches && r.1.body == s.body
    ensures r.0.Ok? ==> r.1.reader == Some(Open(decode(r.1.body)))
  {
    BeginScan(s, response, decode)
  }

  /** `end_scan`: the reader is dropped; body, headers and fetch count are
      kept for a later scan. */
  function EndScan(s: Session): (r: (Status, Session))
    ensures r.0 == Ok
    ensures r.1.reader.None?
    ensures r.1.body == s.body && r.1.headers == s.headers && r.1.fetches == s.fetches
  {
    (Ok, s.(reader := None))
  }

  // ---------------------------------------------------------------------
  // iter_scan

  /** Whether a record lacks its primary key: the key column resolves and
      the record has no field there or only whitespace. When the key column
      does not resolve, no record is considered to lack it. */
  predicate MissingKey(headers: seq<string>, fields: seq<string>) {
    match ColumnIndex(headers, NoticeIdColumn)
    case None => false
    case Some(i) => i >= |fields| || |Trim(fields[i])| == 0
  }

  /** A record lacks its key exactly when the key column resolves and the
      record stops before that field or holds only whitespace there. A
      `nan` key is not missing: the key test is not the missing-data test. */
  lemma MissingKeyIsBlank(headers: seq<string>, fields: seq<string>)
    ensures MissingKey(headers, fields) <==>
              && ColumnIndex(headers, NoticeIdColumn).Some?
              && var i := ColumnIndex(headers, NoticeIdColumn).value;
                 (i >= |fields| || IsBlank(fields[i]))
  {
    match ColumnIndex(headers, NoticeIdColumn)
    case None =>
    case Some(i) =>
      if i < |fields| {
        TrimEmptyIffBlank(fields[i]);
      }
  }

  /** The message for a requested column that does not resolve. */
  function UnmappedMessage(column: string): string {
    "Column mapping not found for '" + column + "'"
  }

  /** The cell a record contributes to a resolvable column: the field at
      the column's position, coerced, or Null when the record is too short
      to have that field. */
  function FieldCell(parse: NumberParser, headers: seq<string>, fields: seq<string>, column: string): (r: Cell)
    requires ColumnIndex(headers, column).Some?
    // the field under the first header naming the column's source
    ensures exists i :: && 0 <= i < |headers|
                        && SourceFor(column) == Some(headers[i])
                        && (forall j :: 0 <= j < i ==> headers[j] != headers[i])
                        && (i < |fields| ==> r == Transform(parse, column, fields[i]))
                        && (i >= |fields| ==> r == Null)
  {
    var i := ColumnIndex(headers, column).value;
    if i < |fields| then Transform(parse, column, fields[i]) else Null
  }

  /** The row a record gives for the requested columns, in request order;
      the first requested column that does not resolve is an error. */
  function Project(parse: NumberParser, headers: seq<string>, fields: seq<string>, columns: seq<string>): (r: Result<seq<Cell>>)
    ensures r.Success? <==> forall k :: 0 <= k < |columns| ==> ColumnIndex(headers, columns[k]).Some?
    ensures r.Success? ==> |r.value| == |columns|
    ensures r.Success? ==> forall k :: 0 <= k < |columns| ==>
              r.value[k] == FieldCell(parse, headers, fields, columns[k])
    ensures r.Failure? ==>
              exists k :: (0 <= k < |columns| && ColumnIndex(headers, columns[k]).None?
                           && (forall j :: 0 <= j < k ==> ColumnIndex(headers, columns[j]).Some?)
                           && r.error == UnmappedMessage(columns[k]))
  {
    if |columns| == 0 then Success([])
    else match ColumnIndex(headers, columns[0])
      case None => Failure(UnmappedMessage(columns[0]))
      case Some(_) =>
        match Project(parse, headers, fields, columns[1..])
        case Failure(e) =>
          assert forall k :: 0 <= k < |columns| - 1 ==> columns[1..][k] == columns[k + 1];
          Failure(e)
        case Success(rest) =>
          Success([FieldCell(parse, headers, fields, columns[0])] + rest)
  }

  /** `iter_scan` for the requested `columns`. */
  function IterScan(s: Session, columns: seq<string>, parse: NumberParser): (r: (Step, Session))
    // only the reader moves
    ensures r.1.body == s.body && r.1.headers == s.headers && r.1.fetches == s.fetches
    // no reader: an error, nothing changes
    ensures s.reader.None? ==> r == (Failed(ReaderMissing), s)
    // a record: the cursor moves past it, whatever the outcome
    ensures s.reader.Some? ==> r.1.reader == Some(ReadRecord(s.reader.value).1)
    ensures s.reader.Some? && ReadRecord(s.reader.value).0.Record? ==>
              var fields := ReadRecord(s.reader.value).0.fields;
              && (r.0 == Skipped <==> MissingKey(s.headers, fields))
              && (r.0.Produced? <==> !MissingKey(s.headers, fields)
                                     && Project(parse, s.headers, fields, columns).Success?)
              && (r.0.Produced? ==> r.0.row == Project(parse, s.headers, fields, columns).value)
    // the end of the stream and read errors
    ensures s.reader.Some? && ReadRecord(s.reader.value).0 == EndOfStream ==> r.0 == Exhausted
    ensures s.reader.Some? && ReadRecord(s.reader.value).0.ReadError? ==>
              r.0 == Failed(ReadRecord(s.reader.value).0.reason)
    ensures r.0 == Exhausted ==> s.reader.Some? && ReadRecord(s.reader.value).0 == EndOfStream
    ensures r.0.Produced? ==> |r.0.row| == |columns|
    // a keyed record with an unresolved requested column: the mapping error
    ensures s.reader.Some? && ReadRecord(s.reader.value).0.Record? ==>
              var fields := ReadRecord(s.reader.value).0.fields;
              !MissingKey(s.headers, fields) && Project(parse, s.headers, fields, columns).Failure? ==>
                r.0 == Failed(Project(parse, s.headers, fields, columns).error)
  {
    match s.reader
    case None => (Failed(ReaderMissing), s)
    case Some(c) =>
      var (read, next) := ReadRecord(c);
      var s' := s.(reader := Some(next));
      match read
      case EndOfStream => (Exhausted, s')
      case ReadError(e) => (Failed(e), s')
      case Record(fields) =>
        if MissingKey(s.headers, fields) then (Skipped, s')
        else match Project(parse, s.headers, fields, columns)
          case Failure(e) => (Failed(e), s')
          case Success(row) => (Produced(row), s')
  }

  // ---------------------------------------------------------------------
  // The modify hooks: the dataset is read-only

  const ModifyUnsupported: string := "modify on foreign table is not supported"

  /** `begin_modify` always fails. */
  function BeginModify(): (r: Status)
    ensures r == Err(ModifyUnsupported)
  {
    Err(ModifyUnsupported)
  }

  /** `insert` accepts the row and does nothing with it. */
  function Insert(row: seq<Cell>): (r: Status)
    ensures r.Ok?
  {
    Ok
  }

  /** `update` accepts the row id and row and does nothing with them. */
  function Update(rowid: Cell, row: seq<Cell>): (r: Status)
    ensures r.Ok?
  {
    Ok
  }

  /** `delete` accepts the row id and does nothing with it. */
  function Delete(rowid: Cell): (r: Status)
    ensures r.Ok?
  {
    Ok
  }

  /** `end_modify` does nothing. */
  function EndModify(): (r: Status)
    ensures r.Ok?
  {
    Ok
  }
}
