/**
 Whole replication streams: RESP commands and a full synchronisation, written out and parsed back,
 in one piece and in chunks.
 */
module ReplicaRoundTrip {
  import opened Bytes
  import opened Decimal
  import opened RdbValue
  import opened RdbString
  import opened ReplicaRequests
  import opened ReplicaStream
  import opened ReplicaChunks
  import opened RdbSnapshot
  import opened RdbWire
  import RdbChunks
  import Rdb = RdbParser

  // ----- Lines -----

  lemma {:induction false} FindAfterDigits(digits: seq<byte>, suffix: seq<byte>)
    requires AllDigits(digits)
    ensures FindCrlf(digits + ([13, 10] + suffix)) == Some(|digits|)
    decreases |digits|
  {
    var buf := digits + ([13, 10] + suffix);
    if digits != [] {
      assert buf[0] == digits[0] && IsDigit(digits[0]);
      assert buf[1..] == digits[1..] + ([13, 10] + suffix);
      FindAfterDigits(digits[1..], suffix);
    }
  }

  /** A number and its line end. */
  function EncodeNumber(n: nat): seq<byte> {
    NatText(n) + [13, 10]
  }

  /** It is read back if it fits 64 bits. */
  lemma NumberRoundTrip(n: nat, suffix: seq<byte>)
    ensures ParseNumber(EncodeNumber(n) + suffix)
      == if n <= 0xFFFF_FFFF_FFFF_FFFF then Number(n, |EncodeNumber(n)|) else NotANumber
  {
    var digits := NatText(n);
    Associate(digits, [13, 10], suffix);
    FindAfterDigits(digits, suffix);
    assert (digits + ([13, 10] + suffix))[..|digits|] == digits;
    ParseNatText(n, USIZE_MAX);
  }

  // ----- Arrays -----

  function EncodeBulk(item: seq<byte>): seq<byte> {
    [36] + (EncodeNumber(|item|) + (item + [13, 10]))
  }

  function EncodeBulks(items: seq<seq<byte>>): seq<byte> {
    if items == [] then [] else EncodeBulk(items[0]) + EncodeBulks(items[1..])
  }

  function EncodeArray(items: seq<seq<byte>>): seq<byte> {
    [42] + (EncodeNumber(|items|) + EncodeBulks(items))
  }

  lemma BulkLayout(pre: seq<byte>, num: seq<byte>, item: seq<byte>, suffix: seq<byte>)
    ensures var buf := pre + ([36] + (num + (item + [13, 10])) + suffix);
            var start := |pre| + 1 + |num|;
      && |buf| == start + |item| + 2 + |suffix|
      && buf[|pre|] == 36
      && buf[|pre| + 1..] == num + (item + [13, 10] + suffix)
      && buf[start..start + |item|] == item
  {
  }

  /** Any octets, line ends included, survive as a bulk string. */
  lemma BulkRoundTrip(pre: seq<byte>, item: seq<byte>, suffix: seq<byte>)
    requires |item| <= 0xFFFF_FFFF_FFFF_FFFF
    ensures ParseBulk(pre + (EncodeBulk(item) + suffix), |pre|) == Elements([item], |pre| + |EncodeBulk(item)|)
  {
    BulkLayout(pre, EncodeNumber(|item|), item, suffix);
    NumberRoundTrip(|item|, item + [13, 10] + suffix);
  }

  /** The bulk string of `item` stands in `buf` after `pre`. */
  predicate Stands(buf: seq<byte>, pre: seq<byte>, item: seq<byte>, suffix: seq<byte>) {
    |item| <= 0xFFFF_FFFF_FFFF_FFFF && buf == pre + (EncodeBulk(item) + suffix)
  }

  /** `p` finds every bulk string that stands in `buf`. */
  ghost predicate FindsBulks(p: nat -> Elements, buf: seq<byte>) {
    forall pre: seq<byte>, item: seq<byte>, suffix: seq<byte> {:trigger Stands(buf, pre, item, suffix)} ::
      Stands(buf, pre, item, suffix) ==> p(|pre|) == Elements([item], |pre| + |EncodeBulk(item)|)
  }

  lemma ParserFindsBulks(buf: seq<byte>)
    ensures FindsBulks(BulkParser(buf), buf)
  {
    forall pre: seq<byte>, item: seq<byte>, suffix: seq<byte> | Stands(buf, pre, item, suffix)
      ensures BulkParser(buf)(|pre|) == Elements([item], |pre| + |EncodeBulk(item)|)
    {
      BulkRoundTrip(pre, item, suffix);
    }
  }

  lemma ParseManyCons(p: nat -> Elements, cursor: nat, n: nat, first: Elements, rest: Elements)
    requires p(cursor) == first && first.Elements? && ParseMany(p, first.end, n) == rest && rest.Elements?
    ensures ParseMany(p, cursor, n + 1) == Elements(first.items + rest.items, rest.end)
  {
  }

  lemma {:induction false} BulksRoundTrip(p: nat -> Elements, pre: seq<byte>, items: seq<seq<byte>>, suffix: seq<byte>, buf: seq<byte>)
    requires forall i :: 0 <= i < |items| ==> |items[i]| <= 0xFFFF_FFFF_FFFF_FFFF
    requires buf == pre + (EncodeBulks(items) + suffix) && FindsBulks(p, buf)
    ensures ParseMany(p, |pre|, |items|) == Elements(items, |pre| + |EncodeBulks(items)|)
    decreases |items|
  {
    if items != [] {
      var h, t := EncodeBulk(items[0]), EncodeBulks(items[1..]);
      Regroup(pre, h, t, suffix);
      assert Stands(buf, pre, items[0], t + suffix);
      BulksRoundTrip(p, pre + h, items[1..], suffix, buf);
      ParseManyCons(p, |pre|, |items| - 1, Elements([items[0]], |pre| + |h|), Elements(items[1..], |pre + h| + |t|));
      assert [items[0]] + items[1..] == items;
    }
  }

  /** An array is its items, once its count is there. */
  lemma ArrayItems(buf: seq<byte>, count: nat, octets: nat)
    requires buf != [] && buf[0] == 42 && ParseNumber(buf[1..]) == Number(count, octets)
    ensures ParseArray(buf) == ParseMany(BulkParser(buf), 1 + octets, count)
  {
  }

  /** The items of an array stand after its count. */
  lemma ItemsRead(pre: seq<byte>, items: seq<seq<byte>>, suffix: seq<byte>, buf: seq<byte>)
    requires Encodable(items) && buf == pre + (EncodeBulks(items) + suffix)
    ensures ParseMany(BulkParser(buf), |pre|, |items|) == Elements(items, |pre| + |EncodeBulks(items)|)
  {
    ParserFindsBulks(buf);
    BulksRoundTrip(BulkParser(buf), pre, items, suffix, buf);
  }

  lemma CountLayout(num: seq<byte>, rest: seq<byte>)
    ensures var buf := [42] + num + rest; buf[0] == 42 && buf[1..] == num + rest
  {
  }

  /** After its count, an array is read item by item. */
  lemma CountRead(n: nat, rest: seq<byte>, buf: seq<byte>)
    requires n <= 0xFFFF_FFFF_FFFF_FFFF && buf == [42] + EncodeNumber(n) + rest
    ensures ParseArray(buf) == ParseMany(BulkParser(buf), |[42] + EncodeNumber(n)|, n)
  {
    CountLayout(EncodeNumber(n), rest);
    NumberRoundTrip(n, rest);
    ArrayItems(buf, n, |EncodeNumber(n)|);
  }

  lemma ArrayRoundTrip(items: seq<seq<byte>>, suffix: seq<byte>)
    requires Encodable(items)
    ensures ParseArray(EncodeArray(items) + suffix) == Elements(items, |EncodeArray(items)|)
  {
    var num, body := EncodeNumber(|items|), EncodeBulks(items);
    var pre := [42] + num;
    var buf := pre + (body + suffix);
    CountRead(|items|, body + suffix, buf);
    ItemsRead(pre, items, suffix, buf);
    Associate([42], num, body);
    Associate(pre, body, suffix);
  }

  // ----- Requests -----

  predicate ValidRequests(rs: seq<Request>) {
    forall i :: 0 <= i < |rs| ==> ValidRequest(rs[i])
  }

  function EncodeRequests(rs: seq<Request>): seq<byte> {
    if rs == [] then [] else rs[0].pad + EncodeArray(Items(rs[0])) + EncodeRequests(rs[1..])
  }

  /** The commands to pass on, each with the database selected before it. */
  function DataCommands(db: nat, rs: seq<Request>): seq<RawCommand>
    decreases |rs|
  {
    if rs == [] then [] else RequestCommand(db, rs[0]) + DataCommands(RequestDb(db, rs[0]), rs[1..])
  }

  /** The database selected last. */
  function LastDb(db: nat, rs: seq<Request>): nat
    decreases |rs|
  {
    if rs == [] then db else LastDb(RequestDb(db, rs[0]), rs[1..])
  }

  function RequestsOutput(db: nat, rs: seq<Request>): Output {
    Output(DataCommands(db, rs),
           exists i :: 0 <= i < |rs| && rs[i].PingFrame?,
           exists i :: 0 <= i < |rs| && rs[i].GetAckFrame?)
  }

  lemma {:induction false} TrimPad(pad: seq<byte>, buf: seq<byte>)
    requires IsPad(pad) && buf != [] && buf[0] != 13 && buf[0] != 10
    ensures Trim(pad + buf) == buf
    decreases |pad|
  {
    if pad == [] {
      assert pad + buf == buf;
    } else {
      assert (pad + buf)[1..] == pad[1..] + buf;
      TrimPad(pad[1..], buf);
    }
  }

  lemma RequestStep(feed: Feeder, r: Request, suffix: seq<byte>, db: nat)
    requires ValidRequest(r)
    ensures Step(feed, State(r.pad + EncodeArray(Items(r)) + suffix, Streaming, db))
         == Progress(State(suffix, Streaming, RequestDb(db, r)), Output(RequestCommand(db, r), r.PingFrame?, r.GetAckFrame?))
  {
    var e := EncodeArray(Items(r));
    Associate(r.pad, e, suffix);
    TrimPad(r.pad, e + suffix);
    ArrayRoundTrip(Items(r), suffix);
    assert (e + suffix)[|e|..] == suffix;
    RequestAgrees(db, r);
  }

  lemma OutputCons(db: nat, rs: seq<Request>)
    requires rs != []
    ensures Then(Output(RequestCommand(db, rs[0]), rs[0].PingFrame?, rs[0].GetAckFrame?),
                 RequestsOutput(RequestDb(db, rs[0]), rs[1..])) == RequestsOutput(db, rs)
  {
    var rest := rs[1..];
    assert forall i :: 0 <= i < |rest| ==> rest[i] == rs[i + 1];
    assert forall i :: 1 <= i < |rs| ==> rs[i] == rest[i - 1];
  }

  /**
   Every list of requests with arbitrary binary arguments, written as RESP arrays with any line ends
   in between, parses to exactly its data commands, each tagged with the database selected last, and
   leaves nothing in the buffer; pings and acknowledgement requests are noticed.
   */
  lemma {:induction false} RespRoundTrip(feed: Feeder, rs: seq<Request>, db: nat)
    requires ValidRequests(rs)
    ensures Run(feed, State(EncodeRequests(rs), Streaming, db))
         == Fed(State([], Streaming, LastDb(db, rs)), RequestsOutput(db, rs))
    decreases |rs|
  {
    if rs != [] {
      RequestStep(feed, rs[0], EncodeRequests(rs[1..]), db);
      RespRoundTrip(feed, rs[1..], RequestDb(db, rs[0]));
      OutputCons(db, rs);
    }
  }

  lemma {:induction false} RequestsAppend(db: nat, a: seq<Request>, b: seq<Request>)
    ensures DataCommands(db, a + b) == DataCommands(db, a) + DataCommands(LastDb(db, a), b)
    ensures LastDb(db, a + b) == LastDb(LastDb(db, a), b)
    decreases |a|
  {
    if a == [] {
      assert a + b == b;
    } else {
      assert (a + b)[1..] == a[1..] + b;
      RequestsAppend(RequestDb(db, a[0]), a[1..], b);
    }
  }

  lemma OneRequest(db: nat, r: Request)
    ensures DataCommands(db, [r]) == RequestCommand(db, r) && LastDb(db, [r]) == RequestDb(db, r)
  {
    assert [r][1..] == [];
  }

  lemma {:induction false} NothingSelected(db: nat, rs: seq<Request>)
    requires forall i :: 0 <= i < |rs| ==> !rs[i].SelectFrame?
    ensures LastDb(db, rs) == db
    decreases |rs|
  {
    if rs != [] {
      NothingSelected(db, rs[1..]);
    }
  }

  /** The database of a data command is that of the last selection before it, or the initial one. */
  lemma DbOfCommand(db: nat, before: seq<Request>, r: Request, after: seq<Request>)
    ensures var now := LastDb(db, before);
      && DataCommands(db, before + [r] + after)
         == DataCommands(db, before) + RequestCommand(now, r) + DataCommands(if r.SelectFrame? then r.db else now, after)
      && ((forall i :: 0 <= i < |before| ==> !before[i].SelectFrame?) ==> now == db)
  {
    RequestsAppend(db, before + [r], after);
    RequestsAppend(db, before, [r]);
    OneRequest(LastDb(db, before), r);
    if forall i :: 0 <= i < |before| ==> !before[i].SelectFrame? {
      NothingSelected(db, before);
    }
  }

  // ----- What is refused -----

  /** No line end inside. */
  predicate OneLine(text: seq<byte>) {
    forall i :: 0 <= i < |text| - 1 ==> !(text[i] == 13 && text[i + 1] == 10)
  }

  /** Any line: it is read as the number that it shows. */
  lemma NumberExactly(text: seq<byte>, suffix: seq<byte>)
    requires OneLine(text)
    ensures match ParseNumber(text + ([13, 10] + suffix))
      case Number(v, octets) => Shows(text, v) && v <= 0xFFFF_FFFF_FFFF_FFFF && octets == |text| + 2
      case NotANumber => forall v :: Shows(text, v) ==> v > 0xFFFF_FFFF_FFFF_FFFF
      case NoLineEnd => false
  {
    var buf := text + ([13, 10] + suffix);
    assert LineEndAt(buf, |text|);
    forall i | 0 <= i < |text|
      ensures !LineEndAt(buf, i)
    {
      assert buf[i + 1] == if i < |text| - 1 then text[i + 1] else 13;
    }
    assert buf[..|text|] == text;
    ParseExactly(text, USIZE_MAX);
  }

  /** The header starts with a dollar sign, and a size follows. */
  lemma BadHeaderRefused(feed: Feeder, pad: seq<byte>, buf: seq<byte>)
    requires IsPad(pad) && buf != [] && buf[0] !in {10, 13, 36}
    ensures Feed(feed, INITIAL, pad + buf) == Rejected(ExpectedBulkStringHeader)
  {
    NothingBefore(pad + buf);
    TrimPad(pad, buf);
  }

  /** `text` shows no number of 64 bits. */
  ghost predicate NoNumber(text: seq<byte>) {
    OneLine(text) && forall v :: Shows(text, v) ==> v > 0xFFFF_FFFF_FFFF_FFFF
  }

  lemma BadSizeRefused(feed: Feeder, pad: seq<byte>, text: seq<byte>, suffix: seq<byte>)
    requires IsPad(pad) && NoNumber(text)
    ensures Feed(feed, INITIAL, pad + ([36] + (text + ([13, 10] + suffix)))) == Rejected(InvalidSize)
  {
    var line := [36] + (text + ([13, 10] + suffix));
    NothingBefore(pad + line);
    TrimPad(pad, line);
    NumberExactly(text, suffix);
    assert line[1..] == text + ([13, 10] + suffix);
  }

  /** A request starts with a star, and a count follows. */
  lemma BadRequestRefused(feed: Feeder, pad: seq<byte>, buf: seq<byte>, db: nat)
    requires IsPad(pad) && buf != [] && buf[0] !in {10, 13, 42}
    ensures Run(feed, State(pad + buf, Streaming, db)) == Rejected(ExpectedArray)
  {
    TrimPad(pad, buf);
  }

  lemma BadCountRefused(feed: Feeder, pad: seq<byte>, text: seq<byte>, suffix: seq<byte>, db: nat)
    requires IsPad(pad) && NoNumber(text)
    ensures Run(feed, State(pad + ([42] + (text + ([13, 10] + suffix))), Streaming, db)) == Rejected(InvalidCount)
  {
    var line := [42] + (text + ([13, 10] + suffix));
    NumberExactly(text, suffix);
    assert line[1..] == text + ([13, 10] + suffix);
    ArrayRefused(feed, pad, line, db, InvalidCount);
  }

  lemma {:induction false} BulksThenBad(p: nat -> Elements, pre: seq<byte>, items: seq<seq<byte>>, suffix: seq<byte>, buf: seq<byte>, n: nat, e: Fault)
    requires forall i :: 0 <= i < |items| ==> |items[i]| <= 0xFFFF_FFFF_FFFF_FFFF
    requires buf == pre + (EncodeBulks(items) + suffix) && FindsBulks(p, buf)
    requires n > |items| && p(|pre| + |EncodeBulks(items)|) == Bad(e)
    ensures ParseMany(p, |pre|, n) == Bad(e)
    decreases |items|
  {
    if items != [] {
      var h, t := EncodeBulk(items[0]), EncodeBulks(items[1..]);
      Regroup(pre, h, t, suffix);
      assert Stands(buf, pre, items[0], t + suffix);
      BulksThenBad(p, pre + h, items[1..], suffix, buf, n - 1, e);
      assert p(|pre|) == Elements([items[0]], |pre| + |h|);
    }
  }

  lemma ItemsThenBad(p: nat -> Elements, pre: seq<byte>, items: seq<seq<byte>>, bad: seq<byte>, buf: seq<byte>, n: nat, at: nat, e: Fault)
    requires p == BulkParser(buf) && Encodable(items) && buf == pre + (EncodeBulks(items) + bad) && n > |items|
    requires at == |pre| + |EncodeBulks(items)| && p(at) == Bad(e)
    ensures ParseMany(p, |pre|, n) == Bad(e)
  {
    ParserFindsBulks(buf);
    BulksThenBad(p, pre, items, bad, buf, n, e);
  }

  /** An array that announces more items than it has. */
  function Begun(n: nat, items: seq<seq<byte>>): (s: seq<byte>)
    ensures s != [] && s[0] == 42
  {
    [42] + EncodeNumber(n) + EncodeBulks(items)
  }

  /** Good items before a bad one do not help. */
  lemma BadArray(n: nat, items: seq<seq<byte>>, bad: seq<byte>, head: seq<byte>, e: Fault)
    requires |items| < n <= 0xFFFF_FFFF_FFFF_FFFF && Encodable(items)
    requires head == Begun(n, items) && BulkParser(head + bad)(|head|) == Bad(e)
    ensures ParseArray(head + bad) == Bad(e)
  {
    var pre, body, buf := [42] + EncodeNumber(n), EncodeBulks(items), head + bad;
    Associate(pre, body, bad);
    CountRead(n, body + bad, buf);
    ItemsThenBad(BulkParser(buf), pre, items, bad, buf, n, |head|, e);
  }

  lemma ArrayRefused(feed: Feeder, pad: seq<byte>, buf: seq<byte>, db: nat, e: Fault)
    requires IsPad(pad) && buf != [] && buf[0] == 42 && ParseArray(buf) == Bad(e)
    ensures Run(feed, State(pad + buf, Streaming, db)) == Rejected(e)
  {
    TrimPad(pad, buf);
  }

  /** Each item starts with a dollar sign, and a length follows. */
  lemma BadItemRefused(feed: Feeder, pad: seq<byte>, n: nat, items: seq<seq<byte>>, bad: seq<byte>, db: nat)
    requires IsPad(pad) && |items| < n <= 0xFFFF_FFFF_FFFF_FFFF && Encodable(items) && bad != [] && bad[0] != 36
    ensures Run(feed, State(pad + (Begun(n, items) + bad), Streaming, db)) == Rejected(ExpectedBulkString)
  {
    BadArray(n, items, bad, Begun(n, items), ExpectedBulkString);
    ArrayRefused(feed, pad, Begun(n, items) + bad, db, ExpectedBulkString);
  }

  lemma BadLength(pre: seq<byte>, text: seq<byte>, suffix: seq<byte>)
    requires NoNumber(text)
    ensures ParseBulk(pre + ([36] + (text + ([13, 10] + suffix))), |pre|) == Bad(InvalidLength)
  {
    var bad := [36] + (text + ([13, 10] + suffix));
    assert (pre + bad)[|pre| + 1..] == text + ([13, 10] + suffix);
    NumberExactly(text, suffix);
  }

  lemma BadLengthRefused(feed: Feeder, pad: seq<byte>, n: nat, items: seq<seq<byte>>, text: seq<byte>, suffix: seq<byte>, db: nat)
    requires IsPad(pad) && |items| < n <= 0xFFFF_FFFF_FFFF_FFFF && Encodable(items) && NoNumber(text)
    ensures Run(feed, State(pad + (Begun(n, items) + ([36] + (text + ([13, 10] + suffix)))), Streaming, db))
         == Rejected(InvalidLength)
  {
    var bad := [36] + (text + ([13, 10] + suffix));
    BadLength(Begun(n, items), text, suffix);
    BadArray(n, items, bad, Begun(n, items), InvalidLength);
    ArrayRefused(feed, pad, Begun(n, items) + bad, db, InvalidLength);
  }

  // ----- A full synchronisation -----

  /** Header, payload, and what follows. */
  function EncodeHeader(pad: seq<byte>, size: nat): seq<byte> {
    pad + ([36] + EncodeNumber(size))
  }

  function SyncStream(pad: seq<byte>, payload: seq<byte>, rest: seq<byte>): seq<byte> {
    EncodeHeader(pad, |payload|) + (payload + rest)
  }

  function EncodeSync(pad: seq<byte>, payload: seq<byte>, rs: seq<Request>): seq<byte> {
    SyncStream(pad, payload, EncodeRequests(rs))
  }

  /** The parser at the start of a payload of `size` octets. */
  function AtPayload(buffer: seq<byte>, size: nat): State {
    State(buffer, ReadingRdb(Rdb.INITIAL, size, 0), 0)
  }

  lemma HeaderRoundTrip(feed: Feeder, pad: seq<byte>, size: nat, rest: seq<byte>)
    requires IsPad(pad) && size <= 0xFFFF_FFFF_FFFF_FFFF
    ensures Step(feed, State(EncodeHeader(pad, size) + rest, WaitingRdb, 0)) == Progress(AtPayload(rest, size), SILENT)
  {
    var num := EncodeNumber(size);
    var line := [36] + num + rest;
    Associate(pad, [36] + num, rest);
    TrimPad(pad, line);
    assert line[1..] == num + rest;
    NumberRoundTrip(size, rest);
    assert line[1 + |num|..] == rest;
  }

  lemma RunHeader(feed: Feeder, pad: seq<byte>, size: nat, rest: seq<byte>)
    requires IsPad(pad) && size <= 0xFFFF_FFFF_FFFF_FFFF
    ensures Feed(feed, INITIAL, EncodeHeader(pad, size) + rest) == Run(feed, AtPayload(rest, size))
  {
    var data := EncodeHeader(pad, size) + rest;
    NothingBefore(data);
    HeaderRoundTrip(feed, pad, size, rest);
    AfterSilent(Run(feed, AtPayload(rest, size)));
  }

  lemma RunPayload(feed: Feeder, payload: seq<byte>, rest: seq<byte>)
    requires payload != [] && feed(Rdb.INITIAL, payload).Fed?
    ensures Run(feed, AtPayload(payload + rest, |payload|))
         == After(Output(feed(Rdb.INITIAL, payload).commands, false, false), Run(feed, State(rest, Streaming, 0)))
  {
    var s := AtPayload(payload + rest, |payload|);
    SliceOfAppend(payload, rest, 0, |payload|);
    assert payload[..|payload|] == payload && payload[|payload|..] + rest == rest;
    PayloadStep(feed, s, Rdb.INITIAL, |payload|, 0, |payload|);
  }

  /** What a full synchronisation means: the commands of the RDB file, then those of the stream. */
  function SyncResult(rdbCommands: seq<RawCommand>, rs: seq<Request>): FeedResult {
    Fed(State([], Streaming, LastDb(0, rs)), Then(Output(rdbCommands, false, false), RequestsOutput(0, rs)))
  }

  /** The embedded parser gets exactly the announced octets; whatever follows is read as commands. */
  lemma StreamRun(feed: Feeder, pad: seq<byte>, payload: seq<byte>, rest: seq<byte>)
    requires IsPad(pad) && 0 < |payload| <= 0xFFFF_FFFF_FFFF_FFFF && feed(Rdb.INITIAL, payload).Fed?
    ensures Feed(feed, INITIAL, SyncStream(pad, payload, rest))
         == After(Output(feed(Rdb.INITIAL, payload).commands, false, false), Run(feed, State(rest, Streaming, 0)))
  {
    RunHeader(feed, pad, |payload|, payload + rest);
    RunPayload(feed, payload, rest);
  }

  /** In particular encoded commands. */
  lemma SyncRoundTrip(feed: Feeder, pad: seq<byte>, payload: seq<byte>, rs: seq<Request>)
    requires IsPad(pad) && ValidRequests(rs) && 0 < |payload| <= 0xFFFF_FFFF_FFFF_FFFF
    requires feed(Rdb.INITIAL, payload).Fed?
    ensures Feed(feed, INITIAL, EncodeSync(pad, payload, rs)) == SyncResult(feed(Rdb.INITIAL, payload).commands, rs)
  {
    StreamRun(feed, pad, payload, EncodeRequests(rs));
    RespRoundTrip(feed, rs, 0);
  }

  // ----- Any chunking of it -----

  /** No proper prefix of the payload finishes the embedded parser. */
  ghost predicate Tight(feed: Feeder, payload: seq<byte>) {
    forall k :: 0 < k < |payload| ==>
      var r := feed(Rdb.INITIAL, payload[..k]); r.Fed? ==> r.state.mode != Rdb.Finished
  }

  lemma {:induction false} StreamingStays(feed: Feeder, s: State)
    requires s.mode == Streaming
    ensures Run(feed, s).Fed? ==> Run(feed, s).state.mode == Streaming
    decreases |s.buffer|
  {
    if Step(feed, s).Progress? {
      StreamingStays(feed, Step(feed, s).state);
    }
  }

  lemma PayloadNotStuck(feed: Feeder, payload: seq<byte>, rest: seq<byte>, n: nat)
    requires payload != [] && Tight(feed, payload) && n <= |payload + rest|
    ensures var r := Run(feed, AtPayload((payload + rest)[..n], |payload|)); r.Fed? ==> !Stuck(r.state)
  {
    var s := AtPayload((payload + rest)[..n], |payload|);
    if n == 0 {
    } else if n < |payload| {
      assert s.buffer == payload[..n];
      var r := feed(Rdb.INITIAL, s.buffer);
      if r.Fed? {
        PartialRun(feed, s, State([], ReadingRdb(r.state, |payload|, n), 0), r.commands);
      } else {
        assert s.buffer[..n] == s.buffer;
        PayloadStep(feed, s, Rdb.INITIAL, |payload|, 0, n);
      }
    } else {
      PayloadStep(feed, s, Rdb.INITIAL, |payload|, 0, |payload|);
      if Step(feed, s).Progress? {
        StreamingStays(feed, Step(feed, s).state);
      }
    }
  }

  lemma HeaderNotStuck(feed: Feeder, pad: seq<byte>, size: nat, rest: seq<byte>, n: nat)
    requires IsPad(pad) && size <= 0xFFFF_FFFF_FFFF_FFFF && n < |EncodeHeader(pad, size)|
    ensures var r := Feed(feed, INITIAL, EncodeHeader(pad, size)[..n]); r.Fed? ==> !Stuck(r.state)
  {
    var h := EncodeHeader(pad, size);
    var s := State(h[..n], WaitingRdb, 0);
    NothingBefore(h[..n]);
    assert s == Extend(INITIAL, h[..n]);
    if Step(feed, s).Progress? {
      HeaderRoundTrip(feed, pad, size, []);
      assert h + [] == h && h[..n] + h[n..] == h;
      HeaderStable(s, h[n..]);
      assert false;
    }
  }

  lemma PrefixOfSync(h: seq<byte>, body: seq<byte>, n: nat)
    requires n <= |h + body|
    ensures n < |h| ==> (h + body)[..n] == h[..n]
    ensures n >= |h| ==> (h + body)[..n] == h + body[..n - |h|]
  {
  }

  /** However much of the stream has arrived, the embedded parser has not finished ahead of its payload. */
  lemma NeverStuck(feed: Feeder, pad: seq<byte>, payload: seq<byte>, rest: seq<byte>, n: nat)
    requires IsPad(pad) && 0 < |payload| <= 0xFFFF_FFFF_FFFF_FFFF && Tight(feed, payload)
    requires n <= |SyncStream(pad, payload, rest)|
    ensures var r := Feed(feed, INITIAL, SyncStream(pad, payload, rest)[..n]); r.Fed? ==> !Stuck(r.state)
  {
    var h, body := EncodeHeader(pad, |payload|), payload + rest;
    PrefixOfSync(h, body, n);
    if n < |h| {
      HeaderNotStuck(feed, pad, |payload|, [], n);
    } else {
      RunHeader(feed, pad, |payload|, body[..n - |h|]);
      PayloadNotStuck(feed, payload, rest, n - |h|);
    }
  }

  lemma CutAgain(stream: seq<byte>, n: nat, a: seq<byte>, b: seq<byte>)
    requires n <= |stream| && stream[n..] == a + b
    ensures n + |a| <= |stream| && stream[..n] + a == stream[..n + |a|] && stream[n + |a|..] == b
  {
    assert stream == stream[..n] + (a + b);
    assert stream == (stream[..n] + a) + b;
  }

  /** If no prefix of the data leaves the parser stuck, no way of cutting the rest ends early. */
  lemma {:induction false} NotEarly(feed: Feeder, stream: seq<byte>, n: nat, chunks: seq<seq<byte>>)
    requires Lawful(feed) && n <= |stream| && stream[n..] == RdbChunks.Concat(chunks)
    requires forall k :: 0 <= k <= |stream| ==>
      var r := Feed(feed, INITIAL, stream[..k]); r.Fed? ==> !Stuck(r.state)
    requires Feed(feed, INITIAL, stream[..n]).Fed?
    ensures !EndsEarly(feed, Feed(feed, INITIAL, stream[..n]).state, chunks)
    decreases |chunks|
  {
    var s := Feed(feed, INITIAL, stream[..n]).state;
    if chunks != [] && Feed(feed, s, chunks[0]).Fed? {
      var m := n + |chunks[0]|;
      CutAgain(stream, n, chunks[0], RdbChunks.Concat(chunks[1..]));
      FeedSplit(feed, INITIAL, stream[..n], chunks[0]);
      NotEarly(feed, stream, m, chunks[1..]);
    }
  }

  /** However a synchronisation and what follows it are cut into chunks, the result is the same. */
  lemma ChunkedStream(feed: Feeder, pad: seq<byte>, payload: seq<byte>, rest: seq<byte>, chunks: seq<seq<byte>>)
    requires Lawful(feed) && IsPad(pad) && 0 < |payload| <= 0xFFFF_FFFF_FFFF_FFFF
    requires feed(Rdb.INITIAL, payload).Fed? && Tight(feed, payload)
    requires RdbChunks.Concat(chunks) == SyncStream(pad, payload, rest)
    ensures FeedAll(feed, INITIAL, chunks)
         == After(Output(feed(Rdb.INITIAL, payload).commands, false, false), Run(feed, State(rest, Streaming, 0)))
  {
    var stream := SyncStream(pad, payload, rest);
    forall k | 0 <= k <= |stream|
      ensures var r := Feed(feed, INITIAL, stream[..k]); r.Fed? ==> !Stuck(r.state)
    {
      NeverStuck(feed, pad, payload, rest, k);
    }
    assert stream[..0] == [] && stream[0..] == stream;
    ExtendNothing(INITIAL);
    assert Run(feed, INITIAL) == Fed(INITIAL, SILENT);
    NotEarly(feed, stream, 0, chunks);
    ChunkIndependence(feed, INITIAL, chunks);
    StreamRun(feed, pad, payload, rest);
  }

  /** In particular encoded commands. */
  lemma ChunkedSync(feed: Feeder, pad: seq<byte>, payload: seq<byte>, rs: seq<Request>, chunks: seq<seq<byte>>)
    requires Lawful(feed) && IsPad(pad) && ValidRequests(rs) && 0 < |payload| <= 0xFFFF_FFFF_FFFF_FFFF
    requires feed(Rdb.INITIAL, payload).Fed? && Tight(feed, payload)
    requires RdbChunks.Concat(chunks) == EncodeSync(pad, payload, rs)
    ensures FeedAll(feed, INITIAL, chunks) == SyncResult(feed(Rdb.INITIAL, payload).commands, rs)
  {
    ChunkedStream(feed, pad, payload, EncodeRequests(rs), chunks);
    RespRoundTrip(feed, rs, 0);
  }

  lemma FileIsTight(floats: Floats, file: seq<byte>)
    requires Rdb.Feed(floats, Rdb.INITIAL, file).Fed? && Rdb.Feed(floats, Rdb.INITIAL, file).state.buffer == []
    ensures Tight(RdbFeeder(floats), file)
  {
    forall k | 0 < k < |file|
      ensures var r := RdbFeeder(floats)(Rdb.INITIAL, file[..k]); r.Fed? ==> r.state.mode != Rdb.Finished
    {
      assert file[..k] + file[k..] == file;
      RdbChunks.FeedSplit(floats, Rdb.INITIAL, file[..k], file[k..]);
    }
  }

  /**
   End to end: a full synchronisation that carries any RDB file built from valid items, and any
   commands after it, cut into chunks in any way, comes out as exactly the commands that the items
   and the data commands mean, with the parser streaming and its buffer empty.
   */
  lemma FullSync(floats: Floats, pad: seq<byte>, head: seq<byte>, items: seq<Item>, checksum: seq<byte>,
                 rs: seq<Request>, chunks: seq<seq<byte>>)
    requires |head| == 9 && Rdb.ValidMagic(head) && |checksum| == 8 && ValidItems(items)
    requires |EncodeFile(head, items, checksum)| <= 0xFFFF_FFFF_FFFF_FFFF
    requires IsPad(pad) && ValidRequests(rs)
    requires RdbChunks.Concat(chunks) == EncodeSync(pad, EncodeFile(head, items, checksum), rs)
    ensures FeedAll(RdbFeeder(floats), INITIAL, chunks)
         == SyncResult(ItemsCommands(floats, Context(0, None), items), rs)
  {
    var file := EncodeFile(head, items, checksum);
    FileRoundTrip(floats, head, items, checksum);
    FileIsTight(floats, file);
    RdbIsLawful(floats);
    ChunkedSync(RdbFeeder(floats), pad, file, rs, chunks);
  }

  /** A payload announced longer than its file, cut where the file ends. */
  lemma EarlyEndAt(feed: Feeder, pad: seq<byte>, file: seq<byte>, junk: seq<byte>)
    requires IsPad(pad) && file != [] && junk != [] && |file + junk| <= 0xFFFF_FFFF_FFFF_FFFF
    requires feed(Rdb.INITIAL, file).Fed? && feed(Rdb.INITIAL, file).state.mode == Rdb.Finished
    ensures EndsEarly(feed, INITIAL, [EncodeHeader(pad, |file + junk|) + file, junk])
  {
    var first, size := EncodeHeader(pad, |file + junk|) + file, |file + junk|;
    var r := feed(Rdb.INITIAL, file);
    var s1 := State([], ReadingRdb(r.state, size, |file|), 0);
    RunHeader(feed, pad, size, file);
    PartialRun(feed, AtPayload(file, size), s1, r.commands);
    assert Feed(feed, INITIAL, first) == Fed(s1, Output(r.commands, false, false));
    ConcatTwo(first, junk);
    assert EndsEarly(feed, s1, [junk]);
    assert [first, junk][1..] == [junk];
  }

  /** The rest is then rejected, though the same stream in one piece is accepted. */
  lemma EarlyEndHappens(floats: Floats, pad: seq<byte>, head: seq<byte>, items: seq<Item>, checksum: seq<byte>, junk: seq<byte>)
    requires |head| == 9 && Rdb.ValidMagic(head) && |checksum| == 8 && ValidItems(items)
    requires IsPad(pad) && junk != [] && |EncodeFile(head, items, checksum) + junk| <= 0xFFFF_FFFF_FFFF_FFFF
    ensures var file := EncodeFile(head, items, checksum);
      var chunks := [EncodeHeader(pad, |file + junk|) + file, junk];
      && EndsEarly(RdbFeeder(floats), INITIAL, chunks)
      && Feed(RdbFeeder(floats), INITIAL, RdbChunks.Concat(chunks)).Fed?
  {
    var file := EncodeFile(head, items, checksum);
    var h := EncodeHeader(pad, |file + junk|);
    FileRoundTrip(floats, head, items, checksum);
    EarlyEndAt(RdbFeeder(floats), pad, file, junk);
    LongPayloadAccepted(floats, pad, file, junk);
    ConcatTwo(h + file, junk);
    Associate(h, file, junk);
  }

  lemma ConcatTwo(a: seq<byte>, b: seq<byte>)
    ensures RdbChunks.Concat([b]) == b && RdbChunks.Concat([a, b]) == a + b
  {
    var one: seq<seq<byte>> := [b];
    assert one[1..] == [] && [a, b][1..] == one;
  }

  lemma LongPayloadAccepted(floats: Floats, pad: seq<byte>, file: seq<byte>, junk: seq<byte>)
    requires IsPad(pad) && file != [] && |file + junk| <= 0xFFFF_FFFF_FFFF_FFFF
    requires var r := Rdb.Feed(floats, Rdb.INITIAL, file); r.Fed? && r.state.mode == Rdb.Finished
    ensures Feed(RdbFeeder(floats), INITIAL, EncodeHeader(pad, |file + junk|) + (file + junk)).Fed?
  {
    var feed, payload := RdbFeeder(floats), file + junk;
    ConcatTwo(file, junk);
    assert [file, junk][1..] == [junk];
    RdbChunks.EarlyFinishSucceeds(floats, Rdb.INITIAL, [file, junk]);
    RunHeader(feed, pad, |payload|, payload);
    assert payload + [] == payload;
    RunPayload(feed, payload, []);
    assert Run(feed, State([], Streaming, 0)) == Fed(State([], Streaming, 0), SILENT);
  }
}
