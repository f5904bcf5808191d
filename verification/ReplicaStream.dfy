/**
 The replication stream parser: a bulk header, the RDB payload it announces, then RESP commands,
 all from one growing buffer.  `Step` is one transition, `Run` repeats it, `Feed` is one call of
 `feed_data`.
 */
module ReplicaStream {
  import opened Bytes
  import opened Decimal
  import opened RdbValue
  import Rdb = RdbParser

  const LF := 10
  const CR := 13
  const DOLLAR := 36
  const STAR := 42

  const SELECT: seq<byte> := [83, 69, 76, 69, 67, 84]
  const PING: seq<byte> := [80, 73, 78, 71]
  const REPLCONF: seq<byte> := [82, 69, 80, 76, 67, 79, 78, 70]
  const GETACK: seq<byte> := [71, 69, 84, 65, 67, 75]

  /** `ReadingRdb` holds the embedded RDB parser, the announced size and the octets fed so far. */
  datatype Mode = WaitingRdb | ReadingRdb(rdb: Rdb.State, size: nat, read: nat) | Streaming

  datatype State = State(buffer: seq<byte>, mode: Mode, db: nat)

  /** The embedded RDB parser, seen from outside: one call of its `feed_data`. */
  type Feeder = (Rdb.State, seq<byte>) -> Rdb.FeedResult

  function RdbFeeder(floats: Floats): Feeder {
    (rdb: Rdb.State, data: seq<byte>) => Rdb.Feed(floats, rdb, data)
  }

  const INITIAL := State([], WaitingRdb, 0)

  /** What a transition, or a call, reports: commands in order and the two flags. */
  datatype Output = Output(commands: seq<RawCommand>, ping: bool, getack: bool)

  const SILENT := Output([], false, false)

  function Then(a: Output, b: Output): Output {
    Output(a.commands + b.commands, a.ping || b.ping, a.getack || b.getack)
  }

  /** A blocked transition may still have dropped leading line ends. */
  datatype StepResult = Progress(state: State, out: Output) | Blocked(state: State) | Failed(error: Fault)

  datatype FeedResult = Fed(state: State, out: Output) | Rejected(error: Fault)

  // ----- Lines -----

  /** Leading carriage returns and line feeds dropped. */
  function Trim(buf: seq<byte>): (t: seq<byte>)
    ensures |t| <= |buf|
    ensures t != [] ==> t[0] != LF && t[0] != CR
  {
    if buf != [] && (buf[0] == LF || buf[0] == CR) then Trim(buf[1..]) else buf
  }

  predicate LineEndAt(buf: seq<byte>, i: nat) {
    i + 1 < |buf| && buf[i] == CR && buf[i + 1] == LF
  }

  /** Position of the first CR LF. */
  function FindCrlf(buf: seq<byte>): (r: Option<nat>)
    ensures r.Some? ==> r.value + 2 <= |buf| && LineEndAt(buf, r.value)
    ensures forall i :: 0 <= i < |buf| && LineEndAt(buf, i) ==> r.Some? && r.value <= i
  {
    if |buf| < 2 then None
    else if buf[0] == CR && buf[1] == LF then Some(0)
    else
      assert forall i :: 1 <= i < |buf| && LineEndAt(buf, i) ==> LineEndAt(buf[1..], i - 1);
      match FindCrlf(buf[1..])
      case None => None
      case Some(k) => Some(k + 1)
  }

  /** A decimal number up to the next CR LF, and the octets it takes with its line end. */
  datatype Number = Number(value: nat, octets: nat) | NoLineEnd | NotANumber

  function ParseNumber(buf: seq<byte>): (r: Number)
    ensures r.Number? ==> 2 <= r.octets <= |buf|
  {
    match FindCrlf(buf)
    case None => NoLineEnd
    case Some(k) =>
      match ParseUnsigned(buf[..k], USIZE_MAX)
      case None => NotANumber
      case Some(n) => Number(n, k + 2)
  }

  // ----- RESP arrays -----

  datatype Elements = Elements(items: seq<seq<byte>>, end: nat) | More | Bad(error: Fault)

  /** One bulk string at `cursor`: its content and where the next one starts. */
  function ParseBulk(buf: seq<byte>, cursor: nat): (r: Elements)
    ensures r.Elements? ==> cursor < r.end <= |buf| && |r.items| == 1
  {
    if cursor >= |buf| then More
    else if buf[cursor] != DOLLAR then Bad(ExpectedBulkString)
    else
      match ParseNumber(buf[cursor + 1..])
      case NoLineEnd => More
      case NotANumber => Bad(InvalidLength)
      case Number(len, octets) =>
        var start := cursor + 1 + octets;
        if start + len + 2 > |buf| then More
        else Elements([buf[start..start + len]], start + len + 2)
  }

  function Glue(items: seq<seq<byte>>, r: Elements): Elements {
    if r.Elements? then Elements(items + r.items, r.end) else r
  }

  /** `count` items in a row, each found by `parse` at its cursor. */
  function ParseMany(parse: nat -> Elements, cursor: nat, count: nat): (r: Elements)
    decreases count
  {
    if count == 0 then Elements([], cursor)
    else
      var first := parse(cursor);
      if first.Elements? then Glue(first.items, ParseMany(parse, first.end, count - 1)) else first
  }

  function BulkParser(buf: seq<byte>): nat -> Elements {
    (cursor: nat) => ParseBulk(buf, cursor)
  }

  lemma {:induction false} ParseManyInside(buf: seq<byte>, cursor: nat, count: nat)
    requires cursor <= |buf|
    ensures var r := ParseMany(BulkParser(buf), cursor, count); r.Elements? ==> cursor <= r.end <= |buf| && |r.items| == count
    decreases count
  {
    if count > 0 && ParseBulk(buf, cursor).Elements? {
      ParseManyInside(buf, ParseBulk(buf, cursor).end, count - 1);
    }
  }

  /** A whole array at the start of `buf`, which is not empty. */
  function ParseArray(buf: seq<byte>): (r: Elements)
    requires buf != []
    ensures r.Elements? ==> 0 < r.end <= |buf|
  {
    if buf[0] != STAR then Bad(ExpectedArray)
    else
      match ParseNumber(buf[1..])
      case NoLineEnd => More
      case NotANumber => Bad(InvalidCount)
      case Number(count, octets) =>
        ParseManyInside(buf, 1 + octets, count);
        ParseMany(BulkParser(buf), 1 + octets, count)
  }

  /**
   Upper case, as far as equality with an ASCII name can tell: besides the ASCII letters, the
   long s (0xC5 0xBF) becomes S and the dotless i (0xC4 0xB1) becomes I.
   */
  function Upper(s: seq<byte>): seq<byte> {
    if s == [] then []
    else if |s| >= 2 && s[0] == 0xC5 && s[1] == 0xBF then [83] + Upper(s[2..])
    else if |s| >= 2 && s[0] == 0xC4 && s[1] == 0xB1 then [73] + Upper(s[2..])
    else [if 97 <= s[0] <= 122 then s[0] - 32 else s[0]] + Upper(s[1..])
  }

  /** The database selected after the command `items`. */
  function DbAfter(db: nat, items: seq<seq<byte>>): nat {
    if |items| >= 2 && Upper(items[0]) == SELECT then
      match ParseUnsigned(items[1], U32_MAX)
      case Some(n) => n
      case None => db
    else db
  }

  predicate IsPing(items: seq<seq<byte>>) {
    items != [] && Upper(items[0]) == PING
  }

  predicate IsGetAck(items: seq<seq<byte>>) {
    |items| >= 2 && Upper(items[0]) == REPLCONF && Upper(items[1]) == GETACK
  }

  /** A command to pass on: not empty, and neither SELECT, PING nor REPLCONF. */
  predicate IsData(items: seq<seq<byte>>) {
    items != [] && Upper(items[0]) != SELECT && Upper(items[0]) != PING && Upper(items[0]) != REPLCONF
  }

  function CommandOutput(db: nat, items: seq<seq<byte>>): Output {
    Output(if IsData(items) then [RawCommand(db, items[0], items[1..])] else [], IsPing(items), IsGetAck(items))
  }

  // ----- Transitions -----

  function StepHeader(s: State): StepResult {
    var buf := Trim(s.buffer);
    if buf == [] then Blocked(s.(buffer := buf))
    else if buf[0] != DOLLAR then Failed(ExpectedBulkStringHeader)
    else
      match ParseNumber(buf[1..])
      case NoLineEnd => Blocked(s.(buffer := buf))
      case NotANumber => Failed(InvalidSize)
      case Number(size, octets) =>
        Progress(State(buf[1 + octets..], ReadingRdb(Rdb.INITIAL, size, 0), s.db), SILENT)
  }

  function Min(a: nat, b: nat): nat {
    if a < b then a else b
  }

  /** The mode after feeding `k` payload octets. */
  function AfterPayload(rdb: Rdb.State, size: nat, read: nat): Mode {
    if read >= size then Streaming else ReadingRdb(rdb, size, read)
  }

  function StepRdb(feed: Feeder, s: State): StepResult
    requires s.mode.ReadingRdb?
  {
    var ReadingRdb(rdb, size, read) := s.mode;
    if size <= read then Failed(RdbAlreadyComplete)
    else if s.buffer == [] then Blocked(s)
    else
      var k := Min(|s.buffer|, size - read);
      match feed(rdb, s.buffer[..k])
      case Rejected(e) => Failed(e)
      case Fed(rdb', cmds) =>
        Progress(State(s.buffer[k..], AfterPayload(rdb', size, read + k), s.db), Output(cmds, false, false))
  }

  function StepCommand(s: State): StepResult {
    var buf := Trim(s.buffer);
    if buf == [] then Blocked(s.(buffer := buf))
    else
      match ParseArray(buf)
      case More => Blocked(s.(buffer := buf))
      case Bad(e) => Failed(e)
      case Elements(items, end) =>
        Progress(State(buf[end..], s.mode, DbAfter(s.db, items)), CommandOutput(s.db, items))
  }

  function Step(feed: Feeder, s: State): (r: StepResult)
    ensures r.Progress? ==> |r.state.buffer| < |s.buffer|
  {
    match s.mode
    case WaitingRdb => StepHeader(s)
    case ReadingRdb(_, _, _) => StepRdb(feed, s)
    case Streaming => StepCommand(s)
  }

  // ----- Runs -----

  function After(out: Output, r: FeedResult): FeedResult {
    if r.Fed? then Fed(r.state, Then(out, r.out)) else r
  }

  function Run(feed: Feeder, s: State): FeedResult
    decreases |s.buffer|
  {
    match Step(feed, s)
    case Blocked(s') => Fed(s', SILENT)
    case Failed(e) => Rejected(e)
    case Progress(s', out) => After(out, Run(feed, s'))
  }

  function Extend(s: State, more: seq<byte>): State {
    s.(buffer := s.buffer + more)
  }

  function Feed(feed: Feeder, s: State, data: seq<byte>): FeedResult {
    Run(feed, Extend(s, data))
  }
}
