/** The replication stream parser as written: an object that owns its buffer and an RDB parser. */
module ReplicaFeed {
  import opened Bytes
  import opened Decimal
  import opened RdbValue
  import opened ReplicaStream
  import opened ReplicaChunks
  import Rdb = RdbParser
  import RdbFeed

  datatype Phase = Waiting | Reading | Stream

  /** Result of `parse_next`: commands and more to do, nothing to do, or an error. */
  datatype Next = Yield(commands: seq<RawCommand>) | Idle | Err(error: Fault)

  /** Result of one transition. */
  datatype Taken = Took(commands: seq<RawCommand>) | NotYet | Malformed(error: Fault)

  /** `feed` is the RDB parser with the given float printing. */
  ghost predicate Matches(feed: Feeder, floats: Floats) {
    forall rdb: Rdb.State, data: seq<byte> {:trigger Rdb.Feed(floats, rdb, data)} ::
      feed(rdb, data) == Rdb.Feed(floats, rdb, data)
  }

  /** `run` is the run of the parser with `feed`. */
  ghost predicate Runs(run: State -> FeedResult, feed: Feeder) {
    forall s: State {:trigger Run(feed, s)} :: run(s) == Run(feed, s)
  }

  class Parser {
    const floats: Floats
    ghost const feed: Feeder
    ghost const run: State -> FeedResult
    var buffer: seq<byte>
    var phase: Phase
    var currentDb: nat
    var rdbParser: RdbFeed.Parser?
    var rdbBulkSize: Option<nat>
    var rdbBytesRead: nat
    var pingReceived: bool
    var getackReceived: bool

    ghost predicate Valid()
      reads this, rdbParser
    {
      && Matches(feed, floats) && Runs(run, feed)
      && (phase == Reading ==>
            && rdbParser != null && rdbParser.Valid() && rdbParser.floats == floats
            && rdbBulkSize.Some? && rdbBytesRead <= rdbBulkSize.value)
    }

    ghost function View(): State
      requires Valid()
      reads this, rdbParser
    {
      State(buffer,
            match phase
            case Waiting => WaitingRdb
            case Reading => ReadingRdb(rdbParser.View(), rdbBulkSize.value, rdbBytesRead)
            case Stream => Streaming,
            currentDb)
    }

    ghost function Flags(): Output
      reads this
    {
      Output([], pingReceived, getackReceived)
    }

    /** The RDB parser is the old one or a new one, never somebody else's. */
    twostate predicate OwnsRdb()
      reads this
    {
      rdbParser == old(rdbParser) || rdbParser == null || fresh(rdbParser)
    }

    constructor (floats: Floats, skipRdb: bool)
      ensures Valid() && this.floats == floats && feed == RdbFeeder(floats) && fresh(this)
      ensures View() == INITIAL.(mode := if skipRdb then Streaming else WaitingRdb)
      ensures rdbParser == null
    {
      this.floats, feed := floats, RdbFeeder(floats);
      run := s => Run(RdbFeeder(floats), s);
      buffer, currentDb := [], 0;
      phase := if skipRdb then Stream else Waiting;
      rdbParser, rdbBulkSize, rdbBytesRead := null, None, 0;
      pingReceived, getackReceived := false, false;
    }

    /** What `parse_next` does to a run that was about to go through `was` with the flags `flags`. */
    ghost predicate Advanced(r: Next, was: State, flags: Output)
      reads this, rdbParser
    {
      match r
      case Yield(cmds) =>
        && Valid() && |buffer| < |was.buffer|
        && After(flags, run(was)) == After(Output(cmds, pingReceived, getackReceived), run(View()))
      case Idle =>
        && Valid() && After(flags, run(was)) == Fed(View(), Flags())
      case Err(e) => run(was) == Rejected(e)
    }

    method SkipLineEnds()
      modifies this`buffer
      ensures buffer == Trim(old(buffer))
    {
      while buffer != [] && (buffer[0] == LF || buffer[0] == CR)
        invariant Trim(buffer) == Trim(old(buffer))
        decreases |buffer|
      {
        buffer := buffer[1..];
      }
    }

    method ParseNext() returns (r: Next)
      requires Valid()
      modifies this, rdbParser
      ensures Advanced(r, old(View()), old(Flags())) && OwnsRdb()
      decreases |buffer|, 1
    {
      match phase
      case Waiting => r := ParseRdbHeader();
      case Reading => r := StreamRdbData();
      case Stream => r := ParseCommand();
    }

    /** One transition from `was`, which reports `out`. */
    ghost predicate Takes(r: Taken, out: Output, was: State, flags: Output)
      reads this, rdbParser
    {
      match r
      case Took(cmds) =>
        && Valid() && |buffer| < |was.buffer| && Step(feed, was) == Progress(View(), out) && cmds == out.commands
        && pingReceived == (flags.ping || out.ping) && getackReceived == (flags.getack || out.getack)
      case NotYet =>
        Valid() && Step(feed, was) == Blocked(View()) && Flags() == flags
      case Malformed(e) =>
        Step(feed, was) == Failed(e)
    }

    /** What one transition means for the run. */
    lemma Concluded(r: Taken, out: Output, was: State, flags: Output)
      requires Runs(run, feed) && Takes(r, out, was, flags) && flags.commands == []
      ensures match r
        case Took(cmds) => After(flags, run(was)) == After(Output(cmds, pingReceived, getackReceived), run(View()))
        case NotYet => After(flags, run(was)) == Fed(View(), Flags())
        case Malformed(e) => run(was) == Rejected(e)
    {
      match r
      case Took(cmds) =>
        Moved(feed, was, View(), out, flags);
        assert [] + cmds == cmds;
      case NotYet =>
        Rests(feed, was, View(), flags);
      case Malformed(e) =>
        assert Run(feed, was) == Rejected(e);
    }

    method ParseRdbHeader() returns (r: Next)
      requires Valid() && phase == Waiting
      modifies this, rdbParser
      ensures Advanced(r, old(View()), old(Flags())) && OwnsRdb()
      decreases |buffer|, 0
    {
      ghost var was, flags := View(), Flags();
      var header := TakeHeader();
      Concluded(header, SILENT, was, flags);
      match header
      case Took(_) => r := ParseNext();
      case NotYet => r := Idle;
      case Malformed(e) => r := Err(e);
    }

    /** Takes the header off the buffer and starts the RDB parser, once the line is complete. */
    method TakeHeader() returns (r: Taken)
      requires Valid() && phase == Waiting
      modifies this`buffer, this`rdbParser, this`rdbBulkSize, this`rdbBytesRead, this`phase
      ensures Takes(r, SILENT, old(View()), old(Flags())) && OwnsRdb() && (r.Took? ==> fresh(rdbParser) && Flags() == old(Flags()))
    {
      SkipLineEnds();
      if buffer == [] {
        return NotYet;
      }
      if buffer[0] != DOLLAR {
        return Malformed(ExpectedBulkStringHeader);
      }
      var size := ParseNumber(buffer[1..]);
      match size
      case NoLineEnd => return NotYet;
      case NotANumber => return Malformed(InvalidSize);
      case Number(n, octets) =>
        buffer := buffer[1 + octets..];
        StartRdb(n);
        r := Took([]);
    }

    /** A new RDB parser for a payload of `size` octets. */
    method StartRdb(size: nat)
      requires Matches(feed, floats) && Runs(run, feed)
      modifies this`rdbParser, this`rdbBulkSize, this`rdbBytesRead, this`phase
      ensures Valid() && fresh(rdbParser)
      ensures View() == State(buffer, ReadingRdb(Rdb.INITIAL, size, 0), currentDb)
    {
      rdbParser := new RdbFeed.Parser(floats);
      rdbBulkSize, rdbBytesRead, phase := Some(size), 0, Reading;
    }

    method StreamRdbData() returns (r: Next)
      requires Valid() && phase == Reading
      modifies this, rdbParser
      ensures Advanced(r, old(View()), old(Flags())) && OwnsRdb()
      decreases |buffer|, 0
    {
      ghost var was, flags := View(), Flags();
      var taken := TakePayload();
      Concluded(taken, if taken.Took? then Output(taken.commands, false, false) else SILENT, was, flags);
      match taken
      case Took(commands) => r := Yield(commands);
      case NotYet => r := Idle;
      case Malformed(e) => r := Err(e);
    }

    /** Feeds the RDB parser what there is of its payload, and nothing beyond it. */
    method TakePayload() returns (r: Taken)
      requires Valid() && phase == Reading
      modifies this, rdbParser
      ensures Takes(r, if r.Took? then Output(r.commands, false, false) else SILENT, old(View()), old(Flags())) && OwnsRdb()
    {
      ghost var was := View();
      var remaining := rdbBulkSize.value - rdbBytesRead;
      if remaining == 0 {
        return Malformed(RdbAlreadyComplete);
      }
      if buffer == [] {
        return NotYet;
      }
      var k := Min(|buffer|, remaining);
      PayloadStep(feed, was, was.mode.rdb, was.mode.size, was.mode.read, k);
      var chunk := buffer[..k];
      buffer, rdbBytesRead := buffer[k..], rdbBytesRead + k;
      var fed := rdbParser.FeedData(chunk);
      if fed.Rejected? {
        return Malformed(fed.error);
      }
      if rdbBytesRead >= rdbBulkSize.value {
        rdbParser, rdbBulkSize, rdbBytesRead, phase := null, None, 0, Stream;
      }
      r := Took(fed.commands);
    }

    method ParseCommand() returns (r: Next)
      requires Valid() && phase == Stream
      modifies this, rdbParser
      ensures Advanced(r, old(View()), old(Flags())) && OwnsRdb()
      decreases |buffer|, 0
    {
      ghost var was, flags := View(), Flags();
      var taken, out := TakeCommand();
      Concluded(taken, out, was, flags);
      match taken
      case Took(commands) => r := Yield(commands);
      case NotYet => r := Idle;
      case Malformed(e) => r := Err(e);
    }

    /** Takes one complete command off the buffer. */
    method TakeCommand() returns (r: Taken, ghost out: Output)
      requires Valid() && phase == Stream
      modifies this`buffer, this`currentDb, this`pingReceived, this`getackReceived
      ensures Takes(r, out, old(View()), old(Flags())) && OwnsRdb()
    {
      out := SILENT;
      SkipLineEnds();
      if buffer == [] {
        return NotYet, out;
      }
      var parsed := ReadArray(buffer);
      match parsed
      case More => return NotYet, out;
      case Bad(e) => return Malformed(e), out;
      case Elements(items, end) =>
        buffer := buffer[end..];
        out := CommandOutput(currentDb, items);
        var commands := Dispatch(items);
        r := Took(commands);
    }

    /** The special commands change the parser; all others are passed on. */
    method Dispatch(items: seq<seq<byte>>) returns (commands: seq<RawCommand>)
      modifies this`currentDb, this`pingReceived, this`getackReceived
      ensures var out := CommandOutput(old(currentDb), items);
        && commands == out.commands && currentDb == DbAfter(old(currentDb), items)
        && pingReceived == (old(pingReceived) || out.ping) && getackReceived == (old(getackReceived) || out.getack)
    {
      commands := [];
      if items == [] {
        return;
      }
      var name := Upper(items[0]);
      if name == SELECT {
        if |items| >= 2 {
          var n := ParseUnsigned(items[1], U32_MAX);
          if n.Some? {
            currentDb := n.value;
          }
        }
      } else if name == PING {
        pingReceived := true;
      } else if name == REPLCONF {
        if |items| >= 2 && Upper(items[1]) == GETACK {
          getackReceived := true;
        }
      } else {
        commands := [RawCommand(currentDb, items[0], items[1..])];
      }
    }

    /** One `feed_data` call. */
    method FeedData(data: seq<byte>) returns (r: Result)
      requires Valid()
      modifies this, rdbParser
      ensures match Feed(feed, old(View()), data)
        case Fed(s, out) => Valid() && View() == s && r == Ok(out)
        case Rejected(e) => r == Error(e)
    {
      pingReceived, getackReceived := false, false;
      buffer := buffer + data;
      assert View() == Extend(old(View()), data);
      r := Drain();
    }

    /** The loop of `feed_data`. */
    method Drain() returns (r: Result)
      requires Valid() && !pingReceived && !getackReceived
      modifies this, rdbParser
      ensures match run(old(View()))
        case Fed(s, out) => Valid() && View() == s && r == Ok(out)
        case Rejected(e) => r == Error(e)
    {
      ghost var whole := run(View());
      var commands: seq<RawCommand> := [];
      AfterSilent(whole);
      while true
        invariant Valid() && OwnsRdb()
        invariant whole == After(Output(commands, pingReceived, getackReceived), run(View()))
        decreases |buffer|
      {
        ghost var before, flags := run(View()), Flags();
        var next := ParseNext();
        match next
        case Err(e) => return Error(e);
        case Idle =>
          Accumulate(commands, flags, before, Fed(View(), Flags()), [], SILENT, whole);
          return Ok(Output(commands, pingReceived, getackReceived));
        case Yield(cmds) =>
          Accumulate(commands, flags, before, run(View()), cmds, Flags(), whole);
          commands := commands + cmds;
      }
    }
  }

  /** The array at the start of the buffer, if it is complete. */
  method ReadArray(buf: seq<byte>) returns (r: Elements)
    requires buf != []
    ensures r == ParseArray(buf)
  {
    if buf[0] != STAR {
      return Bad(ExpectedArray);
    }
    var count := ParseNumber(buf[1..]);
    if count.NoLineEnd? {
      return More;
    } else if count.NotANumber? {
      return Bad(InvalidCount);
    }
    r := ParseElements(BulkParser(buf), 1 + count.octets, count.value);
  }

  /** The element loop of `parse_command`: `parse` reads the bulk string at a cursor. */
  method ParseElements(parse: nat -> Elements, start: nat, count: nat) returns (r: Elements)
    ensures r == ParseMany(parse, start, count)
  {
    var cursor: nat, i := start, 0;
    var elements: seq<seq<byte>> := [];
    GlueNothing(ParseMany(parse, start, count));
    while i < count
      invariant i <= count
      invariant Glue(elements, ParseMany(parse, cursor, count - i)) == ParseMany(parse, start, count)
    {
      var item := parse(cursor);
      if !item.Elements? {
        return item;
      }
      GlueGlue(elements, item.items, ParseMany(parse, item.end, count - i - 1));
      elements, cursor := elements + item.items, item.end;
      i := i + 1;
    }
    assert elements + [] == elements;
    r := Elements(elements, cursor);
  }

  datatype Result = Ok(out: Output) | Error(error: Fault)

  /** The run ends when a transition is blocked. */
  lemma Rests(feed: Feeder, was: State, now: State, flags: Output)
    requires Step(feed, was) == Blocked(now) && flags.commands == []
    ensures After(flags, Run(feed, was)) == Fed(now, flags)
  {
    ThenSilent(flags);
  }

  /** The run after one transition. */
  lemma Moved(feed: Feeder, was: State, now: State, out: Output, flags: Output)
    requires Step(feed, was) == Progress(now, out)
    ensures After(flags, Run(feed, was)) == After(Then(flags, out), Run(feed, now))
  {
    ThenThen(flags, out, Run(feed, now));
  }

  /** One round of the loop: the result so far, then `before`, is the result so far plus `cmds`, then `now`. */
  lemma Accumulate(commands: seq<RawCommand>, flags: Output, before: FeedResult, now: FeedResult,
                   cmds: seq<RawCommand>, after: Output, whole: FeedResult)
    requires whole == After(Output(commands, flags.ping, flags.getack), before) && flags.commands == []
    requires After(flags, before) == After(Output(cmds, after.ping, after.getack), now)
    ensures whole == After(Output(commands + cmds, after.ping, after.getack), now)
  {
    var sofar := Output(commands, false, false);
    ThenThen(sofar, flags, before);
    ThenThen(sofar, Output(cmds, after.ping, after.getack), now);
    assert commands + [] == commands;
  }

  lemma GlueNothing(r: Elements)
    ensures Glue([], r) == r
  {
    if r.Elements? {
      assert [] + r.items == r.items;
    }
  }

  lemma GlueGlue(a: seq<seq<byte>>, b: seq<seq<byte>>, r: Elements)
    ensures Glue(a, Glue(b, r)) == Glue(a + b, r)
  {
    if r.Elements? {
      assert a + (b + r.items) == a + b + r.items;
    }
  }
}
