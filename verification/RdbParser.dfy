/**
 The incremental RDB parser: a resumable state machine over a growing buffer.  `Step` is one
 transition, `Run` repeats it until it blocks, `Feed` is one call of `feed_data`.
 `RdbFeed.Parser` is the parser as written; its methods are proved against `Run`.
 */
module RdbParser {
  import opened Bytes
  import opened Decimal
  import opened RdbString
  import opened RdbValue

  const OPCODE_AUX := 250
  const OPCODE_RESIZEDB := 251
  const OPCODE_EXPIRETIME_MS := 252
  const OPCODE_EXPIRETIME := 253
  const OPCODE_SELECTDB := 254
  const OPCODE_EOF := 255

  const REDIS: seq<byte> := [82, 69, 68, 73, 83]
  const VALKEY: seq<byte> := [86, 65, 76, 75, 69, 89]

  datatype Mode =
    | Magic
    | Opcode
    | ProcessingOpcode(opcode: byte)
    | ProcessingKey(keyType: byte)
    | ProcessingValue(valueType: byte)
    | WaitingChecksum
    | Finished

  datatype State = State(buffer: seq<byte>, mode: Mode, db: nat, expire: Option<nat>, savedKey: seq<byte>)

  const INITIAL := State([], Magic, 0, None, [])

  /** One transition: to a new state with some commands, none for lack of data, or an error. */
  datatype StepResult = Progress(state: State, commands: seq<RawCommand>) | Blocked | Failed(error: Fault)

  /** One call of `feed_data`. */
  datatype FeedResult = Fed(state: State, commands: seq<RawCommand>) | Rejected(error: Fault)

  // ----- Transitions -----

  /** The nine octets of magic and version. */
  function CheckMagic(head: seq<byte>): (error: Option<Fault>)
    requires |head| == 9
  {
    if head[..5] == REDIS then
      match ParseUnsigned(head[5..], U32_MAX)
      case None => Some(InvalidVersion)
      case Some(v) => if 1 <= v <= 12 then None else Some(UnsupportedVersion)
    else if head[..6] == VALKEY then
      match ParseUnsigned(head[6..], U32_MAX)
      case None => Some(InvalidVersion)
      case Some(v) => if 80 <= v <= 999 then None else Some(UnsupportedVersion)
    else Some(InvalidMagic)
  }

  /** Short texts either read as a number or show none. */
  lemma VersionExactly(text: seq<byte>)
    requires 3 <= |text| <= 4
    ensures ParseUnsigned(text, U32_MAX) == None <==> forall v :: !Shows(text, v)
  {
    ParseExactly(text, U32_MAX);
    forall v | Shows(text, v)
      ensures v < 10000
    {
      ShownBelow(text, v);
      assert TenToThe(1) == 10 && TenToThe(2) == 100 && TenToThe(3) == 1000 && TenToThe(4) == 10000;
    }
  }

  /** "REDIS" and a version from 1 to 12 in four places, or "VALKEY" and one from 80 to 999 in three. */
  ghost predicate ValidMagic(head: seq<byte>)
    requires |head| == 9
  {
    || (head[..5] == Octets("REDIS") && exists v :: 1 <= v <= 12 && Shows(head[5..], v))
    || (head[..6] == Octets("VALKEY") && exists v :: 80 <= v <= 999 && Shows(head[6..], v))
  }

  /** What is accepted, and which of the three errors the rest gives. */
  lemma MagicExactly(head: seq<byte>)
    requires |head| == 9
    ensures CheckMagic(head) == None <==> ValidMagic(head)
    ensures CheckMagic(head) == Some(InvalidMagic) <==> head[..5] != Octets("REDIS") && head[..6] != Octets("VALKEY")
    ensures CheckMagic(head) == Some(InvalidVersion) <==>
      || (head[..5] == Octets("REDIS") && forall v :: !Shows(head[5..], v))
      || (head[..6] == Octets("VALKEY") && forall v :: !Shows(head[6..], v))
  {
    assert REDIS == Octets("REDIS") && VALKEY == Octets("VALKEY");
    VersionExactly(head[5..]);
    VersionExactly(head[6..]);
    ParseExactly(head[5..], U32_MAX);
    ParseExactly(head[6..], U32_MAX);
    assert head[..5] == REDIS ==> head[0] == 82;
    assert head[..6] == VALKEY ==> head[0] == 86;
  }

  function StepMagic(s: State): StepResult {
    if |s.buffer| < 9 then Blocked
    else
      match CheckMagic(s.buffer[..9])
      case Some(e) => Failed(e)
      case None => Progress(s.(buffer := s.buffer[9..], mode := Opcode), [])
  }

  function AfterOpcode(opcode: byte): Mode {
    if opcode == OPCODE_EOF then WaitingChecksum
    else if opcode in {OPCODE_SELECTDB, OPCODE_RESIZEDB, OPCODE_AUX, OPCODE_EXPIRETIME, OPCODE_EXPIRETIME_MS}
    then ProcessingOpcode(opcode)
    else ProcessingKey(opcode)
  }

  function StepOpcode(s: State): StepResult {
    if s.buffer == [] then Blocked
    else Progress(s.(buffer := s.buffer[1..], mode := AfterOpcode(s.buffer[0])), [])
  }

  function StepSelectDb(s: State): StepResult {
    match LoadLength(s.buffer)
    case Short => Blocked
    case Error(e) => Failed(e)
    case Loaded(n, rest) => Progress(s.(buffer := rest, db := n % 0x1_0000_0000, mode := Opcode), [])
  }

  /** Both lengths are peeked before either is consumed. */
  function StepResizeDb(s: State): StepResult {
    match PeekLength(s.buffer)
    case NeedMore => Blocked
    case Broken(e) => Failed(e)
    case Ready(first) =>
      match PeekLengthAt(s.buffer, first.octets)
      case NeedMore => Blocked
      case Broken(e) => Failed(e)
      case Ready(second) => Progress(s.(buffer := s.buffer[first.octets + second.octets..], mode := Opcode), [])
  }

  /** Both strings are sized before either is consumed. */
  function StepAux(s: State): StepResult {
    match StringEnd(s.buffer, 0)
    case NeedMore => Blocked
    case Broken(e) => Failed(e)
    case Ready(mid) =>
      match StringEnd(s.buffer, mid)
      case NeedMore => Blocked
      case Broken(e) => Failed(e)
      case Ready(end) =>
        if |s.buffer| < end then Blocked
        else
          match LoadString(s.buffer)
          case Short => Blocked
          case Error(e) => Failed(e)
          case Loaded(_, rest) =>
            match LoadString(rest)
            case Short => Blocked
            case Error(e) => Failed(e)
            case Loaded(_, rest') => Progress(s.(buffer := rest', mode := Opcode), [])
  }

  function StepExpire(s: State, width: nat, scale: nat): StepResult {
    if |s.buffer| < width then Blocked
    else Progress(s.(buffer := s.buffer[width..], expire := Some(LittleEndian(s.buffer[..width]) * scale), mode := Opcode), [])
  }

  function StepProcessOpcode(s: State, opcode: byte): StepResult {
    if opcode == OPCODE_SELECTDB then StepSelectDb(s)
    else if opcode == OPCODE_RESIZEDB then StepResizeDb(s)
    else if opcode == OPCODE_AUX then StepAux(s)
    else if opcode == OPCODE_EXPIRETIME then StepExpire(s, 4, 1000)
    else if opcode == OPCODE_EXPIRETIME_MS then StepExpire(s, 8, 1)
    else Failed(UnknownOpcode)
  }

  function StepKey(s: State, valueType: byte): StepResult {
    match LoadString(s.buffer)
    case Short => Blocked
    case Error(e) => Failed(e)
    case Loaded(key, rest) => Progress(s.(buffer := rest, savedKey := key, mode := ProcessingValue(valueType)), [])
  }

  function ExpireCommands(s: State): seq<RawCommand> {
    match s.expire
    case None => []
    case Some(ms) => [RawCommand(s.db, PEXPIREAT, [s.savedKey, NatText(ms)])]
  }

  /** A value that cannot be sized is skipped without consuming anything. */
  function StepValue(floats: Floats, s: State, valueType: byte): StepResult {
    var done := s.(expire := None, savedKey := [], mode := Opcode);
    match ValueEnd(s.buffer, valueType)
    case NeedMore => Blocked
    case Broken(_) => Progress(done, [])
    case Ready(end) =>
      if |s.buffer| < end then Blocked
      else
        match LoadValue(floats, s.db, valueType, s.savedKey, s.buffer)
        case Short => Blocked
        case Error(e) => Failed(e)
        case Loaded(cmds, rest) => Progress(done.(buffer := rest), cmds + ExpireCommands(s))
  }

  function StepChecksum(s: State): StepResult {
    if |s.buffer| < 8 then Blocked
    else Progress(s.(buffer := s.buffer[8..], mode := Finished), [])
  }

  function Step(floats: Floats, s: State): StepResult {
    match s.mode
    case Magic => StepMagic(s)
    case Opcode => StepOpcode(s)
    case ProcessingOpcode(opcode) => StepProcessOpcode(s, opcode)
    case ProcessingKey(valueType) => StepKey(s, valueType)
    case ProcessingValue(valueType) => StepValue(floats, s, valueType)
    case WaitingChecksum => StepChecksum(s)
    case Finished => Blocked
  }

  // ----- Runs -----

  /** Breaks ties between states with equally many octets left: only a skipped value consumes none. */
  function Rank(mode: Mode): nat {
    if mode.ProcessingValue? then 1 else 0
  }

  ghost predicate Smaller(s': State, s: State) {
    |s'.buffer| < |s.buffer| || (|s'.buffer| == |s.buffer| && Rank(s'.mode) < Rank(s.mode))
  }

  /** Every transition makes the state smaller, so the loop in `feed_data` terminates. */
  lemma StepDecreases(floats: Floats, s: State)
    ensures var r := Step(floats, s); r.Progress? ==> Smaller(r.state, s)
  {
    match s.mode
    case ProcessingValue(valueType) =>
      var end := ValueEnd(s.buffer, valueType);
      if end.Ready? && end.value <= |s.buffer| {
        ValueAgrees(floats, s.db, valueType, s.savedKey, s.buffer);
      }
    case _ =>
  }

  function Prepend(commands: seq<RawCommand>, r: FeedResult): FeedResult {
    if r.Fed? then Fed(r.state, commands + r.commands) else r
  }

  /** Transitions until one blocks or fails; the commands of all of them in order. */
  function Run(floats: Floats, s: State): FeedResult
    decreases |s.buffer|, Rank(s.mode)
  {
    match Step(floats, s)
    case Blocked => Fed(s, [])
    case Failed(e) => Rejected(e)
    case Progress(s', cmds) =>
      StepDecreases(floats, s);
      Prepend(cmds, Run(floats, s'))
  }

  /** `s` with `more` appended to its buffer. */
  function Extend(s: State, more: seq<byte>): State {
    s.(buffer := s.buffer + more)
  }

  function Feed(floats: Floats, s: State, data: seq<byte>): FeedResult {
    if s.mode == Finished then Rejected(AlreadyFinished) else Run(floats, Extend(s, data))
  }
}
