/** The RDB parser as written: an object whose methods consume its buffer and change its fields. */
module RdbFeed {
  import opened Bytes
  import opened Decimal
  import opened RdbString
  import opened RdbListpack
  import opened RdbValue
  import opened RdbParser
  import opened RdbChunks
  import LzfDecoder

  /** Result of a method that takes something off the buffer. */
  datatype Taken<+T> = Got(value: T) | Lacking | Bad(error: Fault)

  /** The method did what `spec` says and left `now` in the buffer. */
  ghost predicate TakenAs<T>(r: Taken<T>, spec: Load<T>, now: seq<byte>) {
    match spec
    case Loaded(v, rest) => r == Got(v) && now == rest
    case Short => r == Lacking
    case Error(e) => r == Bad(e)
  }

  /** Result of `parse_next`: commands and more to do, nothing to do, or an error. */
  datatype Next = Yield(commands: seq<RawCommand>) | Idle | Err(error: Fault)

  class Parser {
    const floats: Floats
    var buffer: seq<byte>
    var mode: Mode
    var currentDb: nat
    var expire: Option<nat>
    var finished: bool
    var savedKey: seq<byte>

    ghost predicate Valid()
      reads this
    {
      finished <==> mode == Finished
    }

    ghost function View(): State
      reads this
    {
      State(buffer, mode, currentDb, expire, savedKey)
    }

    constructor (floats: Floats)
      ensures Valid() && View() == INITIAL && this.floats == floats
    {
      this.floats := floats;
      buffer, mode, currentDb, expire, finished, savedKey := [], Magic, 0, None, false, [];
    }

    /** What `parse_next` and every handler does to a run that was about to go through `was`. */
    ghost predicate Advanced(r: Next, was: State)
      reads this
    {
      && Valid()
      && match r
         case Yield(cmds) => Smaller(View(), was) && Run(floats, was) == Prepend(cmds, Run(floats, View()))
         case Idle => Run(floats, was) == Fed(View(), [])
         case Err(e) => Run(floats, was) == Rejected(e)
    }

    /** A transition without commands followed by `parse_next` is again such a step. */
    lemma Chain(r: Next, mid: State, was: State)
      requires Step(floats, was) == Progress(mid, []) && Advanced(r, mid)
      ensures Advanced(r, was)
    {
      StepDecreases(floats, was);
      PrependNothing(Run(floats, mid));
    }

    method ParseNext() returns (r: Next)
      requires Valid()
      modifies this
      ensures Advanced(r, old(View()))
      decreases |buffer|, Rank(mode), 1
    {
      match mode
      case Magic => r := ParseMagic();
      case Opcode => r := ParseOpcode();
      case ProcessingOpcode(opcode) => r := ProcessOpcode(opcode);
      case ProcessingKey(valueType) => r := ProcessKey(valueType);
      case ProcessingValue(valueType) => r := ParseValue(valueType);
      case WaitingChecksum => r := ParseChecksum();
      case Finished => r := Idle;
    }

    method ParseMagic() returns (r: Next)
      requires Valid() && mode == Magic
      modifies this
      ensures Advanced(r, old(View()))
      decreases |buffer|, Rank(mode), 0
    {
      if |buffer| < 9 {
        return Idle;
      }
      var error := CheckMagic(buffer[..9]);
      if error.Some? {
        return Err(error.value);
      }
      buffer, mode := buffer[9..], Opcode;
      ghost var mid := View();
      r := ParseNext();
      Chain(r, mid, old(View()));
    }

    method ParseOpcode() returns (r: Next)
      requires Valid() && mode == Opcode
      modifies this
      ensures Advanced(r, old(View()))
      decreases |buffer|, Rank(mode), 0
    {
      if buffer == [] {
        return Idle;
      }
      var opcode := buffer[0];
      buffer, mode := buffer[1..], AfterOpcode(opcode);
      ghost var mid := View();
      r := ParseNext();
      Chain(r, mid, old(View()));
    }

    method ProcessKey(valueType: byte) returns (r: Next)
      requires Valid() && mode == ProcessingKey(valueType)
      modifies this
      ensures Advanced(r, old(View()))
      decreases |buffer|, Rank(mode), 0
    {
      var key := TakeString();
      match key
      case Lacking => return Idle;
      case Bad(e) => return Err(e);
      case Got(k) =>
        savedKey, mode := k, ProcessingValue(valueType);
        ghost var mid := View();
        r := ParseNext();
        Chain(r, mid, old(View()));
    }

    method ProcessOpcode(opcode: byte) returns (r: Next)
      requires Valid() && mode == ProcessingOpcode(opcode)
      modifies this
      ensures Advanced(r, old(View()))
      decreases |buffer|, Rank(mode), 0
    {
      ghost var was := View();
      StepDecreases(floats, was);
      var taken := TakeOpcode(opcode);
      match taken
      case Lacking => r := Idle;
      case Bad(e) => r := Err(e);
      case Got(_) =>
        ghost var mid := View();
        r := ParseNext();
        Chain(r, mid, was);
    }

    // ----- Opcodes -----

    /** One opcode with its operands, as the transition says. */
    ghost predicate Performs(r: Taken<()>, step: StepResult)
      reads this
    {
      match step
      case Progress(s, cmds) => r.Got? && View() == s && cmds == []
      case Blocked => r == Lacking
      case Failed(e) => r == Bad(e)
    }

    method TakeOpcode(opcode: byte) returns (r: Taken<()>)
      requires Valid() && mode == ProcessingOpcode(opcode)
      modifies this`buffer, this`mode, this`currentDb, this`expire
      ensures Valid() && Performs(r, StepProcessOpcode(old(View()), opcode)) && (r.Lacking? ==> View() == old(View()))
    {
      if opcode == OPCODE_SELECTDB {
        r := TakeSelectDb();
      } else if opcode == OPCODE_RESIZEDB {
        r := TakeResizeDb();
      } else if opcode == OPCODE_AUX {
        r := TakeAux();
      } else if opcode == OPCODE_EXPIRETIME {
        r := TakeExpire(4, 1000);
      } else if opcode == OPCODE_EXPIRETIME_MS {
        r := TakeExpire(8, 1);
      } else {
        r := Bad(UnknownOpcode);
      }
    }

    method TakeSelectDb() returns (r: Taken<()>)
      requires Valid() && mode.ProcessingOpcode?
      modifies this`buffer, this`mode, this`currentDb
      ensures Valid() && Performs(r, StepSelectDb(old(View()))) && (r.Lacking? ==> View() == old(View()))
    {
      var n := TakeLength();
      match n
      case Lacking => r := Lacking;
      case Bad(e) => r := Bad(e);
      case Got(db) =>
        currentDb, mode := db % 0x1_0000_0000, Opcode;
        r := Got(());
    }

    /** Peeks at both lengths before it consumes them. */
    method TakeResizeDb() returns (r: Taken<()>)
      requires Valid() && mode.ProcessingOpcode?
      modifies this`buffer, this`mode
      ensures Valid() && Performs(r, StepResizeDb(old(View()))) && (r.Lacking? ==> View() == old(View()))
    {
      var first := PeekLength(buffer);
      if !first.Ready? {
        return if first.NeedMore? then Lacking else Bad(first.error);
      }
      var second := PeekLengthAt(buffer, first.value.octets);
      if !second.Ready? {
        return if second.NeedMore? then Lacking else Bad(second.error);
      }
      ghost var all := buffer;
      var _ := TakeLength();
      assert buffer == all[first.value.octets..];
      var _ := TakeLength();
      assert buffer == all[first.value.octets + second.value.octets..];
      mode := Opcode;
      r := Got(());
    }

    /** Sizes both strings before it consumes them. */
    method TakeAux() returns (r: Taken<()>)
      requires Valid() && mode.ProcessingOpcode?
      modifies this`buffer, this`mode
      ensures Valid() && Performs(r, StepAux(old(View()))) && (r.Lacking? ==> View() == old(View()))
    {
      var mid := StringEnd(buffer, 0);
      if !mid.Ready? {
        return if mid.NeedMore? then Lacking else Bad(mid.error);
      }
      var end := StringEnd(buffer, mid.value);
      if !end.Ready? {
        return if end.NeedMore? then Lacking else Bad(end.error);
      }
      if |buffer| < end.value {
        return Lacking;
      }
      ghost var all := buffer;
      StringAgrees(all, 0);
      assert all[0..] == all;
      var name := TakeString();
      if name.Bad? {
        return Bad(name.error);
      }
      StringAgrees(all, mid.value);
      var content := TakeString();
      if content.Bad? {
        return Bad(content.error);
      }
      mode := Opcode;
      r := Got(());
    }

    method TakeExpire(width: nat, scale: nat) returns (r: Taken<()>)
      requires Valid() && mode.ProcessingOpcode?
      modifies this`buffer, this`mode, this`expire
      ensures Valid() && Performs(r, StepExpire(old(View()), width, scale)) && (r.Lacking? ==> View() == old(View()))
    {
      if |buffer| < width {
        return Lacking;
      }
      expire := Some(LittleEndian(buffer[..width]) * scale);
      buffer, mode := buffer[width..], Opcode;
      r := Got(());
    }

    // ----- Lengths and strings -----

    method TakeLength() returns (r: Taken<nat>)
      modifies this`buffer
      ensures TakenAs(r, LoadLength(old(buffer)), buffer) && (!r.Got? ==> buffer == old(buffer))
    {
      var peeked := PeekLength(buffer);
      match peeked
      case NeedMore => r := Lacking;
      case Broken(e) => r := Bad(e);
      case Ready(len) =>
        buffer := buffer[len.octets..];
        r := Got(len.value);
    }

    /** The encoding octet, then a little-endian integer of `width` octets. */
    method TakeInteger(width: nat) returns (r: Taken<seq<byte>>)
      requires buffer != []
      modifies this`buffer
      ensures if |old(buffer)| < 1 + width then r == Lacking && buffer == old(buffer)
        else r == Got(IntText(SignedLE(old(buffer)[1..1 + width]))) && buffer == old(buffer)[1 + width..]
    {
      if |buffer| < 1 + width {
        return Lacking;
      }
      SliceTwice(buffer, 1, width);
      buffer := buffer[1..];
      var v := SignedLE(buffer[..width]);
      buffer := buffer[width..];
      r := Got(IntText(v));
    }

    /** Both lengths of an LZF string and whether all of it is there; nothing is consumed. */
    method PeekPacked() returns (r: Peek<Span>, clen: Length, ulen: Length)
      ensures r == PackedSpan(buffer)
      ensures r.Ready? ==>
        && PeekLengthAt(buffer, 1) == Ready(clen) && PeekLengthAt(buffer, 1 + clen.octets) == Ready(ulen)
        && r.value == Span(1 + clen.octets + ulen.octets, 1 + clen.octets + ulen.octets + clen.value, ulen.value)
    {
      clen, ulen := Length(0, 0), Length(0, 0);
      var first := PeekLengthAt(buffer, 1);
      if !first.Ready? {
        return if first.NeedMore? then NeedMore else Broken(first.error), clen, ulen;
      }
      clen := first.value;
      var second := PeekLengthAt(buffer, 1 + clen.octets);
      if !second.Ready? {
        return if second.NeedMore? then NeedMore else Broken(second.error), clen, ulen;
      }
      ulen := second.value;
      var start := 1 + clen.octets + ulen.octets;
      r := if |buffer| < start + clen.value then NeedMore else Ready(Span(start, start + clen.value, ulen.value));
    }

    /** An LZF string: everything is checked before anything is consumed. */
    method TakePacked() returns (r: Taken<seq<byte>>)
      requires buffer != []
      modifies this`buffer
      ensures TakenAs(r, LoadPacked(old(buffer)), buffer)
      ensures r.Lacking? ==> buffer == old(buffer)
    {
      var span, clen, ulen := PeekPacked();
      if !span.Ready? {
        return if span.NeedMore? then Lacking else Bad(span.error);
      }
      var packed := TakeSpan(span.value, clen, ulen);
      r := Decompress(packed, ulen.value);
    }

    /** The compressed octets, once it is known that they are there. */
    method TakeSpan(span: Span, clen: Length, ulen: Length) returns (packed: seq<byte>)
      requires buffer != [] && PeekLengthAt(buffer, 1) == Ready(clen) && PeekLengthAt(buffer, 1 + clen.octets) == Ready(ulen)
      requires span.start == 1 + clen.octets + ulen.octets && span.end == span.start + clen.value <= |buffer|
      modifies this`buffer
      ensures packed == old(buffer)[span.start..span.end] && buffer == old(buffer)[span.end..]
    {
      SliceTwice(buffer, span.start, clen.value);
      SkipLengths(clen, ulen);
      packed := buffer[..clen.value];
      buffer := buffer[clen.value..];
    }

    /** The encoding octet and the two lengths that were peeked at. */
    method SkipLengths(clen: Length, ulen: Length)
      requires buffer != [] && PeekLengthAt(buffer, 1) == Ready(clen) && PeekLengthAt(buffer, 1 + clen.octets) == Ready(ulen)
      modifies this`buffer
      ensures buffer == old(buffer)[1 + clen.octets + ulen.octets..]
    {
      ghost var all := buffer;
      buffer := buffer[1..];
      var _ := TakeLength();
      assert buffer == all[1 + clen.octets..];
      var _ := TakeLength();
    }

    method TakeString() returns (r: Taken<seq<byte>>)
      modifies this`buffer
      ensures TakenAs(r, LoadString(old(buffer)), buffer)
      ensures r.Lacking? ==> buffer == old(buffer)
    {
      if buffer == [] {
        return Lacking;
      }
      var first: int := buffer[0];
      if first / 64 == 3 {
        match first % 64
        case 0 => r := TakeInteger(1);
        case 1 => r := TakeInteger(2);
        case 2 => r := TakeInteger(4);
        case 3 => r := TakePacked();
        case _ => r := Lacking;
      } else {
        r := TakePlain();
      }
    }

    method TakePlain() returns (r: Taken<seq<byte>>)
      modifies this`buffer
      ensures match PeekLength(old(buffer))
        case NeedMore => r == Lacking && buffer == old(buffer)
        case Broken(e) => r == Bad(e)
        case Ready(len) =>
          var end := len.octets + len.value;
          if |old(buffer)| < end then r == Lacking && buffer == old(buffer)
          else r == Got(old(buffer)[len.octets..end]) && buffer == old(buffer)[end..]
    {
      var len := PeekLength(buffer);
      if !len.Ready? {
        return if len.NeedMore? then Lacking else Bad(len.error);
      }
      if |buffer| < len.value.octets + len.value.value {
        return Lacking;
      }
      SliceTwice(buffer, len.value.octets, len.value.value);
      var _ := TakeLength();
      r := Got(buffer[..len.value.value]);
      buffer := buffer[len.value.value..];
    }

    // ----- Values -----

    method TakePart(part: Part) returns (r: Taken<seq<byte>>)
      modifies this`buffer
      ensures TakenAs(r, LoadPart(old(buffer), part), buffer)
    {
      match part
      case Text => r := TakeString();
      case Octet =>
        if buffer == [] {
          return Lacking;
        }
        r, buffer := Got(buffer[..1]), buffer[1..];
      case Eight =>
        if |buffer| < 8 {
          return Lacking;
        }
        r, buffer := Got(buffer[..8]), buffer[8..];
    }

    method TakeParts(parts: seq<Part>) returns (r: Taken<seq<seq<byte>>>)
      modifies this`buffer
      ensures TakenAs(r, LoadParts(old(buffer), parts), buffer)
    {
      var values: seq<seq<byte>> := [];
      AfterNothing(LoadParts(buffer, parts));
      for j := 0 to |parts|
        invariant |values| == j
        invariant After(values, LoadParts(buffer, parts[j..])) == LoadParts(old(buffer), parts)
      {
        assert parts[j..][1..] == parts[j + 1..] && parts[j..][0] == parts[j];
        ghost var was := buffer;
        var part := TakePart(parts[j]);
        if part.Lacking? {
          return Lacking;
        } else if part.Bad? {
          return Bad(part.error);
        }
        AfterAfter(values, [part.value], LoadParts(buffer, parts[j + 1..]));
        values := values + [part.value];
      }
      assert parts[|parts|..] == [] && values + [] == values;
      r := Got(values);
    }

    /** One element of a counted value. */
    method TakeElement(valueType: byte, ghost load: seq<byte> -> Load<seq<seq<byte>>>) returns (r: Taken<seq<seq<byte>>>)
      requires Shape(valueType).Some? && LoadsElements(load, floats, valueType)
      modifies this`buffer
      ensures TakenAs(r, load(old(buffer)), buffer)
    {
      assert load(buffer) == LoadElement(floats, valueType, buffer);
      var parts := TakeParts(Shape(valueType).value);
      if !parts.Got? {
        return if parts.Lacking? then Lacking else Bad(parts.error);
      }
      if valueType == TYPE_ZSET_2 {
        r := Got([floats.ofOctets(parts.value[1]), parts.value[0]]);
      } else if valueType == TYPE_LIST_QUICKLIST_2 {
        var entries := ReadListpack(parts.value[1]);
        r := if entries.Error? then Bad(entries.error) else Got(entries.value);
      } else {
        r := Got([parts.value[0], parts.value[1]]);
      }
    }

    /** The element loop of the loaders: the buffer shrinks and the argument list grows. */
    method TakeElements(valueType: byte, count: nat, ghost load: seq<byte> -> Load<seq<seq<byte>>>) returns (r: Taken<seq<seq<byte>>>)
      requires Shape(valueType).Some? && LoadsElements(load, floats, valueType)
      modifies this`buffer
      ensures TakenAs(r, LoadMany(load, old(buffer), count), buffer)
    {
      var args: seq<seq<byte>> := [];
      AfterNothing(LoadMany(load, buffer, count));
      for i := 0 to count
        invariant After(args, LoadMany(load, buffer, count - i)) == LoadMany(load, old(buffer), count)
      {
        var element := TakeElement(valueType, load);
        if element.Lacking? {
          return Lacking;
        } else if element.Bad? {
          return Bad(element.error);
        }
        AfterAfter(args, element.value, LoadMany(load, buffer, count - i - 1));
        args := args + element.value;
      }
      assert args + [] == args;
      r := Got(args);
    }

    method LoadObject(valueType: byte) returns (r: Taken<seq<RawCommand>>)
      modifies this`buffer
      ensures TakenAs(r, LoadValue(floats, currentDb, valueType, savedKey, old(buffer)), buffer)
    {
      if IsSingleString(valueType) {
        var text := TakeString();
        if !text.Got? {
          return if text.Lacking? then Lacking else Bad(text.error);
        }
        r := StringObject(floats, currentDb, valueType, savedKey, text.value);
      } else if Shape(valueType).Some? {
        var count := TakeLength();
        if !count.Got? {
          return if count.Lacking? then Lacking else Bad(count.error);
        }
        var args := TakeElements(valueType, count.value, ElementLoader(floats, valueType));
        if !args.Got? {
          return if args.Lacking? then Lacking else Bad(args.error);
        }
        r := Got(CountedCommands(currentDb, valueType, savedKey, args.value));
      } else {
        r := Got([]);
      }
    }

    method ParseValue(valueType: byte) returns (r: Next)
      requires Valid() && mode == ProcessingValue(valueType)
      modifies this
      ensures Advanced(r, old(View()))
      decreases |buffer|, Rank(mode), 0
    {
      StepDecreases(floats, View());
      var end := CalculateValueEnd(buffer, valueType);
      if end.NeedMore? {
        return Idle;
      }
      if end.Broken? {
        expire, savedKey, mode := None, [], Opcode;
        return Yield([]);
      }
      if |buffer| < end.value {
        return Idle;
      }
      ValueAgrees(floats, currentDb, valueType, savedKey, buffer);
      var loaded := LoadObject(valueType);
      if loaded.Bad? {
        return Err(loaded.error);
      }
      var commands := loaded.value;
      if expire.Some? {
        commands := commands + [RawCommand(currentDb, PEXPIREAT, [savedKey, NatText(expire.value)])];
      } else {
        assert commands + [] == commands;
      }
      expire, savedKey, mode := None, [], Opcode;
      r := Yield(commands);
    }

    method ParseChecksum() returns (r: Next)
      requires Valid() && mode == WaitingChecksum
      modifies this
      ensures Advanced(r, old(View()))
      decreases |buffer|, Rank(mode), 0
    {
      if |buffer| < 8 {
        return Idle;
      }
      buffer, finished, mode := buffer[8..], true, Finished;
      ghost var mid := View();
      r := Idle;
      assert Run(floats, mid) == Fed(mid, []);
      Chain(r, mid, old(View()));
    }

    /** One `feed_data` call: the commands of all complete values, or the first error. */
    method FeedData(data: seq<byte>) returns (r: FeedResult)
      requires Valid()
      modifies this
      ensures r == Feed(floats, old(View()), data)
      ensures r.Fed? ==> Valid() && View() == r.state
    {
      if finished {
        return Rejected(AlreadyFinished);
      }
      buffer := buffer + data;
      ghost var start := View();
      assert start == Extend(old(View()), data);
      var commands: seq<RawCommand> := [];
      PrependNothing(Run(floats, start));
      while true
        invariant Valid()
        invariant Run(floats, start) == Prepend(commands, Run(floats, View()))
        decreases |buffer|, Rank(mode)
      {
        ghost var was := View();
        var next := ParseNext();
        match next
        case Err(e) => return Rejected(e);
        case Idle =>
          assert commands + [] == commands;
          return Fed(State(buffer, mode, currentDb, expire, savedKey), commands);
        case Yield(cmds) =>
          PrependPrepend(commands, cmds, Run(floats, View()));
          commands := commands + cmds;
      }
    }
  }

  /** `load` reads one element of the given type. */
  ghost predicate LoadsElements(load: seq<byte> -> Load<seq<seq<byte>>>, floats: Floats, valueType: byte)
    requires Shape(valueType).Some?
  {
    forall b: seq<byte> {:trigger LoadElement(floats, valueType, b)} :: load(b) == LoadElement(floats, valueType, b)
  }

  lemma SliceTwice(s: seq<byte>, a: nat, b: nat)
    requires a + b <= |s|
    ensures s[a..][..b] == s[a..a + b] && s[a..][b..] == s[a + b..]
  {
  }

  /** The wrapper around the C decoder. */
  method Decompress(packed: seq<byte>, size: nat) returns (r: Taken<seq<byte>>)
    ensures match Unpack(packed, size)
      case Loaded(data, _) => r == Got(data)
      case Error(e) => r == Bad(e)
  {
    var input := new byte[|packed|](i requires 0 <= i < |packed| => packed[i]);
    var output := new byte[size](_ => 0);
    assert input[..] == packed && input[..|packed|] == packed;
    var n, errno := LzfDecoder.Decompress(input, |packed|, output, size);
    if n == 0 {
      return Bad(LzfDecompressionFailed);
    }
    if n != size {
      return Bad(LzfSizeMismatch);
    }
    r := Got(output[..n]);
  }

  /** A value kept in one string: an integer set or a listpack is read by its loop. */
  method StringObject(floats: Floats, db: nat, valueType: byte, key: seq<byte>, s: seq<byte>) returns (r: Taken<seq<RawCommand>>)
    requires IsSingleString(valueType)
    ensures match StringCommands(floats, db, valueType, key, s)
      case Loaded(cmds, _) => r == Got(cmds)
      case Error(e) => r == Bad(e)
  {
    if valueType == TYPE_STRING {
      return Got([RawCommand(db, SET, [key, s])]);
    }
    if valueType == TYPE_SET_INTSET {
      var integers := ReadIntset(s);
      if integers.Error? {
        return Bad(integers.error);
      }
      var vs := integers.value;
      return Got([RawCommand(db, SADD, [key] + seq(|vs|, i requires 0 <= i < |vs| => IntText(vs[i])))]);
    }
    var listpack := ReadListpack(s);
    if listpack.Error? {
      return Bad(listpack.error);
    }
    var entries := listpack.value;
    if valueType == TYPE_SET_LISTPACK {
      return Got([RawCommand(db, SADD, [key] + entries)]);
    }
    if |entries| % 2 != 0 {
      return Bad(if valueType == TYPE_HASH_LISTPACK then OddHashEntries else OddZsetEntries);
    }
    if valueType == TYPE_HASH_LISTPACK {
      return Got([RawCommand(db, HSET, [key] + entries)]);
    }
    var args := TurnPairs(floats, entries);
    r := Got([RawCommand(db, ZADD, [key] + args)]);
  }

  /** Members and scores to scores and members, two entries at a time. */
  method TurnPairs(floats: Floats, entries: seq<seq<byte>>) returns (args: seq<seq<byte>>)
    requires |entries| % 2 == 0
    ensures args == ScorePairs(floats, entries)
  {
    args := [];
    var i := 0;
    while i < |entries|
      invariant i <= |entries| && i % 2 == 0
      invariant args + ScorePairs(floats, entries[i..]) == ScorePairs(floats, entries)
    {
      assert entries[i..][2..] == entries[i + 2..] && entries[i..][0] == entries[i] && entries[i..][1] == entries[i + 1];
      args := args + [floats.ofText(entries[i + 1]), entries[i]];
      i := i + 2;
    }
    assert entries[i..] == [] && args + [] == args;
  }
}
