/**
 Values of the RDB format.  `ValueEnd` is the size calculation that runs before anything is
 consumed, `LoadValue` the loader that runs once it says that everything is buffered.
 */
module RdbValue {
  import opened Bytes
  import opened Decimal
  import opened RdbString
  import opened RdbListpack

  const TYPE_STRING := 0
  const TYPE_HASH := 4
  const TYPE_ZSET_2 := 5
  const TYPE_SET_INTSET := 11
  const TYPE_HASH_LISTPACK := 16
  const TYPE_ZSET_LISTPACK := 17
  const TYPE_LIST_QUICKLIST_2 := 18
  const TYPE_SET_LISTPACK := 20
  const TYPE_HASH_2 := 22

  const SET: seq<byte> := [83, 69, 84]
  const ZADD: seq<byte> := [90, 65, 68, 68]
  const HSET: seq<byte> := [72, 83, 69, 84]
  const RPUSH: seq<byte> := [82, 80, 85, 83, 72]
  const SADD: seq<byte> := [83, 65, 68, 68]
  const PEXPIREAT: seq<byte> := [80, 69, 88, 80, 73, 82, 69, 65, 84]

  /** A command as handed to the Elixir side. */
  datatype RawCommand = RawCommand(db: nat, name: seq<byte>, args: seq<seq<byte>>)

  /** Float printing, which is not modelled: the text of an 8-octet score and of a textual score. */
  datatype Floats = Floats(ofOctets: seq<byte> -> seq<byte>, ofText: seq<byte> -> seq<byte>)

  /** One part of an element of a counted value. */
  datatype Part = Text | Octet | Eight

  /** The parts of one element of a counted value, for the types that have a count in front. */
  function Shape(valueType: byte): Option<seq<Part>> {
    if valueType == TYPE_ZSET_2 then Some([Text, Eight])
    else if valueType == TYPE_HASH then Some([Text, Text])
    else if valueType == TYPE_LIST_QUICKLIST_2 then Some([Octet, Text])
    else if valueType == TYPE_HASH_2 then Some([Text, Text, Eight])
    else None
  }

  predicate IsSingleString(valueType: byte) {
    valueType in {TYPE_STRING, TYPE_HASH_LISTPACK, TYPE_SET_INTSET, TYPE_SET_LISTPACK, TYPE_ZSET_LISTPACK}
  }

  // ----- The size calculation -----

  /** Where a part at `offset` ends; eight plain octets are counted without looking. */
  function PartEnd(buf: seq<byte>, offset: nat, part: Part): (r: Peek<nat>)
    ensures r.Ready? ==> offset < r.value
  {
    match part
    case Text => StringEnd(buf, offset)
    case Octet => if offset < |buf| then Ready(offset + 1) else NeedMore
    case Eight => Ready(offset + 8)
  }

  function PartsEnd(buf: seq<byte>, offset: nat, parts: seq<Part>): (r: Peek<nat>)
    ensures r.Ready? ==> offset <= r.value
    decreases |parts|
  {
    if parts == [] then Ready(offset)
    else
      match PartEnd(buf, offset, parts[0])
      case Ready(end) => PartsEnd(buf, end, parts[1..])
      case NeedMore => NeedMore
      case Broken(e) => Broken(e)
  }

  function ElementsEnd(buf: seq<byte>, offset: nat, shape: seq<Part>, count: nat): (r: Peek<nat>)
    ensures r.Ready? ==> offset <= r.value
    decreases count
  {
    if count == 0 then Ready(offset)
    else
      match PartsEnd(buf, offset, shape)
      case Ready(end) => ElementsEnd(buf, end, shape, count - 1)
      case NeedMore => NeedMore
      case Broken(e) => Broken(e)
  }

  /** Where the value at the start of `buf` ends. */
  function ValueEnd(buf: seq<byte>, valueType: byte): (r: Peek<nat>)
    ensures r.Ready? ==> 1 <= r.value && buf != []
  {
    if IsSingleString(valueType) then StringEnd(buf, 0)
    else
      match Shape(valueType)
      case None => Broken(UnknownRdbType)
      case Some(shape) =>
        match PeekLength(buf)
        case NeedMore => NeedMore
        case Broken(e) => Broken(e)
        case Ready(count) => ElementsEnd(buf, count.octets, shape, count.value)
  }

  /** `calculate_value_size` as written: accumulating loops over elements and their parts. */
  method CalculateValueEnd(buf: seq<byte>, valueType: byte) returns (r: Peek<nat>)
    ensures r == ValueEnd(buf, valueType)
  {
    if IsSingleString(valueType) {
      return StringEnd(buf, 0);
    }
    var shape := Shape(valueType);
    if shape == None {
      return Broken(UnknownRdbType);
    }
    var count := PeekLength(buf);
    if count.NeedMore? {
      return NeedMore;
    } else if count.Broken? {
      return Broken(count.error);
    }
    var offset: nat, i := count.value.octets, 0;
    while i < count.value.value
      invariant i <= count.value.value
      invariant ElementsEnd(buf, offset, shape.value, count.value.value - i) == ValueEnd(buf, valueType)
    {
      r := CalculatePartsEnd(buf, offset, shape.value);
      if !r.Ready? {
        return;
      }
      offset := r.value;
      i := i + 1;
    }
    r := Ready(offset);
  }

  method CalculatePartsEnd(buf: seq<byte>, start: nat, parts: seq<Part>) returns (r: Peek<nat>)
    ensures r == PartsEnd(buf, start, parts)
  {
    var offset, j := start, 0;
    while j < |parts|
      invariant j <= |parts|
      invariant PartsEnd(buf, offset, parts[j..]) == PartsEnd(buf, start, parts)
    {
      r := PartEnd(buf, offset, parts[j]);
      if !r.Ready? {
        return;
      }
      assert parts[j..][1..] == parts[j + 1..];
      offset := r.value;
      j := j + 1;
    }
    r := Ready(offset);
  }

  // ----- The loaders -----

  function LoadPart(buf: seq<byte>, part: Part): Load<seq<byte>> {
    match part
    case Text => LoadString(buf)
    case Octet => if buf == [] then Short else Loaded(buf[..1], buf[1..])
    case Eight => if |buf| < 8 then Short else Loaded(buf[..8], buf[8..])
  }

  function LoadParts(buf: seq<byte>, parts: seq<Part>): (r: Load<seq<seq<byte>>>)
    ensures r.Loaded? ==> |r.value| == |parts|
    decreases |parts|
  {
    if parts == [] then Loaded([], buf)
    else
      match LoadPart(buf, parts[0])
      case Short => Short
      case Error(e) => Error(e)
      case Loaded(v, rest) => After([v], LoadParts(rest, parts[1..]))
  }

  /** What one loaded element contributes to the command arguments. */
  function ElementArgs(floats: Floats, valueType: byte, parts: seq<seq<byte>>): (r: Load<seq<seq<byte>>>)
    requires Shape(valueType).Some? && |parts| == |Shape(valueType).value|
    ensures !r.Short?
  {
    if valueType == TYPE_ZSET_2 then Loaded([floats.ofOctets(parts[1]), parts[0]], [])
    else if valueType == TYPE_LIST_QUICKLIST_2 then ParseListpack(parts[1])
    else Loaded([parts[0], parts[1]], [])
  }

  function LoadElement(floats: Floats, valueType: byte, buf: seq<byte>): Load<seq<seq<byte>>>
    requires Shape(valueType).Some?
  {
    match LoadParts(buf, Shape(valueType).value)
    case Short => Short
    case Error(e) => Error(e)
    case Loaded(parts, rest) =>
      match ElementArgs(floats, valueType, parts)
      case Error(e) => Error(e)
      case Loaded(args, _) => Loaded(args, rest)
  }

  /** `count` elements, each read by `load`. */
  function LoadMany(load: seq<byte> -> Load<seq<seq<byte>>>, buf: seq<byte>, count: nat): Load<seq<seq<byte>>>
    decreases count
  {
    if count == 0 then Loaded([], buf)
    else
      match load(buf)
      case Short => Short
      case Error(e) => Error(e)
      case Loaded(args, rest) => After(args, LoadMany(load, rest, count - 1))
  }

  function ElementLoader(floats: Floats, valueType: byte): seq<byte> -> Load<seq<seq<byte>>>
    requires Shape(valueType).Some?
  {
    (buf: seq<byte>) => LoadElement(floats, valueType, buf)
  }

  /** The command for a counted value; lists and type-22 hashes give none when empty. */
  function CountedCommands(db: nat, valueType: byte, key: seq<byte>, args: seq<seq<byte>>): seq<RawCommand> {
    if valueType == TYPE_ZSET_2 then [RawCommand(db, ZADD, [key] + args)]
    else if valueType == TYPE_HASH then [RawCommand(db, HSET, [key] + args)]
    else if args == [] then []
    else [RawCommand(db, if valueType == TYPE_HASH_2 then HSET else RPUSH, [key] + args)]
  }

  /** Member and score entries turned into score and member arguments. */
  function ScorePairs(floats: Floats, entries: seq<seq<byte>>): seq<seq<byte>>
    requires |entries| % 2 == 0
  {
    if entries == [] then []
    else [floats.ofText(entries[1]), entries[0]] + ScorePairs(floats, entries[2..])
  }

  /** The command for a value kept in one string, or an error. */
  function StringCommands(floats: Floats, db: nat, valueType: byte, key: seq<byte>, s: seq<byte>)
    : (r: Load<seq<RawCommand>>)
    requires IsSingleString(valueType)
    ensures !r.Short?
  {
    if valueType == TYPE_STRING then Loaded([RawCommand(db, SET, [key, s])], [])
    else if valueType == TYPE_SET_INTSET then
      match ParseIntset(s)
      case Error(e) => Error(e)
      case Loaded(vs, _) => Loaded([RawCommand(db, SADD, [key] + seq(|vs|, i requires 0 <= i < |vs| => IntText(vs[i])))], [])
    else
      match ParseListpack(s)
      case Error(e) => Error(e)
      case Loaded(entries, _) =>
        if valueType == TYPE_SET_LISTPACK then Loaded([RawCommand(db, SADD, [key] + entries)], [])
        else if |entries| % 2 != 0 then
          Error(if valueType == TYPE_HASH_LISTPACK then OddHashEntries else OddZsetEntries)
        else if valueType == TYPE_HASH_LISTPACK then Loaded([RawCommand(db, HSET, [key] + entries)], [])
        else Loaded([RawCommand(db, ZADD, [key] + ScorePairs(floats, entries))], [])
  }

  function LoadCounted(floats: Floats, db: nat, valueType: byte, key: seq<byte>, buf: seq<byte>): Load<seq<RawCommand>>
    requires Shape(valueType).Some?
  {
    match LoadLength(buf)
    case Short => Short
    case Error(e) => Error(e)
    case Loaded(count, rest) =>
      match LoadMany(ElementLoader(floats, valueType), rest, count)
      case Short => Short
      case Error(e) => Error(e)
      case Loaded(args, rest') => Loaded(CountedCommands(db, valueType, key, args), rest')
  }

  function LoadSingle(floats: Floats, db: nat, valueType: byte, key: seq<byte>, buf: seq<byte>): Load<seq<RawCommand>>
    requires IsSingleString(valueType)
  {
    match LoadString(buf)
    case Short => Short
    case Error(e) => Error(e)
    case Loaded(s, rest) =>
      match StringCommands(floats, db, valueType, key, s)
      case Error(e) => Error(e)
      case Loaded(cmds, _) => Loaded(cmds, rest)
  }

  /** The commands of the value at the start of `buf`, for key `key` of database `db`. */
  function LoadValue(floats: Floats, db: nat, valueType: byte, key: seq<byte>, buf: seq<byte>): Load<seq<RawCommand>> {
    if IsSingleString(valueType) then LoadSingle(floats, db, valueType, key, buf)
    else if Shape(valueType).Some? then LoadCounted(floats, db, valueType, key, buf)
    else Loaded([], buf)
  }

  // ----- Peek and load agree -----

  /** The load never asks for more, and unless it fails it stops exactly at `end`. */
  ghost predicate StopsAt<T>(r: Load<T>, buf: seq<byte>, end: nat) {
    end <= |buf| && !r.Short? && (r.Loaded? ==> r.rest == buf[end..])
  }

  lemma PartAgrees(buf: seq<byte>, offset: nat, part: Part)
    requires offset <= |buf|
    requires PartEnd(buf, offset, part).Ready? && PartEnd(buf, offset, part).value <= |buf|
    ensures StopsAt(LoadPart(buf[offset..], part), buf, PartEnd(buf, offset, part).value)
  {
    if part == Text {
      StringAgrees(buf, offset);
    }
  }

  lemma {:induction false} PartsAgree(buf: seq<byte>, offset: nat, parts: seq<Part>)
    requires offset <= |buf|
    requires PartsEnd(buf, offset, parts).Ready? && PartsEnd(buf, offset, parts).value <= |buf|
    ensures StopsAt(LoadParts(buf[offset..], parts), buf, PartsEnd(buf, offset, parts).value)
    decreases |parts|
  {
    if parts != [] {
      PartAgrees(buf, offset, parts[0]);
      PartsAgree(buf, PartEnd(buf, offset, parts[0]).value, parts[1..]);
    }
  }

  lemma ElementAgrees(floats: Floats, valueType: byte, shape: seq<Part>, buf: seq<byte>, offset: nat)
    requires Shape(valueType) == Some(shape) && offset <= |buf|
    requires PartsEnd(buf, offset, shape).Ready? && PartsEnd(buf, offset, shape).value <= |buf|
    ensures StopsAt(LoadElement(floats, valueType, buf[offset..]), buf, PartsEnd(buf, offset, shape).value)
  {
    PartsAgree(buf, offset, shape);
  }

  /** `load` agrees with the size calculation for elements of the given shape anywhere in `buf`. */
  ghost predicate LoaderAgrees(load: seq<byte> -> Load<seq<seq<byte>>>, shape: seq<Part>, buf: seq<byte>) {
    forall offset: nat {:trigger PartsEnd(buf, offset, shape)} | offset <= |buf| ::
      var end := PartsEnd(buf, offset, shape);
      end.Ready? && end.value <= |buf| ==> StopsAt(load(buf[offset..]), buf, end.value)
  }

  lemma {:induction false} ElementsAgree(load: seq<byte> -> Load<seq<seq<byte>>>, shape: seq<Part>, buf: seq<byte>, offset: nat, count: nat)
    requires LoaderAgrees(load, shape, buf) && offset <= |buf|
    requires ElementsEnd(buf, offset, shape, count).Ready? && ElementsEnd(buf, offset, shape, count).value <= |buf|
    ensures StopsAt(LoadMany(load, buf[offset..], count), buf, ElementsEnd(buf, offset, shape, count).value)
    decreases count
  {
    if count > 0 {
      ElementsAgree(load, shape, buf, PartsEnd(buf, offset, shape).value, count - 1);
    }
  }

  /**
   For every value type: once the size calculation says where the value ends and that much is
   buffered, the loader does not ask for more data and either fails or consumes exactly that.
   */
  lemma ValueAgrees(floats: Floats, db: nat, valueType: byte, key: seq<byte>, buf: seq<byte>)
    requires ValueEnd(buf, valueType).Ready? && ValueEnd(buf, valueType).value <= |buf|
    ensures StopsAt(LoadValue(floats, db, valueType, key, buf), buf, ValueEnd(buf, valueType).value)
  {
    if IsSingleString(valueType) {
      assert buf[0..] == buf;
      StringAgrees(buf, 0);
    } else {
      var count := PeekLength(buf).value;
      var shape := Shape(valueType).value;
      forall offset: nat | offset <= |buf| && PartsEnd(buf, offset, shape).Ready? && PartsEnd(buf, offset, shape).value <= |buf|
        ensures StopsAt(ElementLoader(floats, valueType)(buf[offset..]), buf, PartsEnd(buf, offset, shape).value)
      {
        ElementAgrees(floats, valueType, shape, buf, offset);
      }
      ElementsAgree(ElementLoader(floats, valueType), shape, buf, count.octets, count.value);
    }
  }

  // ----- More octets never change what was already decided -----

  lemma PartEndStable(buf: seq<byte>, offset: nat, part: Part, more: seq<byte>)
    requires !PartEnd(buf, offset, part).NeedMore?
    ensures PartEnd(buf + more, offset, part) == PartEnd(buf, offset, part)
  {
    if part == Text {
      StringEndStable(buf, offset, more);
    }
  }

  lemma {:induction false} PartsEndStable(buf: seq<byte>, offset: nat, parts: seq<Part>, more: seq<byte>)
    requires !PartsEnd(buf, offset, parts).NeedMore?
    ensures PartsEnd(buf + more, offset, parts) == PartsEnd(buf, offset, parts)
    decreases |parts|
  {
    if parts != [] {
      PartEndStable(buf, offset, parts[0], more);
      if PartEnd(buf, offset, parts[0]).Ready? {
        PartsEndStable(buf, PartEnd(buf, offset, parts[0]).value, parts[1..], more);
      }
    }
  }

  lemma {:induction false} ElementsEndStable(buf: seq<byte>, offset: nat, shape: seq<Part>, count: nat, more: seq<byte>)
    requires !ElementsEnd(buf, offset, shape, count).NeedMore?
    ensures ElementsEnd(buf + more, offset, shape, count) == ElementsEnd(buf, offset, shape, count)
    decreases count
  {
    if count > 0 {
      PartsEndStable(buf, offset, shape, more);
      if PartsEnd(buf, offset, shape).Ready? {
        ElementsEndStable(buf, PartsEnd(buf, offset, shape).value, shape, count - 1, more);
      }
    }
  }

  lemma ValueEndStable(buf: seq<byte>, valueType: byte, more: seq<byte>)
    requires !ValueEnd(buf, valueType).NeedMore?
    ensures ValueEnd(buf + more, valueType) == ValueEnd(buf, valueType)
  {
    if IsSingleString(valueType) {
      StringEndStable(buf, 0, more);
    } else if Shape(valueType).Some? {
      LengthStable(buf, more);
      if PeekLength(buf).Ready? {
        var count := PeekLength(buf).value;
        ElementsEndStable(buf, count.octets, Shape(valueType).value, count.value, more);
      }
    }
  }

  lemma PartStable(buf: seq<byte>, part: Part, more: seq<byte>)
    ensures Extends(LoadPart(buf + more, part), LoadPart(buf, part), more)
  {
    match part
    case Text => LoadStringStable(buf, more);
    case Octet => if buf != [] { SliceOfAppend(buf, more, 0, 1); }
    case Eight => if |buf| >= 8 { SliceOfAppend(buf, more, 0, 8); }
  }

  lemma {:induction false} PartsStable(buf: seq<byte>, parts: seq<Part>, more: seq<byte>)
    ensures Extends(LoadParts(buf + more, parts), LoadParts(buf, parts), more)
    decreases |parts|
  {
    if parts != [] {
      PartStable(buf, parts[0], more);
      if LoadPart(buf, parts[0]).Loaded? {
        PartsStable(LoadPart(buf, parts[0]).rest, parts[1..], more);
      }
    }
  }

  lemma ElementStable(floats: Floats, valueType: byte, buf: seq<byte>, more: seq<byte>)
    requires Shape(valueType).Some?
    ensures Extends(LoadElement(floats, valueType, buf + more), LoadElement(floats, valueType, buf), more)
  {
    PartsStable(buf, Shape(valueType).value, more);
  }

  lemma {:induction false} ManyStable(load: seq<byte> -> Load<seq<seq<byte>>>, buf: seq<byte>, count: nat, more: seq<byte>)
    requires forall b :: Extends(load(b + more), load(b), more)
    ensures Extends(LoadMany(load, buf + more, count), LoadMany(load, buf, count), more)
    decreases count
  {
    if count > 0 && load(buf).Loaded? {
      ManyStable(load, load(buf).rest, count - 1, more);
    }
  }

  lemma ValueStable(floats: Floats, db: nat, valueType: byte, key: seq<byte>, buf: seq<byte>, more: seq<byte>)
    ensures Extends(LoadValue(floats, db, valueType, key, buf + more), LoadValue(floats, db, valueType, key, buf), more)
  {
    if IsSingleString(valueType) {
      LoadStringStable(buf, more);
    } else if Shape(valueType).Some? {
      LoadLengthStable(buf, more);
      if LoadLength(buf).Loaded? {
        var load := ElementLoader(floats, valueType);
        forall b
          ensures Extends(load(b + more), load(b), more)
        {
          ElementStable(floats, valueType, b, more);
        }
        ManyStable(load, LoadLength(buf).rest, LoadLength(buf).value, more);
      }
    }
  }
}
