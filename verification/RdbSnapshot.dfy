/**
 Whole snapshots: what the items of an RDB file mean, how they are written, and the proof that
 the parser turns any such file, cut into chunks in any way, into exactly that meaning.
 */
module RdbSnapshot {
  import opened Bytes
  import opened Decimal
  import opened RdbString
  import opened RdbListpack
  import opened RdbValue
  import opened RdbEncoding
  import opened RdbWire
  import opened RdbParser
  import opened RdbChunks

  // ----- Values -----

  datatype Field = Field(name: Str, content: Str)

  /** A member and the eight octets of its score. */
  datatype Scored = Scored(member: Str, score: seq<byte>)

  /** A field with the eight octets of its expiry time. */
  datatype Timed = Timed(name: Str, content: Str, expiry: seq<byte>)

  /** A string that holds a listpack. */
  datatype Pack = Pack(s: Str, total: seq<byte>, es: seq<Entry>)

  /** The values of the format, one constructor per type octet. */
  datatype Value =
    | StringValue(s: Str)
    | HashValue(form: LengthForm, fields: seq<Field>)
    | SortedValue(form: LengthForm, scored: seq<Scored>)
    | IntsetValue(s: Str, width: nat, members: seq<int>)
    | HashPack(pack: Pack)
    | SortedPack(pack: Pack)
    | ListValue(form: LengthForm, nodes: seq<Pack>)
    | SetPack(pack: Pack)
    | TimedHash(form: LengthForm, timed: seq<Timed>)

  function TypeOctet(v: Value): byte {
    match v
    case StringValue(_) => 0
    case HashValue(_, _) => 4
    case SortedValue(_, _) => 5
    case IntsetValue(_, _, _) => 11
    case HashPack(_) => 16
    case SortedPack(_) => 17
    case ListValue(_, _) => 18
    case SetPack(_) => 20
    case TimedHash(_, _) => 22
  }

  ghost predicate ValidField(f: Field) {
    ValidStr(f.name) && ValidStr(f.content)
  }

  ghost predicate ValidScored(x: Scored) {
    ValidStr(x.member) && |x.score| == 8
  }

  ghost predicate ValidTimed(f: Timed) {
    ValidStr(f.name) && ValidStr(f.content) && |f.expiry| == 8
  }

  ghost predicate ValidPack(p: Pack) {
    ValidStr(p.s) && ValidListpack(p.total, p.es) && Meaning(p.s) == EncodeListpack(p.total, p.es)
  }

  ghost predicate Every<T(!new)>(xs: seq<T>, valid: T -> bool) {
    forall i :: 0 <= i < |xs| ==> valid(xs[i])
  }

  ghost predicate ValidValue(v: Value) {
    match v
    case StringValue(s) => ValidStr(s)
    case HashValue(form, fields) => Fits(form, |fields|) && Every(fields, ValidField)
    case SortedValue(form, scored) => Fits(form, |scored|) && Every(scored, ValidScored)
    case IntsetValue(s, width, members) =>
      ValidStr(s) && ValidIntset(width, members) && Meaning(s) == EncodeIntset(width, members)
    case HashPack(pack) => ValidPack(pack) && |pack.es| % 2 == 0
    case SortedPack(pack) => ValidPack(pack) && |pack.es| % 2 == 0
    case ListValue(form, nodes) => Fits(form, |nodes|) && Every(nodes, ValidPack)
    case SetPack(pack) => ValidPack(pack)
    case TimedHash(form, timed) => Fits(form, |timed|) && Every(timed, ValidTimed)
  }

  ghost function Flat<T, U>(xs: seq<T>, f: T --> seq<U>): seq<U>
    requires forall i :: 0 <= i < |xs| ==> f.requires(xs[i])
  {
    if xs == [] then [] else f(xs[0]) + Flat(xs[1..], f)
  }

  ghost function EncodeField(f: Field): seq<byte>
    requires ValidField(f)
  {
    EncodeStr(f.name) + EncodeStr(f.content)
  }

  ghost function EncodeScored(x: Scored): seq<byte>
    requires ValidScored(x)
  {
    EncodeStr(x.member) + x.score
  }

  ghost function EncodeTimed(f: Timed): seq<byte>
    requires ValidTimed(f)
  {
    EncodeStr(f.name) + EncodeStr(f.content) + f.expiry
  }

  /** A list node: the octet 2, for a packed one, and the string. */
  ghost function EncodeNode(p: Pack): seq<byte>
    requires ValidPack(p)
  {
    [2] + EncodeStr(p.s)
  }

  /** The octets of a value, after its type octet and key. */
  ghost function EncodeValue(v: Value): seq<byte>
    requires ValidValue(v)
  {
    match v
    case StringValue(s) => EncodeStr(s)
    case HashValue(form, fields) => EncodeLength(form, |fields|) + Flat(fields, EncodeField)
    case SortedValue(form, scored) => EncodeLength(form, |scored|) + Flat(scored, EncodeScored)
    case IntsetValue(s, _, _) => EncodeStr(s)
    case HashPack(pack) => EncodeStr(pack.s)
    case SortedPack(pack) => EncodeStr(pack.s)
    case ListValue(form, nodes) => EncodeLength(form, |nodes|) + Flat(nodes, EncodeNode)
    case SetPack(pack) => EncodeStr(pack.s)
    case TimedHash(form, timed) => EncodeLength(form, |timed|) + Flat(timed, EncodeTimed)
  }

  function FieldTexts(f: Field): seq<seq<byte>> {
    [Meaning(f.name), Meaning(f.content)]
  }

  function TimedTexts(f: Timed): seq<seq<byte>> {
    [Meaning(f.name), Meaning(f.content)]
  }

  function ScoredTexts(floats: Floats): Scored -> seq<seq<byte>> {
    (x: Scored) => [floats.ofOctets(x.score), Meaning(x.member)]
  }

  function PackTexts(p: Pack): seq<seq<byte>> {
    EntryTexts(p.es)
  }

  /** The commands that recreate the value under a key; an empty list, or hash with expiry times, needs none. */
  ghost function ValueCommands(floats: Floats, db: nat, key: seq<byte>, v: Value): seq<RawCommand>
    requires ValidValue(v)
  {
    match v
    case StringValue(s) => [RawCommand(db, Octets("SET"), [key, Meaning(s)])]
    case HashValue(_, fields) => [RawCommand(db, Octets("HSET"), [key] + Flat(fields, FieldTexts))]
    case SortedValue(_, scored) => [RawCommand(db, Octets("ZADD"), [key] + Flat(scored, ScoredTexts(floats)))]
    case IntsetValue(_, _, members) => [RawCommand(db, Octets("SADD"), [key] + IntTexts(members))]
    case HashPack(pack) => [RawCommand(db, Octets("HSET"), [key] + EntryTexts(pack.es))]
    case SortedPack(pack) =>
      EntryTextsLength(pack.es);
      [RawCommand(db, Octets("ZADD"), [key] + ScoresFirst(floats, EntryTexts(pack.es)))]
    case ListValue(_, nodes) =>
      var items := Flat(nodes, PackTexts);
      if items == [] then [] else [RawCommand(db, Octets("RPUSH"), [key] + items)]
    case SetPack(pack) => [RawCommand(db, Octets("SADD"), [key] + EntryTexts(pack.es))]
    case TimedHash(_, timed) =>
      if timed == [] then [] else [RawCommand(db, Octets("HSET"), [key] + Flat(timed, TimedTexts))]
  }

  // ----- How the loader sees them -----

  function FieldParts(f: Field): seq<PartValue> {
    [TextPart(f.name), TextPart(f.content)]
  }

  function ScoredParts(x: Scored): seq<PartValue> {
    [TextPart(x.member), EightPart(x.score)]
  }

  function TimedParts(f: Timed): seq<PartValue> {
    [TextPart(f.name), TextPart(f.content), EightPart(f.expiry)]
  }

  function NodeParts(p: Pack): seq<PartValue> {
    [OctetPart(2), PackPart(p.s, p.total, p.es)]
  }

  function ElementsOf<T>(xs: seq<T>, parts: T -> seq<PartValue>): (r: seq<seq<PartValue>>)
    ensures |r| == |xs| && forall i :: 0 <= i < |xs| ==> r[i] == parts(xs[i])
  {
    seq(|xs|, i requires 0 <= i < |xs| => parts(xs[i]))
  }

  function WireOf(v: Value): Wire {
    match v
    case StringValue(s) => Single(TypeOctet(v), s, Scalar)
    case HashValue(form, fields) => Counted(TypeOctet(v), form, ElementsOf(fields, FieldParts))
    case SortedValue(form, scored) => Counted(TypeOctet(v), form, ElementsOf(scored, ScoredParts))
    case IntsetValue(s, width, members) => Single(TypeOctet(v), s, Ints(width, members))
    case HashPack(pack) => Single(TypeOctet(v), pack.s, Entries(pack.total, pack.es))
    case SortedPack(pack) => Single(TypeOctet(v), pack.s, Entries(pack.total, pack.es))
    case ListValue(form, nodes) => Counted(TypeOctet(v), form, ElementsOf(nodes, NodeParts))
    case SetPack(pack) => Single(TypeOctet(v), pack.s, Entries(pack.total, pack.es))
    case TimedHash(form, timed) => Counted(TypeOctet(v), form, ElementsOf(timed, TimedParts))
  }

  /** One element: valid, written as `encode` says, and meaning what `texts` says. */
  ghost predicate Written<T(!new)>(floats: Floats, t: byte, shape: seq<Part>, parts: T -> seq<PartValue>,
                                   encode: T --> seq<byte>, texts: T -> seq<seq<byte>>, x: T) {
    && encode.requires(x) && Shape(t) == Some(shape) && ValidElement(t, parts(x))
    && EncodeParts(shape, parts(x)) == encode(x) && ElementMeaning(floats, t, parts(x)) == texts(x)
  }

  lemma {:induction false} ElementsWritten<T(!new)>(floats: Floats, t: byte, shape: seq<Part>, xs: seq<T>,
      parts: T -> seq<PartValue>, encode: T --> seq<byte>, texts: T -> seq<seq<byte>>)
    requires forall i :: 0 <= i < |xs| ==> Written(floats, t, shape, parts, encode, texts, xs[i])
    ensures forall i :: 0 <= i < |xs| ==> encode.requires(xs[i])
    ensures var es := ElementsOf(xs, parts);
      && ValidElements(t, es) && AllParts(shape, es)
      && EncodeElements(shape, es) == Flat(xs, encode) && ElementsMeaning(floats, t, es) == Flat(xs, texts)
    decreases |xs|
  {
    var es := ElementsOf(xs, parts);
    forall i | 0 <= i < |xs|
      ensures encode.requires(xs[i])
    {
      assert Written(floats, t, shape, parts, encode, texts, xs[i]);
    }
    if xs != [] {
      var rest := xs[1..];
      assert forall i :: 0 <= i < |rest| ==> rest[i] == xs[i + 1];
      ElementsWritten(floats, t, shape, rest, parts, encode, texts);
      assert es == [parts(xs[0])] + ElementsOf(rest, parts);
      assert Written(floats, t, shape, parts, encode, texts, xs[0]);
    }
  }

  lemma FieldWritten(floats: Floats, f: Field)
    requires ValidField(f)
    ensures Written(floats, 4, [Text, Text], FieldParts, EncodeField, FieldTexts, f)
  {
    TwoParts([Text, Text], FieldParts(f));
  }

  lemma ScoredWritten(floats: Floats, x: Scored)
    requires ValidScored(x)
    ensures Written(floats, 5, [Text, Eight], ScoredParts, EncodeScored, ScoredTexts(floats), x)
  {
    TwoParts([Text, Eight], ScoredParts(x));
  }

  lemma TimedWritten(floats: Floats, f: Timed)
    requires ValidTimed(f)
    ensures Written(floats, 22, [Text, Text, Eight], TimedParts, EncodeTimed, TimedTexts, f)
  {
    ThreeParts([Text, Text, Eight], TimedParts(f));
  }

  lemma NodeWritten(floats: Floats, p: Pack)
    requires ValidPack(p)
    ensures Written(floats, 18, [Octet, Text], NodeParts, EncodeNode, PackTexts, p)
  {
    TwoParts([Octet, Text], NodeParts(p));
  }

  lemma VerbsAreLiteral()
    ensures SET == Octets("SET") && ZADD == Octets("ZADD") && HSET == Octets("HSET")
    ensures RPUSH == Octets("RPUSH") && SADD == Octets("SADD") && PEXPIREAT == Octets("PEXPIREAT")
  {
  }

  /** The form that the loader sees is valid, written with the same octets, and means the same commands. */
  ghost predicate Agrees(floats: Floats, db: nat, key: seq<byte>, v: Value)
    requires ValidValue(v)
  {
    var w := WireOf(v);
    && ValidWire(w) && w.valueType == TypeOctet(v)
    && EncodeWire(w) == EncodeValue(v) && WireCommands(floats, db, key, w) == ValueCommands(floats, db, key, v)
  }

  lemma HashAgrees(floats: Floats, db: nat, key: seq<byte>, v: Value)
    requires ValidValue(v) && v.HashValue?
    ensures Agrees(floats, db, key, v)
  {
    VerbsAreLiteral();
    forall i | 0 <= i < |v.fields|
      ensures Written(floats, 4, [Text, Text], FieldParts, EncodeField, FieldTexts, v.fields[i])
    {
      FieldWritten(floats, v.fields[i]);
    }
    ElementsWritten(floats, 4, [Text, Text], v.fields, FieldParts, EncodeField, FieldTexts);
  }

  lemma SortedAgrees(floats: Floats, db: nat, key: seq<byte>, v: Value)
    requires ValidValue(v) && v.SortedValue?
    ensures Agrees(floats, db, key, v)
  {
    VerbsAreLiteral();
    forall i | 0 <= i < |v.scored|
      ensures Written(floats, 5, [Text, Eight], ScoredParts, EncodeScored, ScoredTexts(floats), v.scored[i])
    {
      ScoredWritten(floats, v.scored[i]);
    }
    ElementsWritten(floats, 5, [Text, Eight], v.scored, ScoredParts, EncodeScored, ScoredTexts(floats));
  }

  lemma ListAgrees(floats: Floats, db: nat, key: seq<byte>, v: Value)
    requires ValidValue(v) && v.ListValue?
    ensures Agrees(floats, db, key, v)
  {
    VerbsAreLiteral();
    forall i | 0 <= i < |v.nodes|
      ensures Written(floats, 18, [Octet, Text], NodeParts, EncodeNode, PackTexts, v.nodes[i])
    {
      NodeWritten(floats, v.nodes[i]);
    }
    ElementsWritten(floats, 18, [Octet, Text], v.nodes, NodeParts, EncodeNode, PackTexts);
  }

  lemma TimedAgrees(floats: Floats, db: nat, key: seq<byte>, v: Value)
    requires ValidValue(v) && v.TimedHash?
    ensures Agrees(floats, db, key, v)
  {
    VerbsAreLiteral();
    forall i | 0 <= i < |v.timed|
      ensures Written(floats, 22, [Text, Text, Eight], TimedParts, EncodeTimed, TimedTexts, v.timed[i])
    {
      TimedWritten(floats, v.timed[i]);
    }
    ElementsWritten(floats, 22, [Text, Text, Eight], v.timed, TimedParts, EncodeTimed, TimedTexts);
    assert v.timed == [] <==> Flat(v.timed, TimedTexts) == [];
  }

  lemma WireAgrees(floats: Floats, db: nat, key: seq<byte>, v: Value)
    requires ValidValue(v)
    ensures Agrees(floats, db, key, v)
  {
    VerbsAreLiteral();
    match v {
      case StringValue(s) =>
        assert [key] + [Meaning(s)] == [key, Meaning(s)];
      case IntsetValue(_, _, _) =>
      case HashPack(_) =>
      case SortedPack(_) =>
      case SetPack(_) =>
      case HashValue(_, _) => HashAgrees(floats, db, key, v);
      case SortedValue(_, _) => SortedAgrees(floats, db, key, v);
      case ListValue(_, _) => ListAgrees(floats, db, key, v);
      case TimedHash(_, _) => TimedAgrees(floats, db, key, v);
    }
  }

  /** The size calculation and the loader both read an encoded value back, under any suffix. */
  lemma ValueRoundTrip(floats: Floats, db: nat, key: seq<byte>, v: Value, suffix: seq<byte>)
    requires ValidValue(v)
    ensures ValueEnd(EncodeValue(v) + suffix, TypeOctet(v)) == Ready(|EncodeValue(v)|)
    ensures LoadValue(floats, db, TypeOctet(v), key, EncodeValue(v) + suffix)
         == Loaded(ValueCommands(floats, db, key, v), suffix)
  {
    WireAgrees(floats, db, key, v);
    WireRoundTrip(floats, db, key, WireOf(v), suffix);
  }

  // ----- What is refused -----

  /** Other type octets are unknown. */
  lemma OtherTypesRefused(t: byte, buf: seq<byte>)
    ensures t !in {0, 4, 5, 11, 16, 17, 18, 20, 22} <==> ValueEnd([0] + buf, t) == Broken(UnknownRdbType)
    ensures t !in {0, 4, 5, 11, 16, 17, 18, 20, 22} ==> ValueEnd(buf, t) == Broken(UnknownRdbType)
  {
    var b := [0] + buf;
    assert PeekLength(b) == Ready(Length(0, 1));
    assert t in {0, 11, 16, 17, 20} ==> StringEnd(b, 0) == Ready(1) by {
      assert b[0..] == b;
    }
  }

  /** Fields and scores that do not come in pairs. */
  lemma OddPacksRefused(floats: Floats, db: nat, key: seq<byte>, p: Pack, suffix: seq<byte>)
    requires ValidPack(p) && |p.es| % 2 == 1
    ensures LoadValue(floats, db, 16, key, EncodeStr(p.s) + suffix) == Error(OddHashEntries)
    ensures LoadValue(floats, db, 17, key, EncodeStr(p.s) + suffix) == Error(OddZsetEntries)
  {
    StringLoads(p.s, suffix);
    ListpackArgs(p.s, p.total, p.es);
    EntryTextsLength(p.es);
  }

  /** Listpack entries that start with an octet from 0xF5 on; a listpack ends at 0xFF. */
  lemma OtherEntriesRefused(buf: seq<byte>, n: nat)
    requires buf != [] && n > 0
    ensures ParseEntries(buf, n) == Loaded([], buf) || buf[0] != 0xFF
    ensures ParseEntry(buf) == Error(UnknownListpackEncoding) <==> buf[0] >= 0xF5
    ensures 0xF5 <= buf[0] < 0xFF ==> ParseEntries(buf, n) == Error(UnknownListpackEncoding)
  {
  }

  /** Integer sets of another width, unless they are empty. */
  lemma OtherWidthsRefused(width: nat, count: nat, body: seq<byte>)
    requires width < 0x1_0000_0000 && count < 0x1_0000_0000 && width !in {2, 4, 8}
    ensures ParseIntset(ToLittleEndian(width, 4) + ToLittleEndian(count, 4) + body)
      == if count == 0 then Loaded([], body) else Error(UnknownIntsetEncoding)
  {
    Pow256Values();
    LittleEndianRoundTrip(width, 4);
    LittleEndianRoundTrip(count, 4);
    IntsetLayout(ToLittleEndian(width, 4), ToLittleEndian(count, 4), body);
  }

  // ----- Items -----

  /** One item of the body of an RDB file. */
  datatype Item =
    | Aux(name: Str, content: Str)
    | ResizeDb(form1: LengthForm, n1: nat, form2: LengthForm, n2: nat)
    | SelectDb(form: LengthForm, n: nat)
    | ExpireSeconds(seconds: nat)
    | ExpireMillis(millis: nat)
    | KeyValue(key: Str, value: Value)

  ghost predicate ValidItem(item: Item) {
    match item
    case Aux(name, content) => ValidStr(name) && ValidStr(content)
    case ResizeDb(f1, n1, f2, n2) => Fits(f1, n1) && Fits(f2, n2)
    case SelectDb(form, n) => Fits(form, n)
    case ExpireSeconds(s) => s < 0x1_0000_0000
    case ExpireMillis(ms) => ms < 0x1_0000_0000_0000_0000
    case KeyValue(key, value) => ValidStr(key) && ValidValue(value)
  }

  ghost function EncodeItem(item: Item): seq<byte>
    requires ValidItem(item)
  {
    match item
    case Aux(name, content) => [250] + (EncodeStr(name) + EncodeStr(content))
    case ResizeDb(f1, n1, f2, n2) => [251] + (EncodeLength(f1, n1) + EncodeLength(f2, n2))
    case SelectDb(form, n) => [254] + EncodeLength(form, n)
    case ExpireSeconds(s) => [253] + ToLittleEndian(s, 4)
    case ExpireMillis(ms) => [252] + ToLittleEndian(ms, 8)
    case KeyValue(key, value) => [TypeOctet(value)] + (EncodeStr(key) + EncodeValue(value))
  }

  /** What an item does to the selected database and the pending expiry. */
  datatype Context = Context(db: nat, expire: Option<nat>)

  function ItemContext(c: Context, item: Item): Context {
    match item
    case SelectDb(_, n) => c.(db := n % 0x1_0000_0000)
    case ExpireSeconds(s) => c.(expire := Some(s * 1000))
    case ExpireMillis(ms) => c.(expire := Some(ms))
    case KeyValue(_, _) => c.(expire := None)
    case _ => c
  }

  /** The command for the pending expiry, if there is one. */
  function Expiry(c: Context, key: seq<byte>): seq<RawCommand> {
    if c.expire.None? then [] else [RawCommand(c.db, Octets("PEXPIREAT"), [key, NatText(c.expire.value)])]
  }

  ghost function ItemCommands(floats: Floats, c: Context, item: Item): seq<RawCommand>
    requires ValidItem(item)
  {
    match item
    case KeyValue(key, value) =>
      ValueCommands(floats, c.db, Meaning(key), value) + Expiry(c, Meaning(key))
    case _ => []
  }

  ghost predicate ValidItems(items: seq<Item>) {
    forall i :: 0 <= i < |items| ==> ValidItem(items[i])
  }

  ghost function EncodeItems(items: seq<Item>): seq<byte>
    requires ValidItems(items)
  {
    if items == [] then [] else EncodeItem(items[0]) + EncodeItems(items[1..])
  }

  ghost function ItemsCommands(floats: Floats, c: Context, items: seq<Item>): seq<RawCommand>
    requires ValidItems(items)
    decreases |items|
  {
    if items == [] then []
    else ItemCommands(floats, c, items[0]) + ItemsCommands(floats, ItemContext(c, items[0]), items[1..])
  }

  function ItemsContext(c: Context, items: seq<Item>): Context
    decreases |items|
  {
    if items == [] then c else ItemsContext(ItemContext(c, items[0]), items[1..])
  }

  /** The parser between two items. */
  function AtItem(buf: seq<byte>, c: Context): State {
    State(buf, Opcode, c.db, c.expire, [])
  }

  lemma OpcodeStep(floats: Floats, opcode: byte, buf: seq<byte>, c: Context)
    ensures Step(floats, AtItem([opcode] + buf, c)) == Progress(State(buf, AfterOpcode(opcode), c.db, c.expire, []), [])
  {
    assert ([opcode] + buf)[1..] == buf;
  }

  /** Two transitions in a row. */
  lemma TwoSteps(floats: Floats, s0: State, s1: State, s2: State, cmds: seq<RawCommand>)
    requires Step(floats, s0) == Progress(s1, []) && Step(floats, s1) == Progress(s2, cmds)
    ensures Run(floats, s0) == Prepend(cmds, Run(floats, s2))
  {
    PrependNothing(Run(floats, s1));
  }

  lemma ThreeSteps(floats: Floats, s0: State, s1: State, s2: State, s3: State, cmds: seq<RawCommand>)
    requires Step(floats, s0) == Progress(s1, []) && Step(floats, s1) == Progress(s2, [])
    requires Step(floats, s2) == Progress(s3, cmds)
    ensures Run(floats, s0) == Prepend(cmds, Run(floats, s3))
  {
    PrependNothing(Run(floats, s1));
    PrependNothing(Run(floats, s2));
  }

  lemma AuxItem(floats: Floats, item: Item, suffix: seq<byte>, c: Context)
    requires item.Aux? && ValidItem(item)
    ensures Run(floats, AtItem(EncodeItem(item) + suffix, c)) == Run(floats, AtItem(suffix, c))
  {
    var a, b := EncodeStr(item.name), EncodeStr(item.content);
    var buf := a + b + suffix;
    Associate([250], a + b, suffix);
    Associate(a, b, suffix);
    OpcodeStep(floats, 250, buf, c);
    StringRoundTrip(item.name, b + suffix);
    StringRoundTrip(item.content, suffix);
    StringEndShift(a, b + suffix);
    var s1 := State(buf, ProcessingOpcode(250), c.db, c.expire, []);
    assert StepAux(s1) == Progress(AtItem(suffix, c), []);
    TwoSteps(floats, AtItem(EncodeItem(item) + suffix, c), s1, AtItem(suffix, c), []);
    PrependNothing(Run(floats, AtItem(suffix, c)));
  }

  lemma ResizeDbStep(floats: Floats, a: seq<byte>, b: seq<byte>, n1: nat, n2: nat, suffix: seq<byte>, c: Context)
    requires PeekLength(a + (b + suffix)) == Ready(Length(n1, |a|)) && PeekLength(b + suffix) == Ready(Length(n2, |b|))
    ensures Step(floats, State(a + (b + suffix), ProcessingOpcode(251), c.db, c.expire, [])) == Progress(AtItem(suffix, c), [])
  {
    LengthAtShift(a, b + suffix, 0);
    assert (b + suffix)[0..] == b + suffix && (a + (b + suffix))[|a| + |b|..] == suffix;
  }

  lemma ResizeDbItem(floats: Floats, item: Item, suffix: seq<byte>, c: Context)
    requires item.ResizeDb? && ValidItem(item)
    ensures Run(floats, AtItem(EncodeItem(item) + suffix, c)) == Run(floats, AtItem(suffix, c))
  {
    var a, b := EncodeLength(item.form1, item.n1), EncodeLength(item.form2, item.n2);
    var buf := a + (b + suffix);
    Associate([251], a + b, suffix);
    Associate(a, b, suffix);
    OpcodeStep(floats, 251, buf, c);
    LengthPeeks(item.form1, item.n1, a, b + suffix);
    LengthPeeks(item.form2, item.n2, b, suffix);
    ResizeDbStep(floats, a, b, item.n1, item.n2, suffix, c);
    var s1 := State(buf, ProcessingOpcode(251), c.db, c.expire, []);
    TwoSteps(floats, AtItem(EncodeItem(item) + suffix, c), s1, AtItem(suffix, c), []);
    PrependNothing(Run(floats, AtItem(suffix, c)));
  }

  lemma ContextItem(floats: Floats, item: Item, suffix: seq<byte>, c: Context)
    requires (item.SelectDb? || item.ExpireSeconds? || item.ExpireMillis?) && ValidItem(item)
    ensures Run(floats, AtItem(EncodeItem(item) + suffix, c)) == Run(floats, AtItem(suffix, ItemContext(c, item)))
  {
    var opcode := EncodeItem(item)[0];
    var e := EncodeItem(item)[1..];
    assert EncodeItem(item) == [opcode] + e;
    Associate([opcode], e, suffix);
    OpcodeStep(floats, opcode, e + suffix, c);
    assert (e + suffix)[..|e|] == e && (e + suffix)[|e|..] == suffix;
    match item {
      case SelectDb(form, n) => LengthRoundTrip(form, n, suffix);
      case ExpireSeconds(s) => LittleEndianRoundTrip(s, 4);
      case ExpireMillis(ms) => LittleEndianRoundTrip(ms, 8);
    }
    var s1 := State(e + suffix, ProcessingOpcode(opcode), c.db, c.expire, []);
    TwoSteps(floats, AtItem(EncodeItem(item) + suffix, c), s1, AtItem(suffix, ItemContext(c, item)), []);
    PrependNothing(Run(floats, AtItem(suffix, ItemContext(c, item))));
  }

  lemma KeyStep(floats: Floats, valueType: byte, key: Str, buf: seq<byte>, c: Context)
    requires ValidStr(key)
    ensures Step(floats, State(EncodeStr(key) + buf, ProcessingKey(valueType), c.db, c.expire, []))
         == Progress(State(buf, ProcessingValue(valueType), c.db, c.expire, Meaning(key)), [])
  {
    StringLoads(key, buf);
  }

  lemma ValueStepFrom(floats: Floats, s: State, valueType: byte, cmds: seq<RawCommand>, rest: seq<byte>)
    requires s.mode == ProcessingValue(valueType)
    requires ValueEnd(s.buffer, valueType).Ready? && ValueEnd(s.buffer, valueType).value <= |s.buffer|
    requires LoadValue(floats, s.db, valueType, s.savedKey, s.buffer) == Loaded(cmds, rest)
    ensures Step(floats, s) == Progress(State(rest, Opcode, s.db, None, []), cmds + ExpireCommands(s))
  {
  }

  /** `e` is a value of type `t` that means these commands, under any suffix. */
  ghost predicate Reads(floats: Floats, db: nat, key: seq<byte>, t: byte, e: seq<byte>, cmds: seq<RawCommand>) {
    forall suffix {:trigger e + suffix} ::
      ValueEnd(e + suffix, t) == Ready(|e|) && LoadValue(floats, db, t, key, e + suffix) == Loaded(cmds, suffix)
  }

  lemma ValueReads(floats: Floats, db: nat, key: seq<byte>, v: Value)
    requires ValidValue(v)
    ensures Reads(floats, db, key, TypeOctet(v), EncodeValue(v), ValueCommands(floats, db, key, v))
  {
    forall suffix: seq<byte> {
      ValueRoundTrip(floats, db, key, v, suffix);
    }
  }

  lemma ValueStep(floats: Floats, t: byte, e: seq<byte>, cmds: seq<RawCommand>, key: seq<byte>, suffix: seq<byte>, c: Context)
    requires Reads(floats, c.db, key, t, e, cmds)
    ensures var s := State(e + suffix, ProcessingValue(t), c.db, c.expire, key);
      Step(floats, s) == Progress(AtItem(suffix, c.(expire := None)), cmds + Expiry(c, key))
  {
    var s := State(e + suffix, ProcessingValue(t), c.db, c.expire, key);
    VerbsAreLiteral();
    ValueStepFrom(floats, s, t, cmds, suffix);
  }

  /** A key and a value in the middle of a file. */
  lemma KeyValueRun(floats: Floats, key: Str, t: byte, k: seq<byte>, e: seq<byte>, cmds: seq<RawCommand>, suffix: seq<byte>, c: Context)
    requires ValidStr(key) && k == EncodeStr(key) && Reads(floats, c.db, Meaning(key), t, e, cmds)
    requires AfterOpcode(t) == ProcessingKey(t)
    ensures Run(floats, AtItem([t] + (k + (e + suffix)), c))
         == Prepend(cmds + Expiry(c, Meaning(key)), Run(floats, AtItem(suffix, c.(expire := None))))
  {
    var s0 := AtItem([t] + (k + (e + suffix)), c);
    var s1 := State(k + (e + suffix), ProcessingKey(t), c.db, c.expire, []);
    var s2 := State(e + suffix, ProcessingValue(t), c.db, c.expire, Meaning(key));
    OpcodeStep(floats, t, k + (e + suffix), c);
    KeyStep(floats, t, key, e + suffix, c);
    ValueStep(floats, t, e, cmds, Meaning(key), suffix, c);
    ThreeSteps(floats, s0, s1, s2, AtItem(suffix, c.(expire := None)), cmds + Expiry(c, Meaning(key)));
  }

  lemma KeyValueItem(floats: Floats, item: Item, suffix: seq<byte>, c: Context)
    requires item.KeyValue? && ValidItem(item)
    ensures Run(floats, AtItem(EncodeItem(item) + suffix, c))
         == Prepend(ItemCommands(floats, c, item), Run(floats, AtItem(suffix, ItemContext(c, item))))
  {
    var k, e := EncodeStr(item.key), EncodeValue(item.value);
    var t, cmds := TypeOctet(item.value), ValueCommands(floats, c.db, Meaning(item.key), item.value);
    Associate([t], k + e, suffix);
    Associate(k, e, suffix);
    ValueReads(floats, c.db, Meaning(item.key), item.value);
    KeyValueRun(floats, item.key, t, k, e, cmds, suffix, c);
  }

  lemma ItemRoundTrip(floats: Floats, item: Item, suffix: seq<byte>, c: Context)
    requires ValidItem(item)
    ensures Run(floats, AtItem(EncodeItem(item) + suffix, c))
         == Prepend(ItemCommands(floats, c, item), Run(floats, AtItem(suffix, ItemContext(c, item))))
  {
    PrependNothing(Run(floats, AtItem(suffix, ItemContext(c, item))));
    match item
    case Aux(_, _) => AuxItem(floats, item, suffix, c);
    case ResizeDb(_, _, _, _) => ResizeDbItem(floats, item, suffix, c);
    case KeyValue(_, _) => KeyValueItem(floats, item, suffix, c);
    case _ => ContextItem(floats, item, suffix, c);
  }

  lemma {:induction false} ItemsRoundTrip(floats: Floats, items: seq<Item>, suffix: seq<byte>, c: Context)
    requires ValidItems(items)
    ensures Run(floats, AtItem(EncodeItems(items) + suffix, c))
         == Prepend(ItemsCommands(floats, c, items), Run(floats, AtItem(suffix, ItemsContext(c, items))))
    decreases |items|
  {
    if items == [] {
      NothingBefore(suffix);
      PrependNothing(Run(floats, AtItem(suffix, c)));
    } else {
      var h, t := EncodeItem(items[0]), EncodeItems(items[1..]);
      var c' := ItemContext(c, items[0]);
      Associate(h, t, suffix);
      ItemRoundTrip(floats, items[0], t + suffix, c);
      ItemsRoundTrip(floats, items[1..], suffix, c');
      PrependPrepend(ItemCommands(floats, c, items[0]), ItemsCommands(floats, c', items[1..]),
                     Run(floats, AtItem(suffix, ItemsContext(c', items[1..]))));
    }
  }

  // ----- Files -----

  ghost function EncodeFile(head: seq<byte>, items: seq<Item>, checksum: seq<byte>): seq<byte>
    requires ValidItems(items)
  {
    head + (EncodeItems(items) + ([255] + checksum))
  }

  lemma EndOfFile(floats: Floats, checksum: seq<byte>, c: Context)
    requires |checksum| == 8
    ensures Run(floats, AtItem([255] + checksum, c)) == Fed(State([], Finished, c.db, c.expire, []), [])
  {
    var s1 := State(checksum, WaitingChecksum, c.db, c.expire, []);
    var s2 := State([], Finished, c.db, c.expire, []);
    OpcodeStep(floats, 255, checksum, c);
    assert checksum[8..] == [];
    assert Step(floats, s1) == Progress(s2, []);
    TwoSteps(floats, AtItem([255] + checksum, c), s1, s2, []);
    assert Run(floats, s2) == Fed(s2, []);
  }

  /** The result of parsing a whole file. */
  ghost function FileResult(floats: Floats, items: seq<Item>): FeedResult
    requires ValidItems(items)
  {
    var c := ItemsContext(Context(0, None), items);
    Fed(State([], Finished, c.db, c.expire, []), ItemsCommands(floats, Context(0, None), items))
  }

  lemma HeadStep(floats: Floats, head: seq<byte>, body: seq<byte>)
    requires |head| == 9 && ValidMagic(head)
    ensures Step(floats, Extend(INITIAL, head + body)) == Progress(AtItem(body, Context(0, None)), [])
  {
    NothingBefore(head + body);
    MagicExactly(head);
    assert (head + body)[..9] == head && (head + body)[9..] == body;
  }

  /** A whole file, fed at once: exactly the commands that its items mean, and nothing left over. */
  lemma FileRoundTrip(floats: Floats, head: seq<byte>, items: seq<Item>, checksum: seq<byte>)
    requires |head| == 9 && ValidMagic(head) && |checksum| == 8 && ValidItems(items)
    ensures Feed(floats, INITIAL, EncodeFile(head, items, checksum)) == FileResult(floats, items)
  {
    var c0, end := Context(0, None), [255] + checksum;
    var body := EncodeItems(items) + end;
    HeadStep(floats, head, body);
    PrependNothing(Run(floats, AtItem(body, c0)));
    ItemsRoundTrip(floats, items, end, c0);
    EndOfFile(floats, checksum, ItemsContext(c0, items));
    assert ItemsCommands(floats, c0, items) + [] == ItemsCommands(floats, c0, items);
  }

  /** However the file is cut into non-empty chunks, the parser gives its meaning. */
  lemma ChunkedFileRoundTrip(floats: Floats, head: seq<byte>, items: seq<Item>, checksum: seq<byte>, chunks: seq<seq<byte>>)
    requires |head| == 9 && ValidMagic(head) && |checksum| == 8 && ValidItems(items)
    requires Concat(chunks) == EncodeFile(head, items, checksum)
    requires forall i :: 0 <= i < |chunks| ==> chunks[i] != []
    ensures FeedAll(floats, INITIAL, chunks) == FileResult(floats, items)
  {
    FileRoundTrip(floats, head, items, checksum);
    TightNotEarly(floats, INITIAL, chunks);
    ChunkIndependence(floats, INITIAL, chunks);
  }

  /** "REDIS0011" */
  const HEAD: seq<byte> := Octets("REDIS0011")

  lemma HeadAccepted()
    ensures |HEAD| == 9 && ValidMagic(HEAD)
  {
    var digits: seq<byte> := [48, 48, 49, 49];
    assert HEAD[..5] == Octets("REDIS") && HEAD[5..] == digits;
    assert digits[1..] == [48, 49, 49] && digits[1..][1..] == [49, 49] && digits[1..][1..][1..] == [49] && [49][1..] == [];
    assert TenToThe(1) == 10;
    assert PlaceValues([49]) == 1 && PlaceValues([49, 49]) == 11;
    assert Denotes(HEAD[5..], 11) && Shows(HEAD[5..], 11);
  }

  /** An empty chunk after a whole file is rejected, though file and chunk together are accepted. */
  lemma EmptyChunkRejected(floats: Floats, head: seq<byte>, items: seq<Item>, checksum: seq<byte>)
    requires |head| == 9 && ValidMagic(head) && |checksum| == 8 && ValidItems(items)
    ensures var file := EncodeFile(head, items, checksum);
      && FinishedEarly(floats, INITIAL, [file, []])
      && FeedAll(floats, INITIAL, [file, []]) == Rejected(AlreadyFinished)
      && Feed(floats, INITIAL, Concat([file, []])).Fed?
  {
    var file := EncodeFile(head, items, checksum);
    FileRoundTrip(floats, head, items, checksum);
    var s1 := Feed(floats, INITIAL, file).state;
    assert [file, []][1..] == [[]];
    assert FinishedEarly(floats, s1, [[]]);
    FeedAllPrefix(floats, INITIAL, [file, []]);
    EarlyFinishSucceeds(floats, INITIAL, [file, []]);
  }

  /** The shortest such input: a file without items. */
  lemma ShortestEarlyFinish(floats: Floats)
    ensures FinishedEarly(floats, INITIAL, [EncodeFile(HEAD, [], ToLittleEndian(0, 8)), []])
  {
    HeadAccepted();
    EmptyChunkRejected(floats, HEAD, [], ToLittleEndian(0, 8));
  }
}
