/**
 Values as the loader sees them: a type octet with one string, or with a count and elements made of
 parts.  `RdbSnapshot` says which values these are.
 */
module RdbWire {
  import opened Bytes
  import opened Decimal
  import opened RdbString
  import opened RdbListpack
  import opened RdbValue
  import opened RdbEncoding

  /** The container octet of a list node that is a listpack. */
  const PACKED := 2

  /** A part of an element; `PackPart` is a string that holds a listpack. */
  datatype PartValue =
    | TextPart(s: Str)
    | PackPart(s: Str, total: seq<byte>, es: seq<Entry>)
    | OctetPart(b: byte)
    | EightPart(raw: seq<byte>)

  /** What a value in one string contains. */
  datatype Contents = Scalar | Ints(width: nat, members: seq<int>) | Entries(total: seq<byte>, es: seq<Entry>)

  datatype Wire =
    | Single(valueType: byte, s: Str, contents: Contents)
    | Counted(valueType: byte, form: LengthForm, elements: seq<seq<PartValue>>)

  /** A string, in any of its encodings, that holds this listpack. */
  ghost predicate HoldsListpack(s: Str, total: seq<byte>, es: seq<Entry>) {
    ValidStr(s) && ValidListpack(total, es) && Meaning(s) == EncodeListpack(total, es)
  }

  ghost predicate ValidPart(part: Part, v: PartValue) {
    match part
    case Text => (v.TextPart? || v.PackPart?) && ValidStr(v.s)
    case Octet => v.OctetPart?
    case Eight => v.EightPart? && |v.raw| == 8
  }

  ghost predicate ValidParts(shape: seq<Part>, vs: seq<PartValue>) {
    |vs| == |shape| && forall i :: 0 <= i < |vs| ==> ValidPart(shape[i], vs[i])
  }

  ghost function EncodePart(part: Part, v: PartValue): seq<byte>
    requires ValidPart(part, v)
  {
    match v
    case TextPart(s) => EncodeStr(s)
    case PackPart(s, _, _) => EncodeStr(s)
    case OctetPart(b) => [b]
    case EightPart(raw) => raw
  }

  function PartMeaning(v: PartValue): seq<byte> {
    match v
    case TextPart(s) => Meaning(s)
    case PackPart(s, _, _) => Meaning(s)
    case OctetPart(b) => [b]
    case EightPart(raw) => raw
  }

  ghost function EncodeParts(shape: seq<Part>, vs: seq<PartValue>): seq<byte>
    requires ValidParts(shape, vs)
  {
    if vs == [] then [] else EncodePart(shape[0], vs[0]) + EncodeParts(shape[1..], vs[1..])
  }

  function PartsMeaning(vs: seq<PartValue>): (r: seq<seq<byte>>)
    ensures |r| == |vs|
  {
    if vs == [] then [] else [PartMeaning(vs[0])] + PartsMeaning(vs[1..])
  }

  /** An element of a counted value; the nodes of a list are packed. */
  ghost predicate ValidElement(valueType: byte, vs: seq<PartValue>) {
    && Shape(valueType).Some? && ValidParts(Shape(valueType).value, vs)
    && (valueType == TYPE_LIST_QUICKLIST_2 ==>
          vs[0] == OctetPart(PACKED) && vs[1].PackPart? && HoldsListpack(vs[1].s, vs[1].total, vs[1].es))
  }

  ghost predicate ValidElements(valueType: byte, elements: seq<seq<PartValue>>) {
    forall i :: 0 <= i < |elements| ==> ValidElement(valueType, elements[i])
  }

  /** What an element means: score and member, the entries of a list node, or field and value. */
  ghost function ElementMeaning(floats: Floats, valueType: byte, vs: seq<PartValue>): seq<seq<byte>>
    requires ValidElement(valueType, vs)
  {
    if valueType == TYPE_ZSET_2 then [floats.ofOctets(vs[1].raw), Meaning(vs[0].s)]
    else if valueType == TYPE_LIST_QUICKLIST_2 then EntryTexts(vs[1].es)
    else [Meaning(vs[0].s), Meaning(vs[1].s)]
  }

  ghost predicate AllParts(shape: seq<Part>, elements: seq<seq<PartValue>>) {
    forall i :: 0 <= i < |elements| ==> ValidParts(shape, elements[i])
  }

  ghost function EncodeElements(shape: seq<Part>, elements: seq<seq<PartValue>>): seq<byte>
    requires AllParts(shape, elements)
  {
    if elements == [] then []
    else EncodeParts(shape, elements[0]) + EncodeElements(shape, elements[1..])
  }

  ghost function ElementsMeaning(floats: Floats, valueType: byte, elements: seq<seq<PartValue>>): seq<seq<byte>>
    requires ValidElements(valueType, elements)
  {
    if elements == [] then []
    else ElementMeaning(floats, valueType, elements[0]) + ElementsMeaning(floats, valueType, elements[1..])
  }

  /** The string holds what the contents say; fields and scores come in pairs. */
  ghost predicate ValidContents(valueType: byte, s: Str, c: Contents) {
    match c
    case Scalar => valueType == TYPE_STRING && ValidStr(s)
    case Ints(width, members) =>
      valueType == TYPE_SET_INTSET && ValidStr(s) && ValidIntset(width, members) && Meaning(s) == EncodeIntset(width, members)
    case Entries(total, es) =>
      && valueType in {TYPE_SET_LISTPACK, TYPE_HASH_LISTPACK, TYPE_ZSET_LISTPACK} && HoldsListpack(s, total, es)
      && (valueType != TYPE_SET_LISTPACK ==> |es| % 2 == 0)
  }

  ghost predicate ValidWire(v: Wire) {
    match v
    case Single(valueType, s, contents) => ValidContents(valueType, s, contents)
    case Counted(valueType, form, elements) =>
      && Shape(valueType).Some? && Fits(form, |elements|)
      && ValidElements(valueType, elements) && AllParts(Shape(valueType).value, elements)
  }

  ghost function EncodeWire(v: Wire): seq<byte>
    requires ValidWire(v)
  {
    match v
    case Single(_, s, _) => EncodeStr(s)
    case Counted(valueType, form, elements) =>
      EncodeLength(form, |elements|) + EncodeElements(Shape(valueType).value, elements)
  }

  /** The command that builds a value of each type. */
  function Verb(valueType: byte): seq<byte> {
    if valueType == TYPE_STRING then SET
    else if valueType in {TYPE_ZSET_2, TYPE_ZSET_LISTPACK} then ZADD
    else if valueType in {TYPE_HASH, TYPE_HASH_2, TYPE_HASH_LISTPACK} then HSET
    else if valueType in {TYPE_SET_INTSET, TYPE_SET_LISTPACK} then SADD
    else RPUSH
  }

  /** The texts of integers, in order. */
  function IntTexts(vs: seq<int>): (r: seq<seq<byte>>)
    ensures |r| == |vs| && forall i :: 0 <= i < |vs| ==> r[i] == IntText(vs[i])
  {
    seq(|vs|, i requires 0 <= i < |vs| => IntText(vs[i]))
  }

  /** Members and scores with each pair turned round. */
  function ScoresFirst(floats: Floats, texts: seq<seq<byte>>): (r: seq<seq<byte>>)
    requires |texts| % 2 == 0
    ensures |r| == |texts|
    ensures forall i :: 0 <= i < |texts| ==> r[i] == if i % 2 == 0 then floats.ofText(texts[i + 1]) else texts[i - 1]
  {
    seq(|texts|, i requires 0 <= i < |texts| => if i % 2 == 0 then floats.ofText(texts[i + 1]) else texts[i - 1])
  }

  /** What a value contains, as arguments of its command. */
  ghost function WireArgs(floats: Floats, v: Wire): seq<seq<byte>>
    requires ValidWire(v)
  {
    match v
    case Counted(valueType, _, elements) => ElementsMeaning(floats, valueType, elements)
    case Single(valueType, s, contents) =>
      match contents
      case Scalar => [Meaning(s)]
      case Ints(_, members) => IntTexts(members)
      case Entries(_, es) =>
        EntryTextsLength(es);
        if valueType == TYPE_ZSET_LISTPACK then ScoresFirst(floats, EntryTexts(es)) else EntryTexts(es)
  }

  /** The commands that recreate the value; an empty list or type-22 hash needs none. */
  ghost function WireCommands(floats: Floats, db: nat, key: seq<byte>, v: Wire): seq<RawCommand>
    requires ValidWire(v)
  {
    var args := WireArgs(floats, v);
    if args == [] && v.valueType in {TYPE_LIST_QUICKLIST_2, TYPE_HASH_2} then []
    else [RawCommand(db, Verb(v.valueType), [key] + args)]
  }

  // ----- The parser reads values back -----

  /** A string end is found the same way at any offset. */
  lemma StringEndShift(pre: seq<byte>, buf: seq<byte>)
    ensures StringEnd(pre + buf, |pre|) == match StringEnd(buf, 0)
      case Ready(e) => Ready(|pre| + e)
      case NeedMore => NeedMore
      case Broken(e) => Broken(e)
  {
    var whole := pre + buf;
    if buf != [] {
      assert whole[|pre|] == buf[0];
      LengthAtShift(pre, buf, 0);
      LengthAtShift(pre, buf, 1);
      if PeekLengthAt(buf, 1).Ready? {
        LengthAtShift(pre, buf, 1 + PeekLengthAt(buf, 1).value.octets);
      }
    }
  }

  lemma LengthAtShift(pre: seq<byte>, buf: seq<byte>, offset: nat)
    ensures PeekLengthAt(pre + buf, |pre| + offset) == PeekLengthAt(buf, offset)
  {
    if offset < |buf| {
      assert (pre + buf)[|pre| + offset..] == buf[offset..];
    }
  }

  lemma PartLoads(part: Part, v: PartValue, suffix: seq<byte>)
    requires ValidPart(part, v)
    ensures LoadPart(EncodePart(part, v) + suffix, part) == Loaded(PartMeaning(v), suffix)
  {
    var e := EncodePart(part, v);
    assert (e + suffix)[..|e|] == e && (e + suffix)[|e|..] == suffix;
    if part == Text {
      StringLoads(v.s, suffix);
    }
  }

  lemma StrEnds(str: Str, pre: seq<byte>, suffix: seq<byte>)
    requires ValidStr(str)
    ensures StringEnd(pre + (EncodeStr(str) + suffix), |pre|) == Ready(|pre| + |EncodeStr(str)|)
  {
    StringEnds(str, suffix);
    StringEndAfter(pre, EncodeStr(str), suffix);
  }

  lemma StringEndAfter(pre: seq<byte>, e: seq<byte>, suffix: seq<byte>)
    requires StringEnd(e + suffix, 0) == Ready(|e|)
    ensures StringEnd(pre + (e + suffix), |pre|) == Ready(|pre| + |e|)
  {
    StringEndShift(pre, e + suffix);
  }

  lemma PartEnds(part: Part, v: PartValue, e: seq<byte>, pre: seq<byte>, suffix: seq<byte>)
    requires ValidPart(part, v) && e == EncodePart(part, v)
    ensures PartEnd(pre + (e + suffix), |pre|, part) == Ready(|pre| + |e|)
  {
    if part == Text {
      StrEnds(v.s, pre, suffix);
    }
  }

  lemma PartsEndCons(buf: seq<byte>, offset: nat, parts: seq<Part>, mid: nat)
    requires parts != [] && PartEnd(buf, offset, parts[0]) == Ready(mid)
    ensures PartsEnd(buf, offset, parts) == PartsEnd(buf, mid, parts[1..])
  {
  }

  lemma LoadPartsCons(buf: seq<byte>, parts: seq<Part>, v: seq<byte>, rest: seq<byte>, vs: seq<seq<byte>>, suffix: seq<byte>)
    requires parts != [] && LoadPart(buf, parts[0]) == Loaded(v, rest) && LoadParts(rest, parts[1..]) == Loaded(vs, suffix)
    ensures LoadParts(buf, parts) == Loaded([v] + vs, suffix)
  {
  }

  lemma {:induction false} PartsLoad(shape: seq<Part>, vs: seq<PartValue>, suffix: seq<byte>)
    requires ValidParts(shape, vs)
    ensures LoadParts(EncodeParts(shape, vs) + suffix, shape) == Loaded(PartsMeaning(vs), suffix)
    decreases |vs|
  {
    if vs == [] {
      NothingBefore(suffix);
      assert LoadParts(suffix, shape) == Loaded([], suffix);
    } else {
      var h, t := EncodePart(shape[0], vs[0]), EncodeParts(shape[1..], vs[1..]);
      PartLoads(shape[0], vs[0], t + suffix);
      PartsLoad(shape[1..], vs[1..], suffix);
      LoadPartsCons(h + (t + suffix), shape, PartMeaning(vs[0]), t + suffix, PartsMeaning(vs[1..]), suffix);
      Associate(h, t, suffix);
    }
  }

  lemma Associate(a: seq<byte>, b: seq<byte>, c: seq<byte>)
    ensures a + b + c == a + (b + c)
  {
  }

  lemma NothingBefore(s: seq<byte>)
    ensures [] + s == s
  {
  }

  lemma {:induction false} PartsEnds(shape: seq<Part>, vs: seq<PartValue>, e: seq<byte>, pre: seq<byte>, suffix: seq<byte>)
    requires ValidParts(shape, vs) && e == EncodeParts(shape, vs)
    ensures PartsEnd(pre + (e + suffix), |pre|, shape) == Ready(|pre| + |e|)
    decreases |vs|
  {
    if vs != [] {
      PartsTail(shape, vs);
      var h, t := EncodePart(shape[0], vs[0]), EncodeParts(shape[1..], vs[1..]);
      PartsEnds(shape[1..], vs[1..], t, pre + h, suffix);
      PartsEndStep(shape[0], shape[1..], vs[0], pre, h, t, suffix);
      assert shape == [shape[0]] + shape[1..];
    }
  }

  lemma PartsEndStep(part: Part, parts: seq<Part>, v: PartValue, pre: seq<byte>, h: seq<byte>, t: seq<byte>, suffix: seq<byte>)
    requires ValidPart(part, v) && h == EncodePart(part, v)
    requires PartsEnd(pre + h + (t + suffix), |pre + h|, parts) == Ready(|pre + h| + |t|)
    ensures PartsEnd(pre + (h + t + suffix), |pre|, [part] + parts) == Ready(|pre| + |h + t|)
  {
    PartEnds(part, v, h, pre, t + suffix);
    PartsEndJoin(part, parts, pre, h, t, suffix);
  }

  lemma PartsTail(shape: seq<Part>, vs: seq<PartValue>)
    requires ValidParts(shape, vs) && vs != []
    ensures ValidPart(shape[0], vs[0]) && ValidParts(shape[1..], vs[1..])
    ensures EncodeParts(shape, vs) == EncodePart(shape[0], vs[0]) + EncodeParts(shape[1..], vs[1..])
  {
  }

  lemma PartsEndJoin(part: Part, parts: seq<Part>, pre: seq<byte>, h: seq<byte>, t: seq<byte>, suffix: seq<byte>)
    requires PartEnd(pre + (h + (t + suffix)), |pre|, part) == Ready(|pre| + |h|)
    requires PartsEnd(pre + h + (t + suffix), |pre + h|, parts) == Ready(|pre + h| + |t|)
    ensures PartsEnd(pre + (h + t + suffix), |pre|, [part] + parts) == Ready(|pre| + |h + t|)
  {
    Regroup(pre, h, t, suffix);
    assert ([part] + parts)[1..] == parts;
    PartsEndCons(pre + (h + (t + suffix)), |pre|, [part] + parts, |pre| + |h|);
  }

  lemma Regroup(pre: seq<byte>, h: seq<byte>, t: seq<byte>, suffix: seq<byte>)
    ensures pre + ((h + t) + suffix) == pre + h + (t + suffix)
    ensures pre + ((h + t) + suffix) == pre + (h + (t + suffix))
  {
  }

  lemma TwoParts(shape: seq<Part>, vs: seq<PartValue>)
    requires |vs| == 2 && ValidParts(shape, vs)
    ensures EncodeParts(shape, vs) == EncodePart(shape[0], vs[0]) + EncodePart(shape[1], vs[1])
  {
    PartsTail(shape, vs);
    PartsTail(shape[1..], vs[1..]);
    assert EncodeParts(shape[1..][1..], vs[1..][1..]) == [];
  }

  lemma ThreeParts(shape: seq<Part>, vs: seq<PartValue>)
    requires |vs| == 3 && ValidParts(shape, vs)
    ensures EncodeParts(shape, vs) == EncodePart(shape[0], vs[0]) + EncodePart(shape[1], vs[1]) + EncodePart(shape[2], vs[2])
  {
    PartsTail(shape, vs);
    TwoParts(shape[1..], vs[1..]);
  }

  lemma ListpackArgs(s: Str, total: seq<byte>, es: seq<Entry>)
    requires HoldsListpack(s, total, es)
    ensures ParseListpack(Meaning(s)) == Loaded(EntryTexts(es), [0xFF])
  {
    ListpackRoundTrip(total, es);
  }

  /** The loader makes of the raw parts what the element means. */
  lemma ElementArgsMeaning(floats: Floats, valueType: byte, vs: seq<PartValue>)
    requires ValidElement(valueType, vs)
    ensures var r := ElementArgs(floats, valueType, PartsMeaning(vs));
      r.Loaded? && r.value == ElementMeaning(floats, valueType, vs)
  {
    PartsMeaningAt(vs, 0);
    PartsMeaningAt(vs, 1);
    assert ValidPart(Shape(valueType).value[0], vs[0]) && ValidPart(Shape(valueType).value[1], vs[1]);
    if valueType == TYPE_LIST_QUICKLIST_2 {
      ListpackArgs(vs[1].s, vs[1].total, vs[1].es);
    }
  }

  lemma {:induction false} PartsMeaningAt(vs: seq<PartValue>, i: nat)
    requires i < |vs|
    ensures PartsMeaning(vs)[i] == PartMeaning(vs[i])
    decreases |vs|
  {
    if i > 0 {
      PartsMeaningAt(vs[1..], i - 1);
    }
  }

  lemma ElementLoads(floats: Floats, valueType: byte, vs: seq<PartValue>, suffix: seq<byte>)
    requires ValidElement(valueType, vs)
    ensures ElementLoader(floats, valueType)(EncodeParts(Shape(valueType).value, vs) + suffix)
         == Loaded(ElementMeaning(floats, valueType, vs), suffix)
  {
    PartsLoad(Shape(valueType).value, vs, suffix);
    ElementArgsMeaning(floats, valueType, vs);
  }

  lemma LoadManyCons(load: seq<byte> -> Load<seq<seq<byte>>>, buf: seq<byte>, n: nat,
                     args: seq<seq<byte>>, rest: seq<byte>, more: seq<seq<byte>>, suffix: seq<byte>)
    requires load(buf) == Loaded(args, rest) && LoadMany(load, rest, n) == Loaded(more, suffix)
    ensures LoadMany(load, buf, n + 1) == Loaded(args + more, suffix)
  {
  }

  lemma {:induction false} ElementsLoad(floats: Floats, valueType: byte, shape: seq<Part>, elements: seq<seq<PartValue>>, suffix: seq<byte>)
    requires Shape(valueType) == Some(shape) && ValidElements(valueType, elements) && AllParts(shape, elements)
    ensures LoadMany(ElementLoader(floats, valueType), EncodeElements(shape, elements) + suffix, |elements|)
         == Loaded(ElementsMeaning(floats, valueType, elements), suffix)
    decreases |elements|
  {
    if elements == [] {
      NothingBefore(suffix);
    } else {
      var vs, rest := elements[0], elements[1..];
      var h, t := EncodeParts(shape, vs), EncodeElements(shape, rest);
      ElementLoads(floats, valueType, vs, t + suffix);
      ElementsLoad(floats, valueType, shape, rest, suffix);
      LoadManyCons(ElementLoader(floats, valueType), h + (t + suffix), |rest|,
                   ElementMeaning(floats, valueType, vs), t + suffix,
                   ElementsMeaning(floats, valueType, rest), suffix);
      Associate(h, t, suffix);
    }
  }

  lemma ElementsEndJoin(shape: seq<Part>, n: nat, pre: seq<byte>, h: seq<byte>, t: seq<byte>, suffix: seq<byte>)
    requires PartsEnd(pre + (h + (t + suffix)), |pre|, shape) == Ready(|pre| + |h|)
    requires ElementsEnd(pre + h + (t + suffix), |pre + h|, shape, n) == Ready(|pre + h| + |t|)
    ensures ElementsEnd(pre + (h + t + suffix), |pre|, shape, n + 1) == Ready(|pre| + |h + t|)
  {
    Regroup(pre, h, t, suffix);
  }

  lemma ElementsTail(shape: seq<Part>, elements: seq<seq<PartValue>>)
    requires AllParts(shape, elements) && elements != []
    ensures ValidParts(shape, elements[0]) && AllParts(shape, elements[1..])
    ensures EncodeElements(shape, elements) == EncodeParts(shape, elements[0]) + EncodeElements(shape, elements[1..])
  {
  }

  lemma {:induction false} ElementsEnds(shape: seq<Part>, elements: seq<seq<PartValue>>, e: seq<byte>, pre: seq<byte>, suffix: seq<byte>)
    requires AllParts(shape, elements) && e == EncodeElements(shape, elements)
    ensures ElementsEnd(pre + (e + suffix), |pre|, shape, |elements|) == Ready(|pre| + |e|)
    decreases |elements|
  {
    if elements != [] {
      ElementsTail(shape, elements);
      var h, t := EncodeParts(shape, elements[0]), EncodeElements(shape, elements[1..]);
      PartsEnds(shape, elements[0], h, pre, t + suffix);
      ElementsEnds(shape, elements[1..], t, pre + h, suffix);
      ElementsEndJoin(shape, |elements| - 1, pre, h, t, suffix);
    }
  }

  lemma CountedEnds(len: seq<byte>, n: nat, body: seq<byte>, valueType: byte, shape: seq<Part>, end: nat)
    requires Shape(valueType) == Some(shape) && !IsSingleString(valueType)
    requires PeekLength(len + body) == Ready(Length(n, |len|)) && ElementsEnd(len + body, |len|, shape, n) == Ready(end)
    ensures ValueEnd(len + body, valueType) == Ready(end)
  {
  }

  lemma CountedLoads(floats: Floats, db: nat, valueType: byte, key: seq<byte>, len: seq<byte>, n: nat, body: seq<byte>,
                     args: seq<seq<byte>>, suffix: seq<byte>)
    requires Shape(valueType).Some? && PeekLength(len + body) == Ready(Length(n, |len|))
    requires LoadMany(ElementLoader(floats, valueType), body, n) == Loaded(args, suffix)
    ensures LoadCounted(floats, db, valueType, key, len + body) == Loaded(CountedCommands(db, valueType, key, args), suffix)
  {
    assert (len + body)[|len|..] == body;
  }

  lemma LengthPeeks(form: LengthForm, n: nat, len: seq<byte>, suffix: seq<byte>)
    requires Fits(form, n) && len == EncodeLength(form, n)
    ensures PeekLength(len + suffix) == Ready(Length(n, |len|))
  {
    LengthRoundTrip(form, n, suffix);
  }

  lemma CountedSizeParts(form: LengthForm, len: seq<byte>, valueType: byte, shape: seq<Part>, elements: seq<seq<PartValue>>,
                         e: seq<byte>, suffix: seq<byte>)
    requires Shape(valueType) == Some(shape) && !IsSingleString(valueType)
    requires Fits(form, |elements|) && len == EncodeLength(form, |elements|)
    requires AllParts(shape, elements) && e == EncodeElements(shape, elements)
    ensures ValueEnd(len + (e + suffix), valueType) == Ready(|len| + |e|)
  {
    LengthPeeks(form, |elements|, len, e + suffix);
    ElementsEnds(shape, elements, e, len, suffix);
    CountedEnds(len, |elements|, e + suffix, valueType, shape, |len| + |e|);
  }

  lemma CountedSize(v: Wire, suffix: seq<byte>)
    requires ValidWire(v) && v.Counted?
    ensures ValueEnd(EncodeWire(v) + suffix, v.valueType) == Ready(|EncodeWire(v)|)
  {
    var shape := Shape(v.valueType).value;
    var len, e := EncodeLength(v.form, |v.elements|), EncodeElements(shape, v.elements);
    CountedSizeParts(v.form, len, v.valueType, shape, v.elements, e, suffix);
    Associate(len, e, suffix);
  }

  lemma CountedVerb(db: nat, valueType: byte, key: seq<byte>, args: seq<seq<byte>>)
    requires Shape(valueType).Some?
    ensures CountedCommands(db, valueType, key, args)
      == if args == [] && valueType in {TYPE_LIST_QUICKLIST_2, TYPE_HASH_2} then []
         else [RawCommand(db, Verb(valueType), [key] + args)]
  {
  }

  lemma CountedRoundTrip(floats: Floats, db: nat, key: seq<byte>, v: Wire, suffix: seq<byte>)
    requires ValidWire(v) && v.Counted?
    ensures LoadCounted(floats, db, v.valueType, key, EncodeWire(v) + suffix)
         == Loaded(WireCommands(floats, db, key, v), suffix)
  {
    var shape := Shape(v.valueType).value;
    var len, e := EncodeLength(v.form, |v.elements|), EncodeElements(shape, v.elements);
    Associate(len, e, suffix);
    LengthRoundTrip(v.form, |v.elements|, e + suffix);
    ElementsLoad(floats, v.valueType, shape, v.elements, suffix);
    CountedLoads(floats, db, v.valueType, key, len, |v.elements|, e + suffix,
                 ElementsMeaning(floats, v.valueType, v.elements), suffix);
    CountedVerb(db, v.valueType, key, ElementsMeaning(floats, v.valueType, v.elements));
  }

  lemma {:induction false} ScorePairsTurned(floats: Floats, texts: seq<seq<byte>>)
    requires |texts| % 2 == 0
    ensures ScorePairs(floats, texts) == ScoresFirst(floats, texts)
    decreases |texts|
  {
    if texts != [] {
      ScorePairsTurned(floats, texts[2..]);
      var r, rest := ScoresFirst(floats, texts), ScoresFirst(floats, texts[2..]);
      forall i | 2 <= i < |texts|
        ensures r[i] == rest[i - 2]
      {
        assert (i - 2) % 2 == i % 2;
      }
      assert r == [floats.ofText(texts[1]), texts[0]] + rest;
    }
  }

  lemma IntsLoad(floats: Floats, db: nat, key: seq<byte>, v: Wire)
    requires ValidWire(v) && v.Single? && v.contents.Ints?
    ensures StringCommands(floats, db, v.valueType, key, Meaning(v.s)) == Loaded(WireCommands(floats, db, key, v), [])
  {
    var members := v.contents.members;
    IntsetRoundTrip(v.contents.width, members);
    assert IntTexts(members) == seq(|members|, i requires 0 <= i < |members| => IntText(members[i]));
  }

  lemma EntriesLoad(floats: Floats, db: nat, key: seq<byte>, v: Wire)
    requires ValidWire(v) && v.Single? && v.contents.Entries?
    ensures StringCommands(floats, db, v.valueType, key, Meaning(v.s)) == Loaded(WireCommands(floats, db, key, v), [])
  {
    var es := v.contents.es;
    ListpackArgs(v.s, v.contents.total, es);
    EntryTextsLength(es);
    if v.valueType == TYPE_ZSET_LISTPACK {
      ScorePairsTurned(floats, EntryTexts(es));
    }
  }

  /** The loader makes of the string what it contains. */
  lemma ContentsLoad(floats: Floats, db: nat, key: seq<byte>, v: Wire)
    requires ValidWire(v) && v.Single?
    ensures StringCommands(floats, db, v.valueType, key, Meaning(v.s)) == Loaded(WireCommands(floats, db, key, v), [])
  {
    match v.contents
    case Scalar => assert [key] + [Meaning(v.s)] == [key, Meaning(v.s)];
    case Ints(_, _) => IntsLoad(floats, db, key, v);
    case Entries(_, _) => EntriesLoad(floats, db, key, v);
  }

  lemma SingleLoads(floats: Floats, db: nat, valueType: byte, key: seq<byte>, buf: seq<byte>, text: seq<byte>, suffix: seq<byte>, cmds: seq<RawCommand>)
    requires IsSingleString(valueType) && LoadString(buf) == Loaded(text, suffix)
    requires StringCommands(floats, db, valueType, key, text) == Loaded(cmds, [])
    ensures LoadSingle(floats, db, valueType, key, buf) == Loaded(cmds, suffix)
  {
  }

  lemma SingleRoundTrip(floats: Floats, db: nat, key: seq<byte>, v: Wire, suffix: seq<byte>)
    requires ValidWire(v) && v.Single?
    ensures IsSingleString(v.valueType) && ValidStr(v.s)
    ensures ValueEnd(EncodeStr(v.s) + suffix, v.valueType) == Ready(|EncodeStr(v.s)|)
    ensures LoadSingle(floats, db, v.valueType, key, EncodeStr(v.s) + suffix) == Loaded(WireCommands(floats, db, key, v), suffix)
  {
    StringRoundTrip(v.s, suffix);
    ContentsLoad(floats, db, key, v);
    SingleLoads(floats, db, v.valueType, key, EncodeStr(v.s) + suffix, Meaning(v.s), suffix, WireCommands(floats, db, key, v));
  }

  /** The size calculation and the loader both read such a value back, under any suffix. */
  lemma WireRoundTrip(floats: Floats, db: nat, key: seq<byte>, v: Wire, suffix: seq<byte>)
    requires ValidWire(v)
    ensures ValueEnd(EncodeWire(v) + suffix, v.valueType) == Ready(|EncodeWire(v)|)
    ensures LoadValue(floats, db, v.valueType, key, EncodeWire(v) + suffix)
         == Loaded(WireCommands(floats, db, key, v), suffix)
  {
    match v
    case Single(_, _, _) =>
      SingleRoundTrip(floats, db, key, v, suffix);
    case Counted(_, _, _) =>
      CountedSize(v, suffix);
      CountedRoundTrip(floats, db, key, v, suffix);
  }
}
