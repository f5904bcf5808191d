/** Encodings of lengths, strings and listpack entries, and the proof that the parser undoes them. */
module RdbEncoding {
  import opened Bytes
  import opened Decimal
  import opened RdbString
  import opened RdbListpack
  import LzfFormat

  // ----- Fixed-width integers -----

  function ToBigEndian(n: nat, k: nat): (s: seq<byte>)
    ensures |s| == k
  {
    if k == 0 then [] else ToBigEndian(n / 256, k - 1) + [n % 256]
  }

  function ToLittleEndian(n: nat, k: nat): (s: seq<byte>)
    ensures |s| == k
  {
    if k == 0 then [] else [n % 256] + ToLittleEndian(n / 256, k - 1)
  }

  predicate IsSigned(v: int, k: nat) {
    var p: int := Pow256(k);
    -p <= 2 * v < p
  }

  /** Two's complement in `k` octets. */
  function ToSignedLE(v: int, k: nat): (s: seq<byte>)
    requires IsSigned(v, k)
    ensures |s| == k
  {
    ToLittleEndian(if v < 0 then v + Pow256(k) else v, k)
  }

  lemma {:induction false} BigEndianRoundTrip(n: nat, k: nat)
    requires n < Pow256(k)
    ensures BigEndian(ToBigEndian(n, k)) == n
  {
    if k > 0 {
      assert n / 256 < Pow256(k - 1);
      BigEndianRoundTrip(n / 256, k - 1);
      assert ToBigEndian(n, k)[..k - 1] == ToBigEndian(n / 256, k - 1);
    }
  }

  lemma {:induction false} LittleEndianRoundTrip(n: nat, k: nat)
    requires n < Pow256(k)
    ensures LittleEndian(ToLittleEndian(n, k)) == n
  {
    if k > 0 {
      assert n / 256 < Pow256(k - 1);
      LittleEndianRoundTrip(n / 256, k - 1);
      assert ToLittleEndian(n, k)[1..] == ToLittleEndian(n / 256, k - 1);
    }
  }

  lemma SignedRoundTrip(v: int, k: nat)
    requires IsSigned(v, k)
    ensures SignedLE(ToSignedLE(v, k)) == v
  {
    LittleEndianRoundTrip(if v < 0 then v + Pow256(k) else v, k);
  }

  // ----- Lengths -----

  /** The four forms of a length. */
  datatype LengthForm = Bits6 | Bits14 | Bits32 | Bits64

  predicate Fits(form: LengthForm, n: nat) {
    match form
    case Bits6 => n < 64
    case Bits14 => n < 16384
    case Bits32 => n < 0x1_0000_0000
    case Bits64 => n < 0x1_0000_0000_0000_0000
  }

  function EncodeLength(form: LengthForm, n: nat): (s: seq<byte>)
    requires Fits(form, n)
    ensures s != []
  {
    match form
    case Bits6 => [n]
    case Bits14 => [64 + n / 256, n % 256]
    case Bits32 => [0x80] + ToBigEndian(n, 4)
    case Bits64 => [0x81] + ToBigEndian(n, 8)
  }

  lemma Pow256Values()
    ensures Pow256(1) == 0x100 && Pow256(2) == 0x1_0000 && Pow256(3) == 0x100_0000
    ensures Pow256(4) == 0x1_0000_0000 && Pow256(8) == 0x1_0000_0000_0000_0000
  {
    assert Pow256(1) == 256 * Pow256(0);
    assert Pow256(2) == 256 * Pow256(1);
    assert Pow256(3) == 256 * Pow256(2);
    assert Pow256(4) == 256 * Pow256(3);
    assert Pow256(5) == 256 * Pow256(4);
    assert Pow256(6) == 256 * Pow256(5);
    assert Pow256(7) == 256 * Pow256(6);
  }

  /** Every length, in every form that fits it and under any suffix, decodes with the right octet count. */
  lemma LengthRoundTrip(form: LengthForm, n: nat, suffix: seq<byte>)
    requires Fits(form, n)
    ensures var enc := EncodeLength(form, n); PeekLength(enc + suffix) == Ready(Length(n, |enc|))
  {
    var buf := EncodeLength(form, n) + suffix;
    Pow256Values();
    match form
    case Bits6 =>
    case Bits14 => assert (64 + n / 256) / 64 == 1;
    case Bits32 =>
      assert buf[1..5] == ToBigEndian(n, 4);
      BigEndianRoundTrip(n, 4);
    case Bits64 =>
      assert buf[1..9] == ToBigEndian(n, 8);
      BigEndianRoundTrip(n, 8);
  }

  // ----- Strings -----

  /** A string as some writer chose to encode it. */
  datatype Str =
    | Plain(form: LengthForm, text: seq<byte>)
    | Integer(width: nat, v: int)
    | Packed(clenForm: LengthForm, ulenForm: LengthForm, packed: seq<byte>, data: seq<byte>)

  ghost predicate ValidStr(s: Str) {
    match s
    case Plain(form, text) => Fits(form, |text|)
    case Integer(width, v) => (width == 1 || width == 2 || width == 4) && IsSigned(v, width)
    case Packed(cf, uf, packed, data) =>
      && Fits(cf, |packed|) && Fits(uf, |data|)
      && data != [] && LzfFormat.Decode(packed, |data|) == LzfFormat.Decoded(data)
  }

  /** The string that is meant. */
  function Meaning(s: Str): seq<byte> {
    match s
    case Plain(_, text) => text
    case Integer(_, v) => IntText(v)
    case Packed(_, _, _, data) => data
  }

  ghost function EncodeStr(s: Str): (e: seq<byte>)
    requires ValidStr(s)
    ensures e != []
  {
    match s
    case Plain(form, text) => EncodeLength(form, |text|) + text
    case Integer(width, v) => [0xC0 + width / 2] + ToSignedLE(v, width)
    case Packed(cf, uf, packed, data) =>
      [0xC3] + EncodeLength(cf, |packed|) + EncodeLength(uf, |data|) + packed
  }

  lemma Layout(head: seq<byte>, a: seq<byte>, b: seq<byte>, c: seq<byte>, suffix: seq<byte>)
    ensures var buf := head + a + b + c + suffix;
      && buf[|head|..] == a + (b + c + suffix)
      && buf[|head| + |a|..] == b + (c + suffix)
      && buf[|head| + |a| + |b|..|head| + |a| + |b| + |c|] == c
      && buf[|head| + |a| + |b| + |c|..] == suffix
  {
  }

  lemma PackedEnds(buf: seq<byte>, clen: Length, ulen: Length)
    requires buf != [] && buf[0] == 0xC3
    requires PeekLengthAt(buf, 1) == Ready(clen) && PeekLengthAt(buf, 1 + clen.octets) == Ready(ulen)
    ensures StringEnd(buf, 0) == Ready(1 + clen.octets + ulen.octets + clen.value)
  {
  }

  lemma PackedLoads(buf: seq<byte>, span: Span, data: seq<byte>)
    requires buf != [] && buf[0] == 0xC3 && PackedSpan(buf) == Ready(span)
    requires data != [] && |data| == span.size
    requires LzfFormat.Decode(buf[span.start..span.end], span.size) == LzfFormat.Decoded(data)
    ensures LoadString(buf) == Loaded(data, buf[span.end..])
  {
    assert Unpack(buf[span.start..span.end], span.size) == Loaded(data, []);
  }

  lemma PackedParts(clen: seq<byte>, ulen: seq<byte>, packed: seq<byte>, data: seq<byte>, suffix: seq<byte>)
    requires PeekLength(clen + (ulen + packed + suffix)) == Ready(Length(|packed|, |clen|))
    requires PeekLength(ulen + (packed + suffix)) == Ready(Length(|data|, |ulen|))
    requires data != [] && LzfFormat.Decode(packed, |data|) == LzfFormat.Decoded(data)
    ensures var buf := [0xC3] + clen + ulen + packed + suffix;
      && StringEnd(buf, 0) == Ready(1 + |clen| + |ulen| + |packed|)
      && LoadString(buf) == Loaded(data, suffix)
  {
    var buf := [0xC3] + clen + ulen + packed + suffix;
    var start := 1 + |clen| + |ulen|;
    Layout([0xC3], clen, ulen, packed, suffix);
    PackedEnds(buf, Length(|packed|, |clen|), Length(|data|, |ulen|));
    PackedLoads(buf, Span(start, start + |packed|, |data|), data);
  }

  lemma PackedRoundTrip(s: Str, suffix: seq<byte>)
    requires ValidStr(s) && s.Packed?
    ensures StringEnd(EncodeStr(s) + suffix, 0) == Ready(|EncodeStr(s)|)
    ensures LoadString(EncodeStr(s) + suffix) == Loaded(s.data, suffix)
  {
    var clen, ulen := EncodeLength(s.clenForm, |s.packed|), EncodeLength(s.ulenForm, |s.data|);
    LengthRoundTrip(s.clenForm, |s.packed|, ulen + s.packed + suffix);
    LengthRoundTrip(s.ulenForm, |s.data|, s.packed + suffix);
    PackedParts(clen, ulen, s.packed, s.data, suffix);
  }

  lemma PlainLoads(buf: seq<byte>, len: Length)
    requires PeekLength(buf) == Ready(len) && len.octets + len.value <= |buf|
    ensures var end := len.octets + len.value;
      StringEnd(buf, 0) == Ready(end) && LoadString(buf) == Loaded(buf[len.octets..end], buf[end..])
  {
    assert buf[0..] == buf;
  }

  lemma PlainRoundTrip(s: Str, suffix: seq<byte>)
    requires ValidStr(s) && s.Plain?
    ensures StringEnd(EncodeStr(s) + suffix, 0) == Ready(|EncodeStr(s)|)
    ensures LoadString(EncodeStr(s) + suffix) == Loaded(s.text, suffix)
  {
    var len := EncodeLength(s.form, |s.text|);
    var buf := EncodeStr(s) + suffix;
    assert buf == len + (s.text + suffix);
    LengthRoundTrip(s.form, |s.text|, s.text + suffix);
    PlainLoads(buf, Length(|s.text|, |len|));
    assert buf[|len|..|len| + |s.text|] == s.text && buf[|len| + |s.text|..] == suffix;
  }

  lemma IntegerRoundTrip(s: Str, suffix: seq<byte>)
    requires ValidStr(s) && s.Integer?
    ensures StringEnd(EncodeStr(s) + suffix, 0) == Ready(|EncodeStr(s)|)
    ensures LoadString(EncodeStr(s) + suffix) == Loaded(IntText(s.v), suffix)
  {
    var buf := EncodeStr(s) + suffix;
    assert buf[1..1 + s.width] == ToSignedLE(s.v, s.width);
    assert buf[1 + s.width..] == suffix;
    SignedRoundTrip(s.v, s.width);
  }

  /** Both the peek and the load of an encoded string, under any suffix. */
  lemma StringRoundTrip(s: Str, suffix: seq<byte>)
    requires ValidStr(s)
    ensures StringEnd(EncodeStr(s) + suffix, 0) == Ready(|EncodeStr(s)|)
    ensures LoadString(EncodeStr(s) + suffix) == Loaded(Meaning(s), suffix)
  {
    match s
    case Plain(_, _) => PlainRoundTrip(s, suffix);
    case Integer(_, _) => IntegerRoundTrip(s, suffix);
    case Packed(_, _, _, _) => PackedRoundTrip(s, suffix);
  }

  lemma StringEnds(s: Str, suffix: seq<byte>)
    requires ValidStr(s)
    ensures StringEnd(EncodeStr(s) + suffix, 0) == Ready(|EncodeStr(s)|)
  {
    StringRoundTrip(s, suffix);
  }

  lemma StringLoads(s: Str, suffix: seq<byte>)
    requires ValidStr(s)
    ensures LoadString(EncodeStr(s) + suffix) == Loaded(Meaning(s), suffix)
  {
    StringRoundTrip(s, suffix);
  }

  // ----- Listpack entries -----

  /** A listpack entry in one of the forms that the parser accepts; `back` is its back length. */
  datatype Entry =
    | Small(n: nat, back: seq<byte>)
    | Int13(n: nat, back: seq<byte>)
    | IntN(width: nat, v: int, back: seq<byte>)
    | Str6(text: seq<byte>, back: seq<byte>)
    | Str12(text: seq<byte>, back: seq<byte>)
    | Str32(text: seq<byte>, back: seq<byte>)

  predicate ValidEntry(e: Entry) {
    match e
    case Small(n, back) => n < 128 && |back| == 1
    case Int13(n, back) => n < 4096 && |back| == 1
    case IntN(width, v, back) => width in {2, 3, 4, 8} && IsSigned(v, width) && |back| == 1
    case Str6(text, back) => |text| < 64 && |back| == 1
    case Str12(text, back) => |text| < 4096 && |back| == BacklenSize(2 + |text|)
    case Str32(text, back) => |text| < 0x1_0000_0000 && |back| == BacklenSize(5 + |text|)
  }

  function EntryHeader(e: Entry): (h: seq<byte>)
    requires ValidEntry(e)
    ensures h != [] && h[0] != 0xFF
  {
    match e
    case Small(n, _) => [n]
    case Int13(n, _) => [0xC0 + n / 256, n % 256]
    case IntN(width, v, _) => [if width == 8 then 0xF4 else 0xEF + width] + ToSignedLE(v, width)
    case Str6(text, _) => [0x80 + |text|]
    case Str12(text, _) => [0xE0 + |text| / 256, |text| % 256]
    case Str32(text, _) => [0xF0] + ToLittleEndian(|text|, 4)
  }

  function EntryText(e: Entry): seq<byte> {
    match e
    case Small(n, _) => NatText(n)
    case Int13(n, _) => NatText(n)
    case IntN(_, v, _) => IntText(v)
    case _ => e.text
  }

  function EncodeEntry(e: Entry): (s: seq<byte>)
    requires ValidEntry(e)
    ensures s != [] && s[0] != 0xFF
  {
    EntryHeader(e) + (if e.Str6? || e.Str12? || e.Str32? then e.text else []) + e.back
  }

  lemma StringEntry(header: seq<byte>, text: seq<byte>, back: seq<byte>, suffix: seq<byte>)
    ensures TakeString(header + text + back + suffix, |header|, |text|, |back|) == Loaded(text, suffix)
  {
    var buf := header + text + back + suffix;
    assert buf[|header|..|header| + |text|] == text;
    assert buf[|header| + |text| + |back|..] == suffix;
  }

  lemma IntEntry(enc: byte, v: int, width: nat, back: seq<byte>, suffix: seq<byte>)
    requires IsSigned(v, width) && |back| == 1
    ensures TakeInt([enc] + ToSignedLE(v, width) + [] + back + suffix, width) == Loaded(IntText(v), suffix)
  {
    var buf := [enc] + ToSignedLE(v, width) + [] + back + suffix;
    assert buf[1..1 + width] == ToSignedLE(v, width);
    assert buf[1 + width + 1..] == suffix;
    SignedRoundTrip(v, width);
  }

  lemma SmallIntEntry(e: Entry, suffix: seq<byte>)
    requires ValidEntry(e) && (e.Small? || e.Int13?)
    ensures ParseEntry(EncodeEntry(e) + suffix) == Loaded(EntryText(e), suffix)
  {
    var buf := EncodeEntry(e) + suffix;
    if e.Small? {
      assert buf[2..] == suffix;
    } else {
      assert buf[3..] == suffix;
      assert (0xC0 + e.n / 256) % 32 == e.n / 256;
    }
  }

  lemma ShortStringEntry(e: Entry, suffix: seq<byte>)
    requires ValidEntry(e) && (e.Str6? || e.Str12?)
    ensures ParseEntry(EncodeEntry(e) + suffix) == Loaded(EntryText(e), suffix)
  {
    StringEntry(EntryHeader(e), e.text, e.back, suffix);
    if e.Str6? {
      assert (0x80 + |e.text|) % 64 == |e.text|;
    } else {
      assert (0xE0 + |e.text| / 256) % 16 == |e.text| / 256;
    }
  }

  lemma LongStringEntry(e: Entry, suffix: seq<byte>)
    requires ValidEntry(e) && e.Str32?
    ensures ParseEntry(EncodeEntry(e) + suffix) == Loaded(EntryText(e), suffix)
  {
    StringEntry(EntryHeader(e), e.text, e.back, suffix);
    Layout([0xF0], ToLittleEndian(|e.text|, 4), e.text, e.back, suffix);
    var buf := EncodeEntry(e) + suffix;
    assert buf[1..5] == ToLittleEndian(|e.text|, 4);
    Pow256Values();
    LittleEndianRoundTrip(|e.text|, 4);
  }

  /** Every accepted entry parses to its text and leaves exactly what follows it. */
  lemma EntryRoundTrip(e: Entry, suffix: seq<byte>)
    requires ValidEntry(e)
    ensures ParseEntry(EncodeEntry(e) + suffix) == Loaded(EntryText(e), suffix)
  {
    if e.Small? || e.Int13? {
      SmallIntEntry(e, suffix);
    } else if e.IntN? {
      IntEntry(EntryHeader(e)[0], e.v, e.width, e.back, suffix);
    } else if e.Str32? {
      LongStringEntry(e, suffix);
    } else {
      ShortStringEntry(e, suffix);
    }
  }

  predicate AllValid(es: seq<Entry>) {
    forall e :: e in es ==> ValidEntry(e)
  }

  function EncodeEntries(es: seq<Entry>): seq<byte>
    requires AllValid(es)
  {
    if es == [] then [] else EncodeEntry(es[0]) + EncodeEntries(es[1..])
  }

  function EntryTexts(es: seq<Entry>): seq<seq<byte>> {
    if es == [] then [] else [EntryText(es[0])] + EntryTexts(es[1..])
  }

  lemma ParseEntriesStep(buf: seq<byte>, n: nat, text: seq<byte>, rest: seq<byte>, texts: seq<seq<byte>>, suffix: seq<byte>)
    requires buf != [] && buf[0] != 0xFF && ParseEntry(buf) == Loaded(text, rest)
    requires ParseEntries(rest, n) == Loaded(texts, suffix)
    ensures ParseEntries(buf, n + 1) == Loaded([text] + texts, suffix)
  {
  }

  lemma {:induction false} EntriesRoundTrip(es: seq<Entry>, suffix: seq<byte>)
    requires AllValid(es)
    ensures ParseEntries(EncodeEntries(es) + suffix, |es|) == Loaded(EntryTexts(es), suffix)
  {
    if es == [] {
      assert EncodeEntries(es) + suffix == suffix;
    } else {
      var h, t := EncodeEntry(es[0]), EncodeEntries(es[1..]);
      EntriesRoundTrip(es[1..], suffix);
      EntryRoundTrip(es[0], t + suffix);
      ParseEntriesJoin(h, t, suffix, |es| - 1, EntryText(es[0]), EntryTexts(es[1..]));
    }
  }

  lemma ParseEntriesJoin(h: seq<byte>, t: seq<byte>, suffix: seq<byte>, n: nat, text: seq<byte>, texts: seq<seq<byte>>)
    requires h != [] && h[0] != 0xFF && ParseEntry(h + (t + suffix)) == Loaded(text, t + suffix)
    requires ParseEntries(t + suffix, n) == Loaded(texts, suffix)
    ensures ParseEntries(h + t + suffix, n + 1) == Loaded([text] + texts, suffix)
  {
    var buf := h + (t + suffix);
    Associate3(h, t, suffix);
    assert buf[0] == h[0];
    ParseEntriesStep(buf, n, text, t + suffix, texts, suffix);
  }

  predicate ValidListpack(total: seq<byte>, es: seq<Entry>) {
    |total| == 4 && |es| < 65536 && forall e :: e in es ==> ValidEntry(e)
  }

  /** A listpack: total size (which the parser ignores), entry count, entries, end marker. */
  function EncodeListpack(total: seq<byte>, es: seq<Entry>): seq<byte>
    requires ValidListpack(total, es)
  {
    total + ToLittleEndian(|es|, 2) + (EncodeEntries(es) + [0xFF])
  }

  lemma ListpackLayout(total: seq<byte>, count: seq<byte>, body: seq<byte>)
    requires |total| == 4 && |count| == 2
    ensures ParseListpack(total + count + body) == ParseEntries(body, LittleEndian(count))
  {
    var data := total + count + body;
    assert data[4..6] == count && data[6..] == body;
  }

  /** A listpack of accepted entries parses to exactly its entries, in order. */
  lemma ListpackRoundTrip(total: seq<byte>, es: seq<Entry>)
    requires ValidListpack(total, es)
    ensures ParseListpack(EncodeListpack(total, es)) == Loaded(EntryTexts(es), [0xFF])
  {
    Pow256Values();
    LittleEndianRoundTrip(|es|, 2);
    ListpackLayout(total, ToLittleEndian(|es|, 2), EncodeEntries(es) + [0xFF]);
    EntriesRoundTrip(es, [0xFF]);
  }

  lemma {:induction false} EncodeEntriesAppend(a: seq<Entry>, b: seq<Entry>)
    requires AllValid(a) && AllValid(b)
    ensures EncodeEntries(a + b) == EncodeEntries(a) + EncodeEntries(b)
    decreases |a|
  {
    if a == [] {
      assert a + b == b;
    } else {
      assert (a + b)[1..] == a[1..] + b;
      EncodeEntriesAppend(a[1..], b);
    }
  }

  /** A listpack of any length; from 65535 entries on its count field says 0xFFFF, "unknown". */
  function EncodeAnyListpack(total: seq<byte>, es: seq<Entry>): seq<byte>
    requires |total| == 4 && AllValid(es)
  {
    total + ToLittleEndian(if |es| < 65535 then |es| else 65535, 2) + (EncodeEntries(es) + [0xFF])
  }

  lemma {:induction false} EntryTextsLength(es: seq<Entry>)
    ensures |EntryTexts(es)| == |es|
    decreases |es|
  {
    if es != [] {
      EntryTextsLength(es[1..]);
    }
  }

  /** Only as many entries as the count field says are read. */
  lemma FirstEntriesRead(total: seq<byte>, a: seq<Entry>, b: seq<Entry>)
    requires |total| == 4 && |a| < 65536 && AllValid(a) && AllValid(b)
    ensures var tail := EncodeEntries(b) + [0xFF];
      ParseListpack(total + ToLittleEndian(|a|, 2) + (EncodeEntries(a) + tail)) == Loaded(EntryTexts(a), tail)
  {
    var tail := EncodeEntries(b) + [0xFF];
    Pow256Values();
    LittleEndianRoundTrip(|a|, 2);
    ListpackLayout(total, ToLittleEndian(|a|, 2), EncodeEntries(a) + tail);
    EntriesRoundTrip(a, tail);
  }

  lemma Associate3(a: seq<byte>, b: seq<byte>, c: seq<byte>)
    ensures a + b + c == a + (b + c)
  {
  }

  lemma EncodeAnyParts(total: seq<byte>, a: seq<Entry>, b: seq<Entry>)
    requires |total| == 4 && AllValid(a + b)
    requires |a| == if |a + b| < 65535 then |a + b| else 65535
    requires AllValid(a) && AllValid(b)
    ensures EncodeAnyListpack(total, a + b) == total + ToLittleEndian(|a|, 2) + (EncodeEntries(a) + (EncodeEntries(b) + [0xFF]))
  {
    EncodeEntriesAppend(a, b);
    Associate3(EncodeEntries(a), EncodeEntries(b), [0xFF]);
  }

  lemma SplitAt(es: seq<Entry>, n: nat)
    requires n <= |es|
    ensures es == es[..n] + es[n..]
  {
  }

  lemma PrefixRead(total: seq<byte>, es: seq<Entry>, a: seq<Entry>, b: seq<Entry>)
    requires |total| == 4 && es == a + b && AllValid(es) && |a| == if |es| < 65535 then |es| else 65535
    ensures ParseListpack(EncodeAnyListpack(total, es)) == Loaded(EntryTexts(a), EncodeEntries(b) + [0xFF])
  {
    EncodeAnyParts(total, a, b);
    FirstEntriesRead(total, a, b);
  }

  /** The parser takes 0xFFFF for a count, so it reads all entries exactly if there are at most 65535. */
  lemma ListpackReadExactly(total: seq<byte>, es: seq<Entry>)
    requires |total| == 4 && AllValid(es)
    ensures ListpackTexts(EncodeAnyListpack(total, es)) == Some(EntryTexts(es)) <==> |es| <= 65535
    ensures |es| > 65535 ==> ListpackTexts(EncodeAnyListpack(total, es)) == Some(EntryTexts(es[..65535]))
  {
    var n := if |es| < 65535 then |es| else 65535;
    SplitAt(es, n);
    PrefixRead(total, es, es[..n], es[n..]);
    TextsOfPrefix(es, n);
  }

  /** The entries that the parser finds, if it finds no error. */
  function ListpackTexts(data: seq<byte>): Option<seq<seq<byte>>> {
    match ParseListpack(data)
    case Loaded(texts, _) => Some(texts)
    case Error(_) => None
  }

  lemma TextsOfPrefix(es: seq<Entry>, n: nat)
    requires n <= |es|
    ensures EntryTexts(es[..n]) == EntryTexts(es) <==> n == |es|
  {
    EntryTextsLength(es[..n]);
    EntryTextsLength(es);
    assert n == |es| ==> es[..n] == es;
  }

  // ----- Integer sets -----

  predicate ValidIntset(width: nat, members: seq<int>) {
    width in {2, 4, 8} && |members| < 0x1_0000_0000 && AllSigned(width, members)
  }

  predicate AllSigned(width: nat, members: seq<int>) {
    forall i :: 0 <= i < |members| ==> IsSigned(members[i], width)
  }

  function EncodeIntegers(width: nat, members: seq<int>): seq<byte>
    requires AllSigned(width, members)
  {
    if members == [] then [] else ToSignedLE(members[0], width) + EncodeIntegers(width, members[1..])
  }

  /** An integer set: width, count, then the members in two's complement. */
  function EncodeIntset(width: nat, members: seq<int>): seq<byte>
    requires ValidIntset(width, members)
  {
    ToLittleEndian(width, 4) + ToLittleEndian(|members|, 4) + EncodeIntegers(width, members)
  }

  lemma ParseIntegersStep(h: seq<byte>, t: seq<byte>, width: nat, n: nat, v: int, vs: seq<int>)
    requires width in {2, 4, 8} && |h| == width && SignedLE(h) == v && ParseIntegers(t, width, n) == Loaded(vs, [])
    ensures ParseIntegers(h + t, width, n + 1) == Loaded([v] + vs, [])
  {
    assert (h + t)[..width] == h && (h + t)[width..] == t;
  }

  lemma {:induction false} IntegersRoundTrip(width: nat, members: seq<int>)
    requires width in {2, 4, 8} && AllSigned(width, members)
    ensures ParseIntegers(EncodeIntegers(width, members), width, |members|) == Loaded(members, [])
    decreases |members|
  {
    if members != [] {
      IntegersRoundTrip(width, members[1..]);
      SignedRoundTrip(members[0], width);
      ParseIntegersStep(ToSignedLE(members[0], width), EncodeIntegers(width, members[1..]), width, |members| - 1,
                        members[0], members[1..]);
      assert [members[0]] + members[1..] == members;
    }
  }

  lemma IntsetLayout(width: seq<byte>, count: seq<byte>, body: seq<byte>)
    requires |width| == 4 && |count| == 4
    ensures ParseIntset(width + count + body) == ParseIntegers(body, LittleEndian(width), LittleEndian(count))
  {
    var data := width + count + body;
    assert data[..4] == width && data[4..8] == count && data[8..] == body;
  }

  /** An integer set of any width parses to exactly its members, in order. */
  lemma IntsetRoundTrip(width: nat, members: seq<int>)
    requires ValidIntset(width, members)
    ensures ParseIntset(EncodeIntset(width, members)) == Loaded(members, [])
  {
    Pow256Values();
    LittleEndianRoundTrip(width, 4);
    LittleEndianRoundTrip(|members|, 4);
    IntsetLayout(ToLittleEndian(width, 4), ToLittleEndian(|members|, 4), EncodeIntegers(width, members));
    IntegersRoundTrip(width, members);
  }

  // ----- Negative 13-bit integers -----

  /** The 13-bit form of an integer between -4096 and 4095, with its back length. */
  function Encode13(v: int): seq<byte>
    requires -4096 <= v < 4096
  {
    var u := if v < 0 then v + 8192 else v;
    [0xC0 + u / 256, u % 256, 2]
  }

  /**
   The parser reads the 13-bit form back exactly when the integer is not negative: the encoding
   octets 0xD0 to 0xDF of the negative ones are taken for a 16-bit string.
   */
  lemma Int13RoundTripExactly(v: int, suffix: seq<byte>)
    requires -4096 <= v < 4096
    ensures ParseEntry(Encode13(v) + suffix) == Loaded(IntText(v), suffix) <==> v >= 0
  {
    var buf := Encode13(v) + suffix;
    if v >= 0 {
      assert buf == EncodeEntry(Int13(v, [2])) + suffix;
      EntryRoundTrip(Int13(v, [2]), suffix);
    } else {
      var lo := (v + 8192) % 256;
      assert BigEndian(buf[1..3]) == lo * 256 + 2 by {
        assert buf[1..3] == [lo, 2];
        assert [lo, 2][..1] == [lo];
        assert BigEndian([lo]) == BigEndian([lo][..0]) * 256 + lo;
      }
      NatTextLength(-v);
      assert 0xD0 <= buf[0] < 0xE0;
      assert lo == 0 ==> -v >= 256;
      assert ParseEntry(buf).Loaded? ==> |ParseEntry(buf).value| == lo * 256 + 2;
    }
  }

  /** What it reads instead: a string as long as the second octet, as the high one, and the back length say. */
  lemma NegativeInt13Read(v: int, suffix: seq<byte>)
    requires -4096 <= v < 0
    ensures var len := (v + 8192) % 256 * 256 + 2;
      var whole := len + if len < 125 then 1 else if len < 16381 then 2 else 3;
      ParseEntry(Encode13(v) + suffix)
      == if |suffix| < whole then Error(ListpackEntryStringTooShort) else Loaded(suffix[..len], suffix[whole..])
  {
    var buf := Encode13(v) + suffix;
    var u := v + 8192;
    assert u / 256 >= 16;
    assert buf[1..3] == [u % 256, 2];
    TwoOctets(u % 256, 2);
    var len := u % 256 * 256 + 2;
    var back := BacklenSize(3 + len);
    assert |suffix| >= len + back ==> buf[3..3 + len] == suffix[..len] && buf[3 + len + back..] == suffix[len + back..];
  }

  /** For instance -1: the parser asks for a string of 65282 octets instead. */
  lemma NegativeInt13Fails()
    ensures ParseEntry(Encode13(-1)) == Error(ListpackEntryStringTooShort)
  {
    var buf := Encode13(-1);
    assert buf == [0xDF, 0xFF, 2];
    assert buf[1..3][..1] == [0xFF];
  }
}
