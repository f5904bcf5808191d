/**
 Lengths and strings of the RDB format.  Every value is met twice: first a peek works out where
 it ends without consuming anything, then a load consumes it.
 */
module RdbString {
  import opened Bytes
  import Decimal
  import LzfFormat

  /** Result of a peek: a value, a wish for more octets, or an error. */
  datatype Peek<+T> = Ready(value: T) | NeedMore | Broken(error: Fault)

  /** Result of a load: a value and the octets after it, a wish for more octets, or an error. */
  datatype Load<+T> = Loaded(value: T, rest: seq<byte>) | Short | Error(error: Fault)

  /** A decoded length and the number of octets of its encoding. */
  datatype Length = Length(value: nat, octets: nat)

  function BigEndian(s: seq<byte>): nat {
    if s == [] then 0 else BigEndian(s[..|s| - 1]) * 256 + s[|s| - 1]
  }

  function LittleEndian(s: seq<byte>): nat {
    if s == [] then 0 else s[0] + 256 * LittleEndian(s[1..])
  }

  function Pow256(k: nat): (p: nat)
    ensures p > 0
  {
    if k == 0 then 1 else 256 * Pow256(k - 1)
  }

  /** Two's complement reading of little-endian octets. */
  function SignedLE(s: seq<byte>): int {
    var u := LittleEndian(s);
    if 2 * u >= Pow256(|s|) then u - Pow256(|s|) else u
  }

  lemma TimesTogether(p: nat, n: nat)
    ensures 256 * (p * n) == (256 * p) * n
  {
  }

  /** The first octets count least: those after them count 256 times for each of them. */
  lemma {:induction false} LittleEndianAppend(s: seq<byte>, t: seq<byte>)
    ensures LittleEndian(s + t) == LittleEndian(s) + Pow256(|s|) * LittleEndian(t)
    decreases |s|
  {
    if s == [] {
      assert s + t == t;
    } else {
      assert (s + t)[1..] == s[1..] + t;
      LittleEndianAppend(s[1..], t);
      TimesTogether(Pow256(|s| - 1), LittleEndian(t));
    }
  }

  /** The last octet of a big-endian number counts least. */
  lemma BigEndianSnoc(s: seq<byte>, b: byte)
    ensures BigEndian(s + [b]) == BigEndian(s) * 0x100 + b
  {
    assert (s + [b])[..|s|] == s;
  }

  /** Two octets as numbers, in either order. */
  lemma TwoOctets(a: byte, b: byte)
    ensures LittleEndian([a, b]) == a + 0x100 * b && BigEndian([a, b]) == 0x100 * a + b
  {
    BigEndianSnoc([], a);
    BigEndianSnoc([a], b);
    assert [] + [a] == [a] && [a] + [b] == [a, b] && [a, b][1..] == [b] && [b][1..] == [];
    assert LittleEndian([b]) == b;
  }

  /** Four octets. */
  lemma FourOctets(a: byte, b: byte, c: byte, d: byte)
    ensures LittleEndian([a, b, c, d]) == a + 0x100 * b + 0x1_0000 * c + 0x100_0000 * d
    ensures BigEndian([a, b, c, d]) == 0x100_0000 * a + 0x1_0000 * b + 0x100 * c + d
  {
    TwoOctets(a, b);
    TwoOctets(c, d);
    LittleEndianAppend([a, b], [c, d]);
    assert Pow256(2) == 256 * Pow256(1) && Pow256(1) == 256 * Pow256(0);
    BigEndianSnoc([a, b], c);
    BigEndianSnoc([a, b, c], d);
    assert [a, b] + [c, d] == [a, b, c, d] && [a, b] + [c] == [a, b, c] && [a, b, c] + [d] == [a, b, c, d];
  }

  // ----- Lengths -----

  /** The length encoded at the start of `buf`. */
  function PeekLength(buf: seq<byte>): (r: Peek<Length>)
    ensures r.Ready? ==> 1 <= r.value.octets <= |buf|
  {
    if buf == [] then NeedMore
    else
      var first: int := buf[0];
      match first / 64
      case 0 => Ready(Length(first % 64, 1))
      case 1 =>
        if |buf| < 2 then NeedMore else Ready(Length(first % 64 * 256 + buf[1], 2))
      case 2 =>
        if first == 0x80 then
          if |buf| < 5 then NeedMore else Ready(Length(BigEndian(buf[1..5]), 5))
        else if first == 0x81 then
          if |buf| < 9 then NeedMore else Ready(Length(BigEndian(buf[1..9]), 9))
        else Broken(InvalidLengthEncoding)
      case _ => Broken(SpecialEncodingInLength)
  }

  /** Which first octets are no length. */
  lemma LengthRefused(buf: seq<byte>)
    requires buf != []
    ensures PeekLength(buf) == Broken(InvalidLengthEncoding) <==> 0x82 <= buf[0] < 0xC0
    ensures PeekLength(buf) == Broken(SpecialEncodingInLength) <==> 0xC0 <= buf[0]
  {
    var first: int := buf[0];
    assert first / 64 == if first < 64 then 0 else if first < 128 then 1 else if first < 192 then 2 else 3;
  }

  function PeekLengthAt(buf: seq<byte>, offset: nat): (r: Peek<Length>)
    ensures r.Ready? ==> 1 <= r.value.octets && offset + r.value.octets <= |buf|
  {
    if offset >= |buf| then NeedMore else PeekLength(buf[offset..])
  }

  function LoadLength(buf: seq<byte>): (r: Load<nat>)
    ensures r.Loaded? ==> |r.rest| < |buf|
  {
    match PeekLength(buf)
    case Ready(l) => Loaded(l.value, buf[l.octets..])
    case NeedMore => Short
    case Broken(e) => Error(e)
  }

  // ----- Strings -----

  /** Where the string at `offset` ends, possibly past the end of what is buffered. */
  function StringEnd(buf: seq<byte>, offset: nat): (r: Peek<nat>)
    ensures r.Ready? ==> offset < r.value && offset < |buf|
  {
    if offset >= |buf| then NeedMore
    else
      var first: int := buf[offset];
      if first / 64 == 3 then
        match first % 64
        case 0 => Ready(offset + 2)
        case 1 => Ready(offset + 3)
        case 2 => Ready(offset + 5)
        case 3 =>
          (match PeekLengthAt(buf, offset + 1)
           case NeedMore => NeedMore
           case Broken(e) => Broken(e)
           case Ready(clen) =>
             match PeekLengthAt(buf, offset + 1 + clen.octets)
             case NeedMore => NeedMore
             case Broken(e) => Broken(e)
             case Ready(ulen) => Ready(offset + 1 + clen.octets + ulen.octets + clen.value))
        case _ => NeedMore
      else
        match PeekLengthAt(buf, offset)
        case NeedMore => NeedMore
        case Broken(e) => Broken(e)
        case Ready(len) => Ready(offset + len.octets + len.value)
  }

  /** The Rust wrapper around the C decoder: the output must have exactly the announced size. */
  function Unpack(packed: seq<byte>, size: nat): Load<seq<byte>> {
    match LzfFormat.Decode(packed, size)
    case Failed(_) => Error(LzfDecompressionFailed)
    case Decoded(data) =>
      if data == [] then Error(LzfDecompressionFailed)
      else if |data| != size then Error(LzfSizeMismatch)
      else Loaded(data, [])
  }

  /** Where the compressed octets lie and how long they are once decompressed. */
  datatype Span = Span(start: nat, end: nat, size: nat)

  /** The two lengths in front of a compressed string, and the check that all of it is there. */
  function PackedSpan(buf: seq<byte>): (r: Peek<Span>)
    ensures r.Ready? ==> 1 <= r.value.start <= r.value.end <= |buf|
  {
    match PeekLengthAt(buf, 1)
    case NeedMore => NeedMore
    case Broken(e) => Broken(e)
    case Ready(clen) =>
      match PeekLengthAt(buf, 1 + clen.octets)
      case NeedMore => NeedMore
      case Broken(e) => Broken(e)
      case Ready(ulen) =>
        var start := 1 + clen.octets + ulen.octets;
        if |buf| < start + clen.value then NeedMore
        else Ready(Span(start, start + clen.value, ulen.value))
  }

  function LoadPacked(buf: seq<byte>): (r: Load<seq<byte>>)
    ensures r.Loaded? ==> |r.rest| < |buf|
  {
    match PackedSpan(buf)
    case NeedMore => Short
    case Broken(e) => Error(e)
    case Ready(span) =>
      match Unpack(buf[span.start..span.end], span.size)
      case Loaded(data, _) => Loaded(data, buf[span.end..])
      case Short => Short
      case Error(e) => Error(e)
  }

  function LoadString(buf: seq<byte>): (r: Load<seq<byte>>)
    ensures r.Loaded? ==> |r.rest| < |buf|
  {
    if buf == [] then Short
    else
      var first: int := buf[0];
      if first / 64 == 3 then
        match first % 64
        case 0 => if |buf| < 2 then Short else Loaded(Decimal.IntText(SignedLE(buf[1..2])), buf[2..])
        case 1 => if |buf| < 3 then Short else Loaded(Decimal.IntText(SignedLE(buf[1..3])), buf[3..])
        case 2 => if |buf| < 5 then Short else Loaded(Decimal.IntText(SignedLE(buf[1..5])), buf[5..])
        case 3 => LoadPacked(buf)
        case _ => Short
      else
        match PeekLength(buf)
        case NeedMore => Short
        case Broken(e) => Error(e)
        case Ready(len) =>
          if |buf| < len.octets + len.value then Short
          else Loaded(buf[len.octets..len.octets + len.value], buf[len.octets + len.value..])
  }

  // ----- Peek and load agree -----

  lemma PackedAgrees(buf: seq<byte>, offset: nat)
    requires offset < |buf| && buf[offset] == 0xC3
    requires StringEnd(buf, offset).Ready? && StringEnd(buf, offset).value <= |buf|
    ensures var span := PackedSpan(buf[offset..]);
      span.Ready? && offset + span.value.end == StringEnd(buf, offset).value
  {
    var tail := buf[offset..];
    assert tail[1..] == buf[offset + 1..];
    var clen := PeekLengthAt(buf, offset + 1).value;
    assert tail[1 + clen.octets..] == buf[offset + 1 + clen.octets..];
  }

  /** If the string at `offset` ends inside the buffer, loading it stops exactly there. */
  lemma StringAgrees(buf: seq<byte>, offset: nat)
    requires StringEnd(buf, offset).Ready? && StringEnd(buf, offset).value <= |buf|
    ensures match LoadString(buf[offset..])
      case Loaded(_, rest) => rest == buf[StringEnd(buf, offset).value..]
      case Error(_) => true
      case Short => false
  {
    var tail := buf[offset..];
    var end := StringEnd(buf, offset).value;
    assert tail[end - offset..] == buf[end..];
    if buf[offset] == 0xC3 {
      PackedAgrees(buf, offset);
      assert LoadString(tail) == LoadPacked(tail);
    }
  }

  // ----- More octets never change what was already decided -----

  lemma LengthStable(buf: seq<byte>, more: seq<byte>)
    requires !PeekLength(buf).NeedMore?
    ensures PeekLength(buf + more) == PeekLength(buf)
  {
    if |buf| >= 5 {
      assert (buf + more)[1..5] == buf[1..5];
    }
    if |buf| >= 9 {
      assert (buf + more)[1..9] == buf[1..9];
    }
  }

  lemma LengthAtStable(buf: seq<byte>, offset: nat, more: seq<byte>)
    requires !PeekLengthAt(buf, offset).NeedMore?
    ensures PeekLengthAt(buf + more, offset) == PeekLengthAt(buf, offset)
  {
    assert (buf + more)[offset..] == buf[offset..] + more;
    LengthStable(buf[offset..], more);
  }

  lemma StringEndStable(buf: seq<byte>, offset: nat, more: seq<byte>)
    requires !StringEnd(buf, offset).NeedMore?
    ensures StringEnd(buf + more, offset) == StringEnd(buf, offset)
  {
    if buf[offset] / 64 != 3 {
      LengthAtStable(buf, offset, more);
    } else if buf[offset] % 64 == 3 {
      LengthAtStable(buf, offset + 1, more);
      if PeekLengthAt(buf, offset + 1).Ready? {
        LengthAtStable(buf, offset + 1 + PeekLengthAt(buf, offset + 1).value.octets, more);
      }
    }
  }

  /** `r` is `l` with `more` behind its rest. */
  ghost predicate Extends<T>(r: Load<T>, l: Load<T>, more: seq<byte>) {
    match l
    case Loaded(v, rest) => r == Loaded(v, rest + more)
    case Error(e) => r == Error(e)
    case Short => true
  }

  lemma LoadLengthStable(buf: seq<byte>, more: seq<byte>)
    ensures Extends(LoadLength(buf + more), LoadLength(buf), more)
  {
    if !PeekLength(buf).NeedMore? {
      LengthStable(buf, more);
      if PeekLength(buf).Ready? {
        var k := PeekLength(buf).value.octets;
        assert (buf + more)[k..] == buf[k..] + more;
      }
    }
  }

  lemma PackedSpanStable(buf: seq<byte>, more: seq<byte>)
    requires !PackedSpan(buf).NeedMore?
    ensures PackedSpan(buf + more) == PackedSpan(buf)
  {
    LengthAtStable(buf, 1, more);
    if PeekLengthAt(buf, 1).Ready? {
      LengthAtStable(buf, 1 + PeekLengthAt(buf, 1).value.octets, more);
    }
  }

  lemma LoadPackedStable(buf: seq<byte>, more: seq<byte>)
    ensures Extends(LoadPacked(buf + more), LoadPacked(buf), more)
  {
    if !PackedSpan(buf).NeedMore? {
      PackedSpanStable(buf, more);
      if PackedSpan(buf).Ready? {
        SliceOfAppend(buf, more, PackedSpan(buf).value.start, PackedSpan(buf).value.end);
      }
    }
  }

  lemma SliceOfAppend(buf: seq<byte>, more: seq<byte>, lo: nat, hi: nat)
    requires lo <= hi <= |buf|
    ensures (buf + more)[lo..hi] == buf[lo..hi]
    ensures (buf + more)[hi..] == buf[hi..] + more
  {
  }

  lemma LoadStringStable(buf: seq<byte>, more: seq<byte>)
    ensures Extends(LoadString(buf + more), LoadString(buf), more)
  {
    if buf != [] && !LoadString(buf).Short? {
      if buf[0] / 64 != 3 {
        LengthStable(buf, more);
        if PeekLength(buf).Ready? {
          var len := PeekLength(buf).value;
          SliceOfAppend(buf, more, len.octets, len.octets + len.value);
        }
      } else if buf[0] % 64 == 3 {
        LoadPackedStable(buf, more);
      } else {
        SliceOfAppend(buf, more, 1, if buf[0] % 64 == 0 then 2 else if buf[0] % 64 == 1 then 3 else 5);
      }
    }
  }
}
