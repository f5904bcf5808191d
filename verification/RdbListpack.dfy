/** Listpacks and integer sets: the packed containers inside RDB strings. */
module RdbListpack {
  import opened Bytes
  import opened RdbString
  import opened Decimal

  /** The sizes that fit into `n` octets of seven bits. */
  function Limit7(n: nat): nat {
    if n == 0 then 1 else 128 * Limit7(n - 1)
  }

  /** Number of octets of the back length of an entry of `size` octets: the fewest that hold it, at most five. */
  function BacklenSize(size: nat): (n: nat)
    ensures 1 <= n <= 5
    ensures (n > 1 ==> size >= Limit7(n - 1)) && (n < 5 ==> size < Limit7(n))
  {
    assert Limit7(1) == 128 * Limit7(0) && Limit7(2) == 128 * Limit7(1);
    assert Limit7(3) == 128 * Limit7(2) && Limit7(4) == 128 * Limit7(3);
    if size <= 127 then 1
    else if size <= 16383 then 2
    else if size <= 2_097_151 then 3
    else if size <= 268_435_455 then 4
    else 5
  }

  /** A string of `len` octets after a header of `header` octets, then `backlen` octets to skip. */
  function TakeString(buf: seq<byte>, header: nat, len: nat, backlen: nat): (r: Load<seq<byte>>)
    requires header <= |buf|
    ensures r.Loaded? ==> |r.rest| == |buf| - header - len - backlen
  {
    if |buf| < header + len + backlen then Error(ListpackEntryStringTooShort)
    else Loaded(buf[header..header + len], buf[header + len + backlen..])
  }

  /** A little-endian two's complement integer of `n` octets after the encoding octet. */
  function TakeInt(buf: seq<byte>, n: nat): (r: Load<seq<byte>>)
    requires buf != []
    ensures r.Loaded? ==> |r.rest| == |buf| - n - 2
  {
    if |buf| < 1 + n + 1 then Error(ListpackEntryIntTooShort)
    else Loaded(IntText(SignedLE(buf[1..1 + n])), buf[1 + n + 1..])
  }

  /** One entry; its decimal text if it is an integer. */
  function ParseEntry(buf: seq<byte>): (r: Load<seq<byte>>)
    ensures !r.Short?
    ensures r.Loaded? ==> |r.rest| < |buf|
  {
    if buf == [] then Error(ListpackEntryEmpty)
    else
      var enc: int := buf[0];
      if enc < 0x80 then
        if |buf| < 2 then Error(ListpackEntryNoBacklen) else Loaded(NatText(enc), buf[2..])
      else if enc < 0xC0 then TakeString(buf, 1, enc % 64, 1)
      else if enc < 0xD0 then
        if |buf| < 3 then Error(ListpackEntryIntTooShort)
        else
          var v := enc % 32 * 256 + buf[1];
          Loaded(IntText(if v >= 4096 then v - 8192 else v), buf[3..])
      else if enc < 0xE0 then
        if |buf| < 3 then Error(ListpackEntryStringTooShort)
        else
          var len := BigEndian(buf[1..3]);
          TakeString(buf, 3, len, BacklenSize(3 + len))
      else if enc < 0xF0 then
        if |buf| < 2 then Error(ListpackEntryStringTooShort)
        else
          var len := enc % 16 * 256 + buf[1];
          TakeString(buf, 2, len, BacklenSize(2 + len))
      else match enc
        case 0xF0 =>
          if |buf| < 5 then Error(ListpackEntryStringTooShort)
          else
            var len := LittleEndian(buf[1..5]);
            TakeString(buf, 5, len, BacklenSize(5 + len))
        case 0xF1 => TakeInt(buf, 2)
        case 0xF2 => TakeInt(buf, 3)
        case 0xF3 => TakeInt(buf, 4)
        case 0xF4 => TakeInt(buf, 8)
        case _ => Error(UnknownListpackEncoding)
  }

  /** Puts `entries` in front of the entries of `r`. */
  function After<T>(entries: seq<T>, r: Load<seq<T>>): Load<seq<T>> {
    if r.Loaded? then Loaded(entries + r.value, r.rest) else r
  }

  /** Up to `n` entries; an end marker or the end of the octets stops early. */
  function ParseEntries(buf: seq<byte>, n: nat): (r: Load<seq<seq<byte>>>)
    ensures !r.Short?
    decreases n
  {
    if n == 0 || buf == [] || buf[0] == 0xFF then Loaded([], buf)
    else
      match ParseEntry(buf)
      case Error(e) => Error(e)
      case Loaded(entry, rest) =>
        After([entry], ParseEntries(rest, n - 1))
  }

  function ParseListpack(data: seq<byte>): (r: Load<seq<seq<byte>>>)
    ensures !r.Short?
  {
    if |data| < 6 then Error(ListpackTooSmall)
    else ParseEntries(data[6..], LittleEndian(data[4..6]))
  }

  lemma AfterNothing<T>(r: Load<seq<T>>)
    ensures After([], r) == r
  {
    if r.Loaded? {
      assert [] + r.value == r.value;
    }
  }

  lemma AfterAfter<T>(a: seq<T>, b: seq<T>, r: Load<seq<T>>)
    ensures After(a, After(b, r)) == After(a + b, r)
  {
    if r.Loaded? {
      assert a + (b + r.value) == a + b + r.value;
    }
  }

  /** `parse_listpack` as written: a counted loop over a shrinking buffer. */
  method ReadListpack(data: seq<byte>) returns (r: Load<seq<seq<byte>>>)
    ensures match ParseListpack(data)
      case Loaded(entries, _) => r.Loaded? && r.value == entries
      case Error(e) => r == Error(e)
  {
    if |data| < 6 {
      return Error(ListpackTooSmall);
    }
    var buf, i, count := data[6..], 0, LittleEndian(data[4..6]);
    var entries: seq<seq<byte>> := [];
    AfterNothing(ParseListpack(data));
    while i < count && buf != [] && buf[0] != 0xFF
      invariant i <= count
      invariant ParseListpack(data) == After(entries, ParseEntries(buf, count - i))
      decreases count - i
    {
      var entry := ParseEntry(buf);
      if entry.Error? {
        return Error(entry.error);
      }
      AfterAfter(entries, [entry.value], ParseEntries(entry.rest, count - i - 1));
      entries := entries + [entry.value];
      buf := entry.rest;
      i := i + 1;
    }
    assert entries + [] == entries;
    return Loaded(entries, buf);
  }

  // ----- Integer sets -----

  /** `n` integers of `width` octets each. */
  function ParseIntegers(buf: seq<byte>, width: nat, n: nat): (r: Load<seq<int>>)
    ensures !r.Short?
    decreases n
  {
    if n == 0 then Loaded([], buf)
    else if width != 2 && width != 4 && width != 8 then Error(UnknownIntsetEncoding)
    else if |buf| < width then Error(IntsetEntryTooShort)
    else
      After([SignedLE(buf[..width])], ParseIntegers(buf[width..], width, n - 1))
  }

  function ParseIntset(data: seq<byte>): (r: Load<seq<int>>)
    ensures !r.Short?
  {
    if |data| < 8 then Error(IntsetTooSmall)
    else ParseIntegers(data[8..], LittleEndian(data[..4]), LittleEndian(data[4..8]))
  }

  /** `parse_intset` as written: a counted loop over a shrinking buffer. */
  method ReadIntset(data: seq<byte>) returns (r: Load<seq<int>>)
    ensures match ParseIntset(data)
      case Loaded(vs, _) => r.Loaded? && r.value == vs
      case Error(e) => r == Error(e)
  {
    if |data| < 8 {
      return Error(IntsetTooSmall);
    }
    var width, count := LittleEndian(data[..4]), LittleEndian(data[4..8]);
    var buf := data[8..];
    var integers: seq<int> := [];
    AfterNothing(ParseIntset(data));
    for i := 0 to count
      invariant ParseIntset(data) == After(integers, ParseIntegers(buf, width, count - i))
    {
      if width != 2 && width != 4 && width != 8 {
        return Error(UnknownIntsetEncoding);
      }
      if |buf| < width {
        return Error(IntsetEntryTooShort);
      }
      var v := SignedLE(buf[..width]);
      AfterAfter(integers, [v], ParseIntegers(buf[width..], width, count - i - 1));
      integers, buf := integers + [v], buf[width..];
    }
    assert integers + [] == integers;
    r := Loaded(integers, buf);
  }
}
