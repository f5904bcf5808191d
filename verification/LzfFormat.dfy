/**
 The LZF stream format, given by the simplest decoder one could write: it copies one octet
 at a time and keeps the whole output in a sequence.  Everything proved about the C codec
 (`LzfDecoder`, `LzfCompressor`) is proved against this definition.
 */
module LzfFormat {
  import opened Bytes

  datatype Errno = E2BIG | EINVAL

  datatype Decoded = Decoded(data: seq<byte>) | Failed(errno: Errno)

  /** Outcome of one token: how many input octets it used and the output after it. */
  datatype Token = Token(used: nat, out: seq<byte>) | Bad(errno: Errno)

  /** Appends `n` octets, each a copy of the octet `dist` places before it. */
  function CopyBack(out: seq<byte>, dist: nat, n: nat): (r: seq<byte>)
    requires 1 <= dist <= |out|
    ensures |r| == |out| + n
  {
    if n == 0 then out
    else
      var r := CopyBack(out, dist, n - 1);
      r + [r[|r| - dist]]
  }

  /** Number of octets in front of the payload of the token that starts with `ctrl`. */
  function HeaderSize(ctrl: int): nat {
    if ctrl < 32 then 1 else if ctrl / 32 == 7 then 3 else 2
  }

  /** Number of octets that a back reference with control octet `ctrl` and next octet `next` produces. */
  function RefLength(ctrl: int, next: int): int {
    if ctrl / 32 == 7 then 7 + next + 2 else ctrl / 32 + 2
  }

  /** How far back the back reference with control octet `ctrl` and final octet `last` reaches. */
  function RefDistance(ctrl: int, last: int): int {
    ctrl % 32 * 256 + last + 1
  }

  /** Decodes the token at the start of `input`, after the octets `out`. */
  function DecodeToken(input: seq<byte>, out: seq<byte>, cap: nat): (t: Token)
    requires input != []
    ensures t.Token? ==> 1 <= t.used <= |input|
  {
    var ctrl: int := input[0];
    if ctrl < 32 then
      if |out| + ctrl + 1 > cap then Bad(E2BIG)
      else if |input| < ctrl + 2 then Bad(EINVAL)
      else Token(ctrl + 2, out + input[1..ctrl + 2])
    else if |input| < HeaderSize(ctrl) then Bad(EINVAL)
    else
      var len := RefLength(ctrl, input[1]);
      var dist := RefDistance(ctrl, input[HeaderSize(ctrl) - 1]);
      if |out| + len > cap then Bad(E2BIG)
      else if dist > |out| then Bad(EINVAL)
      else Token(HeaderSize(ctrl), CopyBack(out, dist, len))
  }

  /** Decodes `input` after the octets `out`; no more than `cap` octets may be produced in all. */
  function DecodeFrom(input: seq<byte>, out: seq<byte>, cap: nat): Decoded
    decreases |input|
  {
    if input == [] then Decoded(out)
    else
      match DecodeToken(input, out, cap)
      case Bad(errno) => Failed(errno)
      case Token(used, out') => DecodeFrom(input[used..], out', cap)
  }

  function Decode(input: seq<byte>, cap: nat): Decoded {
    DecodeFrom(input, [], cap)
  }

  // ----- Facts about the format -----

  /** A successful decoding can be continued where it stopped. */
  lemma {:induction false} DecodeAppend(a: seq<byte>, b: seq<byte>, out: seq<byte>, cap: nat)
    requires DecodeFrom(a, out, cap).Decoded?
    ensures DecodeFrom(a + b, out, cap) == DecodeFrom(b, DecodeFrom(a, out, cap).data, cap)
    decreases |a|
  {
    if a == [] {
      assert a + b == b;
    } else {
      var t := DecodeToken(a, out, cap);
      TokenIgnoresRest(a, b, out, cap);
      assert (a + b)[t.used..] == a[t.used..] + b;
      DecodeAppend(a[t.used..], b, t.out, cap);
    }
  }

  /** A complete token is read the same way whatever follows it. */
  lemma TokenIgnoresRest(a: seq<byte>, b: seq<byte>, out: seq<byte>, cap: nat)
    requires a != [] && DecodeToken(a, out, cap).Token?
    ensures DecodeToken(a + b, out, cap) == DecodeToken(a, out, cap)
  {
    if a[0] < 32 {
      assert (a + b)[1..a[0] as int + 2] == a[1..a[0] as int + 2];
    }
  }

  /** A larger output buffer never changes a successful decoding. */
  lemma {:induction false} DecodeMoreRoom(a: seq<byte>, out: seq<byte>, cap: nat, cap': nat)
    requires cap <= cap'
    requires DecodeFrom(a, out, cap).Decoded?
    ensures DecodeFrom(a, out, cap') == DecodeFrom(a, out, cap)
    decreases |a|
  {
    if a != [] {
      var t := DecodeToken(a, out, cap);
      assert DecodeToken(a, out, cap') == t;
      DecodeMoreRoom(a[t.used..], t.out, cap, cap');
    }
  }

  /** A decoding keeps what was there and never exceeds the output buffer. */
  lemma {:induction false} DecodeFits(a: seq<byte>, out: seq<byte>, cap: nat)
    requires |out| <= cap
    requires DecodeFrom(a, out, cap).Decoded?
    ensures |out| <= |DecodeFrom(a, out, cap).data| <= cap
    decreases |a|
  {
    if a != [] {
      var t := DecodeToken(a, out, cap);
      DecodeFits(a[t.used..], t.out, cap);
    }
  }

  /** A closed literal run decodes to its payload. */
  lemma EmitLiteral(closed: seq<byte>, d: seq<byte>, run: seq<byte>, cap: nat)
    requires Decode(closed, cap) == Decoded(d)
    requires 1 <= |run| <= 32
    requires |d| + |run| <= cap
    ensures Decode(closed + [|run| - 1] + run, cap) == Decoded(d + run)
  {
    var tok := [|run| - 1] + run;
    assert closed + [|run| - 1] + run == closed + tok;
    DecodeAppend(closed, tok, [], cap);
    assert tok[1..1 + |run|] == run;
    assert DecodeToken(tok, d, cap) == Token(|tok|, d + run);
    assert tok[|tok|..] == [];
  }

  /** The octets of a back reference of `len` octets, `off + 1` places back. */
  function RefToken(off: nat, len: nat): (tok: seq<byte>)
    requires off < 8192 && 3 <= len <= 264
  {
    if len - 2 < 7
    then [off / 256 + (len - 2) * 32, off % 256]
    else [off / 256 + 7 * 32, len - 9, off % 256]
  }

  /** `x` repeats, from position `p` on and for `n` octets, what stands `dist` places earlier. */
  ghost predicate Repeats(x: seq<byte>, p: nat, dist: nat, n: nat) {
    && 1 <= dist <= p && p + n <= |x|
    && forall j :: p <= j < p + n ==> x[j] == x[j - dist]
  }

  /** A back reference to an earlier occurrence decodes to the repeated octets, overlap included. */
  lemma EmitRef(closed: seq<byte>, x: seq<byte>, p: nat, off: nat, len: nat, cap: nat)
    requires off < 8192 && 3 <= len <= 264
    requires Repeats(x, p, off + 1, len) && p + len <= cap
    requires Decode(closed, cap) == Decoded(x[..p])
    ensures Decode(closed + RefToken(off, len), cap) == Decoded(x[..p + len])
  {
    var tok := RefToken(off, len);
    DecodeAppend(closed, tok, [], cap);
    RefTokenMeaning(off, len);
    CopyRepeats(x, p, off + 1, len);
    assert DecodeToken(tok, x[..p], cap) == Token(|tok|, x[..p + len]);
    assert tok[|tok|..] == [];
  }

  /** The decoder's arithmetic undoes the encoder's. */
  lemma RefTokenMeaning(off: nat, len: nat)
    requires off < 8192 && 3 <= len <= 264
    ensures var tok := RefToken(off, len);
      && tok[0] >= 32
      && HeaderSize(tok[0]) == |tok|
      && RefLength(tok[0], tok[1]) == len
      && RefDistance(tok[0], tok[|tok| - 1]) == off + 1
  {
    var hi := off / 256;
    var k := if len - 2 < 7 then len - 2 else 7;
    assert (hi + k * 32) / 32 == k && (hi + k * 32) % 32 == hi;
  }

  /** Copying back over a repetition in `x` reproduces `x`. */
  lemma {:induction false} CopyRepeats(x: seq<byte>, p: nat, dist: nat, n: nat)
    requires Repeats(x, p, dist, n)
    ensures CopyBack(x[..p], dist, n) == x[..p + n]
    decreases n
  {
    if n > 0 {
      CopyRepeats(x, p, dist, n - 1);
    }
  }

  /** When source and destination do not overlap, copying back is a block copy. */
  lemma {:induction false} CopyDisjoint(out: seq<byte>, dist: nat, n: nat)
    requires 1 <= dist <= |out| && n <= dist
    ensures CopyBack(out, dist, n) == out + out[|out| - dist..|out| - dist + n]
    decreases n
  {
    if n > 0 {
      CopyDisjoint(out, dist, n - 1);
    }
  }
}
