/** `lzf_decompress`: the C decoder with its fall-through, block and overlapping copies. */
module LzfDecoder {
  import opened Bytes
  import opened LzfFormat

  /** The fall-through `switch` over a literal run: `n` octets from `input[ip..]`. */
  method CopyLiteral(input: array<byte>, ip: nat, output: array<byte>, op: nat, n: nat)
    requires input != output
    requires ip + n <= input.Length && op + n <= output.Length
    modifies output
    ensures output[..op + n] == old(output[..op]) + input[ip..ip + n]
    ensures output[op + n..] == old(output[op + n..])
  {
    var k := 0;
    while k < n
      invariant k <= n
      invariant output[..op + k] == old(output[..op]) + input[ip..ip + k]
      invariant output[op + n..] == old(output[op + n..])
    {
      output[op + k] := input[ip + k];
      k := k + 1;
    }
  }

  /** The octet-by-octet copy from already produced output; source and destination may overlap. */
  method CopyOctets(output: array<byte>, ref: nat, op: nat, n: nat)
    requires ref < op && op + n <= output.Length
    modifies output
    ensures output[..op + n] == CopyBack(old(output[..op]), op - ref, n)
    ensures output[op + n..] == old(output[op + n..])
  {
    ghost var was := output[..op];
    var k := 0;
    while k < n
      invariant k <= n
      invariant output[..op + k] == CopyBack(was, op - ref, k)
      invariant output[op + n..] == old(output[op + n..])
    {
      ghost var done := output[..op + k];
      output[op + k] := output[ref + k];
      assert output[..op + k + 1] == done + [done[ref + k]];
      k := k + 1;
    }
  }

  /** The `memcpy` of the disjoint case. */
  method CopyBlock(output: array<byte>, ref: nat, op: nat, n: nat)
    requires ref + n <= op && op + n <= output.Length && 0 < n
    modifies output
    ensures output[..op + n] == CopyBack(old(output[..op]), op - ref, n)
    ensures output[op + n..] == old(output[op + n..])
  {
    CopyDisjoint(output[..op], op - ref, n);
    forall k | 0 <= k < n {
      output[op + k] := output[ref + k];
    }
    assert output[..op + n] == old(output[..op]) + old(output[ref..ref + n]);
  }

  /** The `switch (len)` that picks the copying path for a back reference of `len + 2` octets. */
  method CopyReference(output: array<byte>, ref: nat, op: nat, len: nat)
    requires ref < op && op + len + 2 <= output.Length
    modifies output
    ensures output[..op + len + 2] == CopyBack(old(output[..op]), op - ref, len + 2)
    ensures output[op + len + 2..] == old(output[op + len + 2..])
  {
    if len <= 9 {
      CopyOctets(output, ref, op, len + 2);
    } else if op >= ref + len + 2 {
      CopyBlock(output, ref, op, len + 2);
    } else {
      CopyOctets(output, ref, op, len + 2);
    }
  }

  /** The length and offset octets of a back reference, read with the input checks on. */
  method ReadReference(input: array<byte>, start: nat, inLen: nat) returns (ip: nat, len: nat, dist: nat)
    requires start < inLen <= input.Length && input[start] >= 32
    ensures ip == 0 <==> inLen - start < HeaderSize(input[start])
    ensures ip != 0 ==>
      && ip == start + HeaderSize(input[start])
      && len + 2 == RefLength(input[start], input[start + 1])
      && dist == RefDistance(input[start], input[ip - 1])
  {
    var ctrl: int := input[start];
    ip, len, dist := start + 1, ctrl / 32, ctrl % 32 * 256 + 1;
    if ip >= inLen {
      return 0, 0, 0;
    }
    if len == 7 {
      len := len + input[ip];
      ip := ip + 1;
      if ip >= inLen {
        return 0, 0, 0;
      }
    }
    dist := dist + input[ip];
    ip := ip + 1;
  }

  lemma SliceOfSlice(a: array<byte>, lo: nat, hi: nat, from: nat, to: nat)
    requires lo <= hi <= a.Length && from <= to <= hi - lo
    ensures a[lo..hi][from..to] == a[lo + from..lo + to]
  {
    forall k | 0 <= k < to - from
      ensures a[lo..hi][from..to][k] == a[lo + from..lo + to][k]
    {
    }
  }

  /** One round of the decoding loop. */
  method DecodeOne(input: array<byte>, start: nat, inLen: nat, output: array<byte>, pos: nat, outLen: nat)
    returns (ip: nat, op: nat, errno: Option<Errno>)
    requires input != output
    requires start < inLen <= input.Length && pos <= outLen <= output.Length
    modifies output
    ensures output[outLen..] == old(output[outLen..])
    ensures match DecodeToken(input[start..inLen], old(output[..pos]), outLen)
      case Token(used, out) => errno == None && ip == start + used && op == |out| <= outLen && output[..op] == out
      case Bad(e) => errno == Some(e)
  {
    ip, op, errno := start + 1, pos, None;
    var ctrl: int := input[start];
    if ctrl < 32 {
      ctrl := ctrl + 1;
      if op + ctrl > outLen {
        return 0, 0, Some(E2BIG);
      }
      if ip + ctrl > inLen {
        return 0, 0, Some(EINVAL);
      }
      SliceOfSlice(input, start, inLen, 1, ctrl + 1);
      CopyLiteral(input, ip, output, op, ctrl);
      ip, op := ip + ctrl, op + ctrl;
    } else {
      var len, dist;
      ip, len, dist := ReadReference(input, start, inLen);
      if ip == 0 {
        return 0, 0, Some(EINVAL);
      }
      if op + len + 2 > outLen {
        return 0, 0, Some(E2BIG);
      }
      if dist > op {
        return 0, 0, Some(EINVAL);
      }
      CopyReference(output, op - dist, op, len);
      op := op + len + 2;
    }
  }

  /**
   Decompresses `input[..inLen]` into at most `outLen` octets of `output`.  On any input the
   result is that of the reference decoder: the same octets, or 0 and the same error.
   */
  method Decompress(input: array<byte>, inLen: nat, output: array<byte>, outLen: nat)
    returns (n: nat, errno: Option<Errno>)
    requires input != output
    requires inLen <= input.Length && outLen <= output.Length
    modifies output
    ensures n <= outLen
    ensures output[outLen..] == old(output[outLen..])
    ensures match Decode(input[..inLen], outLen)
      case Decoded(data) => errno == None && n == |data| && output[..n] == data
      case Failed(e) => errno == Some(e) && n == 0
  {
    var ip: nat, op: nat := 0, 0;
    while ip < inLen
      invariant ip <= inLen && op <= outLen
      invariant output[outLen..] == old(output[outLen..])
      invariant DecodeFrom(input[ip..inLen], output[..op], outLen) == Decode(input[..inLen], outLen)
    {
      ghost var rest := input[ip..inLen];
      var start := ip;
      ip, op, errno := DecodeOne(input, ip, inLen, output, op, outLen);
      if errno != None {
        return 0, errno;
      }
      assert rest[ip - start..] == input[ip..inLen];
    }
    n, errno := op, None;
  }
}
