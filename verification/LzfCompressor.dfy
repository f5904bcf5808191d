/**
 `lzf_compress`: the greedy C compressor, with its in-place run headers and its uninitialised
 hash table.  `garbage` is what the table holds on entry and `hash` the hash of three octets;
 nothing is known about either.
 */
module LzfCompressor {
  import opened Bytes
  import opened LzfFormat
  import opened LzfOverhead
  import LzfDecoder

  const HSIZE := 65536
  const MAX_LIT := 32
  const MAX_OFF := 8192
  const MAX_REF := 264

  /** The first `c` octets of `out` are whole tokens that decode to the first `d` octets of `x`. */
  ghost predicate Closed(x: seq<byte>, out: seq<byte>, d: nat, c: nat) {
    && d <= |x| && c <= |out|
    && Decode(out[..c], |x|) == Decoded(x[..d])
  }

  /**
   A literal run of `lit` octets is open: its header is the octet before `out[op - lit]`, its
   payload is the last `lit` octets before `x[ip]`, and all before it is closed.
   The last conjunct is the size account: 33 octets of output for 32 octets of input.
   */
  ghost predicate Open(x: seq<byte>, out: seq<byte>, ip: nat, lit: nat, op: nat) {
    && lit <= ip && lit <= MAX_LIT && lit < op
    && Closed(x, out, ip - lit, op - lit - 1)
    && (lit > 0 ==> ip <= |x| && op <= |out| && out[op - lit..op] == x[ip - lit..ip])
    && 32 * (op - lit - 1) <= 33 * (ip - lit)
  }

  /** Later writes do not disturb what is closed. */
  lemma ClosedFrame(x: seq<byte>, out: seq<byte>, out': seq<byte>, d: nat, c: nat)
    requires Closed(x, out, d, c) && c <= |out'| && out[..c] == out'[..c]
    ensures Closed(x, out', d, c)
  {
  }

  lemma SliceSnoc(s: seq<byte>, lo: nat, hi: nat)
    requires lo <= hi < |s|
    ensures s[lo..hi + 1] == s[lo..hi] + [s[hi]]
  {
  }

  /** One more literal octet. */
  lemma PushLiteral(x: seq<byte>, out: seq<byte>, ip: nat, lit: nat, op: nat)
    requires Open(x, out, ip, lit, op) && ip < |x| && op < |out| && lit < MAX_LIT
    ensures Open(x, out[op := x[ip]], ip + 1, lit + 1, op + 1)
  {
    var out' := out[op := x[ip]];
    assert out'[..op - lit - 1] == out[..op - lit - 1];
    if lit > 0 {
      assert out'[op - lit..op] == out[op - lit..op];
    }
    SliceSnoc(out', op - lit, op);
    SliceSnoc(x, ip - lit, ip);
  }

  /** Patching the header closes the run. */
  lemma StopRun(x: seq<byte>, out: seq<byte>, ip: nat, lit: nat, op: nat)
    requires Open(x, out, ip, lit, op) && lit > 0
    ensures Closed(x, out[op - lit - 1 := lit - 1], ip, op)
  {
    var c := op - lit - 1;
    var out' := out[c := lit - 1];
    var run := x[ip - lit..ip];
    EmitLiteral(out[..c], x[..ip - lit], run, |x|);
    assert out'[..op] == out[..c] + [lit - 1] + run by {
      assert out'[..op] == out'[..c] + [out'[c]] + out'[c + 1..op];
      assert out'[c + 1..op] == out[op - lit..op];
    }
    assert x[..ip] == x[..ip - lit] + run;
  }

  /** Writing a back reference for a repetition closes over it. */
  lemma WroteReference(x: seq<byte>, out: seq<byte>, out': seq<byte>, ip: nat, c: nat, off: nat, len: nat)
    requires Closed(x, out, ip, c)
    requires off < MAX_OFF && 3 <= len <= MAX_REF && Repeats(x, ip, off + 1, len)
    requires c + |RefToken(off, len)| <= |out'|
    requires out'[..c + |RefToken(off, len)|] == out[..c] + RefToken(off, len)
    ensures Closed(x, out', ip + len, c + |RefToken(off, len)|)
  {
    EmitRef(out[..c], x, ip, off, len, |x|);
  }

  /**
   The match length: the unrolled comparisons, then the `do`/`while` up to `maxlen`.
   The match never leaves the input, and it ends only at a mismatch or at the limit.
   */
  method MatchLength(input: array<byte>, ref: nat, ip: nat) returns (len: nat)
    requires ref < ip && ip + 2 < input.Length
    requires forall j :: ip <= j < ip + 3 ==> input[j] == input[j - (ip - ref)]
    ensures 3 <= len <= MAX_REF && ip + len <= input.Length
    ensures forall j :: ip <= j < ip + len ==> input[j] == input[j - (ip - ref)]
    ensures len == MAX_REF || ip + len + 2 >= input.Length || input[ref + len] != input[ip + len]
  {
    len := 2;
    var maxlen := input.Length - ip - len;
    maxlen := if maxlen > MAX_REF then MAX_REF else maxlen;
    if maxlen > 16 {
      var k := 0;
      while k < 16
        invariant k <= 16 && len == 2 + k
        invariant forall j :: ip <= j <= ip + len ==> input[j] == input[j - (ip - ref)]
      {
        len := len + 1;
        if input[ref + len] != input[ip + len] {
          return;
        }
        k := k + 1;
      }
    }
    len := len + 1;
    while len < maxlen && input[ref + len] == input[ip + len]
      invariant 3 <= len <= MAX_REF && ip + len <= input.Length
      invariant forall j :: ip <= j < ip + len ==> input[j] == input[j - (ip - ref)]
    {
      len := len + 1;
    }
  }

  /** Writes the two or three octets of a back reference. */
  method WriteReference(output: array<byte>, c: nat, off: nat, len: nat) returns (op: nat)
    requires off < MAX_OFF && 3 <= len <= MAX_REF && c + 3 <= output.Length
    modifies output
    ensures op == c + |RefToken(off, len)|
    ensures output[..op] == old(output[..c]) + RefToken(off, len)
  {
    op := c;
    var k := len - 2;
    if k < 7 {
      output[op] := off / 256 + k * 32;
      op := op + 1;
    } else {
      output[op] := off / 256 + 7 * 32;
      op := op + 1;
      output[op] := k - 7;
      op := op + 1;
    }
    output[op] := off % 256;
    op := op + 1;
  }

  /** Closes the open run before a match; an empty run gives its header octet back. */
  method EndRun(ghost x: seq<byte>, output: array<byte>, ghost ip: nat, lit: nat, pos: nat) returns (op: nat)
    requires Open(x, output[..], ip, lit, pos) && pos <= output.Length
    modifies output
    ensures op == if lit == 0 then pos - 1 else pos
    ensures Closed(x, output[..], ip, op)
  {
    ghost var was := output[..];
    output[pos - lit - 1] := (lit - 1) % 256;
    op := if lit == 0 then pos - 1 else pos;
    if lit > 0 {
      StopRun(x, was, ip, lit, pos);
    } else {
      ClosedFrame(x, was, output[..], ip, pos - 1);
    }
  }

  /** One literal octet, closing a full run. */
  method AddLiteral(input: array<byte>, ip: nat, output: array<byte>, run: nat, pos: nat) returns (lit: nat, op: nat)
    requires input != output
    requires Open(input[..], output[..], ip, run, pos) && run < MAX_LIT
    requires ip < input.Length && pos < output.Length
    modifies output
    ensures Open(input[..], output[..], ip + 1, lit, op) && lit < MAX_LIT
    ensures if run + 1 == MAX_LIT then lit == 0 && op == pos + 2 else lit == run + 1 && op == pos + 1
  {
    PushLiteral(input[..], output[..], ip, run, pos);
    output[pos] := input[ip];
    lit, op := run + 1, pos + 1;
    if lit == MAX_LIT {
      StopRun(input[..], output[..], ip + 1, lit, op);
      output[op - lit - 1] := lit - 1;
      lit, op := 0, op + 1;
    }
  }

  /** Tries a match at `ip` against the candidate position from the hash table. */
  method IsMatch(input: array<byte>, ref: int, ip: nat) returns (found: bool)
    requires ip + 2 < input.Length
    ensures found <==>
      && 0 < ref && 0 <= ip - ref - 1 < MAX_OFF
      && forall j :: ip <= j < ip + 3 ==> input[j] == input[j - (ip - ref)]
  {
    var off := ip - ref - 1;
    found := 0 <= off < MAX_OFF && ref > 0 && input[ref + 2] == input[ip + 2]
      && input[ref] == input[ip] && input[ref + 1] == input[ip + 1];
    if found {
      forall j | ip <= j < ip + 3
        ensures input[j] == input[j - (ip - ref)]
      {
        assert j == ip || j == ip + 1 || j == ip + 2;
      }
    } else if 0 <= off < MAX_OFF && ref > 0 {
      assert input[ip] != input[ip - (ip - ref)] || input[ip + 1] != input[ip + 1 - (ip - ref)]
        || input[ip + 2] != input[ip + 2 - (ip - ref)];
    }
  }

  /** Ends the run and writes a back reference of `len` octets; 0 if the output might not hold it. */
  method AddReference(input: array<byte>, ip: nat, off: nat, len: nat, output: array<byte>, lit: nat, pos: nat)
    returns (op: nat)
    requires input != output
    requires Open(input[..], output[..], ip, lit, pos)
    requires off < MAX_OFF && 3 <= len <= MAX_REF && Repeats(input[..], ip, off + 1, len)
    modifies output
    ensures op == 0 <==> pos - (if lit == 0 then 1 else 0) + 4 >= output.Length
    ensures op != 0 ==> op <= output.Length && Open(input[..], output[..], ip + len, 0, op)
  {
    if pos + 3 + 1 >= output.Length {
      if pos - (if lit == 0 then 1 else 0) + 3 + 1 >= output.Length {
        return 0;
      }
    }
    ghost var x := input[..];
    var c := EndRun(x, output, ip, lit, pos);
    ghost var closed := output[..];
    op := WriteReference(output, c, off, len);
    assert output[..][..op] == closed[..c] + RefToken(off, len);
    WroteReference(x, closed, output[..], ip, c, off, len);
    op := op + 1;
  }

  /** The size account bounds the write position. */
  lemma OpenSize(x: seq<byte>, out: seq<byte>, ip: nat, lit: nat, op: nat)
    requires Open(x, out, ip, lit, op)
    ensures op <= ip + (ip - lit) / 32 + 1
  {
  }

  /** An upper bound for the room that compressing `n` octets can take. */
  function SafeRoom(n: nat): nat {
    n + n / 32 + 4
  }

  /** Enters `ip` into its hash slot and returns what the slot held. */
  method SwapSlot(input: array<byte>, ip: nat, htab: array<int>, hash: (byte, byte, byte) -> nat) returns (ref: int)
    requires ip + 2 < input.Length && htab.Length == HSIZE
    modifies htab
  {
    var slot := hash(input[ip], input[ip + 1], input[ip + 2]) % HSIZE;
    ref := htab[slot];
    htab[slot] := ip;
  }

  /** One round of the main loop: a match if the slot offers one, else one literal octet. */
  method Advance(input: array<byte>, start: nat, output: array<byte>, run: nat, pos: nat,
                 htab: array<int>, hash: (byte, byte, byte) -> nat)
    returns (ip: nat, lit: nat, op: nat)
    requires input != output && htab.Length == HSIZE
    requires start + 2 < input.Length && run < MAX_LIT && Open(input[..], output[..], start, run, pos)
    modifies output, htab
    ensures op == 0 ==> output.Length < SafeRoom(input.Length)
    ensures op != 0 ==> start < ip <= input.Length && lit < MAX_LIT && Open(input[..], output[..], ip, lit, op)
  {
    OpenSize(input[..], output[..], start, run, pos);
    var ref := SwapSlot(input, start, htab, hash);
    var found := IsMatch(input, ref, start);
    if found {
      var len := MatchLength(input, ref, start);
      op := AddReference(input, start, start - ref - 1, len, output, run, pos);
      ip, lit := start + len, 0;
    } else if pos >= output.Length {
      ip, lit, op := start, run, 0;
    } else {
      lit, op := AddLiteral(input, start, output, run, pos);
      ip := start + 1;
    }
  }

  /** The main loop: matches and literals up to the last two octets. */
  method Scan(input: array<byte>, output: array<byte>, htab: array<int>, hash: (byte, byte, byte) -> nat)
    returns (ok: bool, ip: nat, lit: nat, op: nat)
    requires input != output && htab.Length == HSIZE
    requires 0 < input.Length && 0 < output.Length
    modifies output, htab
    ensures !ok ==> output.Length < SafeRoom(input.Length)
    ensures ok ==> input.Length - 2 <= ip <= input.Length && lit < MAX_LIT && Open(input[..], output[..], ip, lit, op)
  {
    ok, ip, lit, op := true, 0, 0, 1;
    while ip < input.Length - 2
      invariant ip <= input.Length && lit < MAX_LIT
      invariant Open(input[..], output[..], ip, lit, op)
    {
      var start := ip;
      ip, lit, op := Advance(input, ip, output, lit, op, htab, hash);
      if op == 0 {
        return false, ip, lit, op;
      }
      if ip > start + 1 && ip < input.Length - 2 {
        // After a match the two positions before the next one are entered as well.
        var _ := SwapSlot(input, ip - 2, htab, hash);
        var _ := SwapSlot(input, ip - 1, htab, hash);
      }
    }
  }

  /** The last octets and the final run header. */
  method Finish(input: array<byte>, output: array<byte>, start: nat, run: nat, pos: nat) returns (n: nat)
    requires input != output
    requires input.Length - 2 <= start <= input.Length && run < MAX_LIT && 0 < input.Length
    requires Open(input[..], output[..], start, run, pos) && pos + 3 <= output.Length
    modifies output
    ensures 0 < n <= output.Length && n <= WorstSize(input.Length)
    ensures Decode(output[..n], input.Length) == Decoded(input[..])
  {
    var ip: nat, lit: nat, op: nat := start, run, pos;
    while ip < input.Length
      invariant ip <= input.Length && lit < MAX_LIT
      invariant Open(input[..], output[..], ip, lit, op)
      invariant op + (input.Length - ip) + (if lit + (input.Length - ip) >= MAX_LIT then 1 else 0) <= output.Length
    {
      lit, op := AddLiteral(input, ip, output, lit, op);
      ip := ip + 1;
    }
    OpenSize(input[..], output[..], ip, lit, op);
    n := EndRun(input[..], output, ip, lit, op);
    assert output[..][..n] == output[..n] && input[..][..ip] == input[..];
    assert n > 0;
  }

  /**
   Compresses `input` into `output`.  Whatever the hash table held and whatever the hash is: a
   non-zero result is a stream that decodes to exactly the input, it is at most one octet in 32
   longer than the input, and zero is returned only when the output might be too small.
   */
  method Compress(input: array<byte>, output: array<byte>, garbage: nat -> int, hash: (byte, byte, byte) -> nat)
    returns (n: nat)
    requires input != output
    modifies output
    ensures n <= output.Length
    ensures n > 0 ==> Decode(output[..n], input.Length) == Decoded(input[..])
    ensures n > 0 ==> n <= WorstSize(input.Length)
    ensures n > 0 && AllDifferent(input[..]) ==> n == WorstSize(input.Length)
    ensures input.Length > 0 && output.Length >= SafeRoom(input.Length) ==> n > 0
  {
    if input.Length == 0 || output.Length == 0 {
      return 0;
    }
    var htab := new int[HSIZE](i => garbage(i));
    var ok, ip, lit, op := Scan(input, output, htab, hash);
    if !ok {
      return 0;
    }
    OpenSize(input[..], output[..], ip, lit, op);
    if op + 3 > output.Length {
      return 0;
    }
    n := Finish(input, output, ip, lit, op);
    if AllDifferent(input[..]) {
      DifferentOctetsCost(output[..n], [], input.Length, input[..]);
    }
  }

  /**
   Compressing and then decompressing: if the compressor succeeds, decompressing what it wrote
   into any buffer of at least the original length gives back exactly the original octets.
   */
  method RoundTrip(input: array<byte>, packed: array<byte>, output: array<byte>,
                   garbage: nat -> int, hash: (byte, byte, byte) -> nat) returns (n: nat, m: nat)
    requires input != packed && packed != output && input != output
    requires output.Length >= input.Length
    modifies packed, output
    ensures n > 0 ==> m == input.Length && output[..m] == input[..]
  {
    n := Compress(input, packed, garbage, hash);
    if n > 0 {
      DecodeMoreRoom(packed[..n], [], input.Length, output.Length);
      var errno;
      m, errno := LzfDecoder.Decompress(packed, n, output, output.Length);
    } else {
      m := 0;
    }
  }
}
