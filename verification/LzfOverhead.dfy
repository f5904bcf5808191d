/** How much longer than its input a compressed stream can be, and the inputs that reach the bound. */
module LzfOverhead {
  import opened Bytes
  import opened LzfFormat

  /** One octet in front of every 32. */
  function WorstSize(n: nat): nat {
    n + (n + 31) / 32
  }

  predicate AllDifferent(x: seq<byte>) {
    forall i, j :: 0 <= i < j < |x| ==> x[i] != x[j]
  }

  lemma {:induction false} CopyKeeps(out: seq<byte>, dist: nat, n: nat)
    requires 1 <= dist <= |out| && n >= 1
    ensures out + [out[|out| - dist]] <= CopyBack(out, dist, n)
    decreases n
  {
    if n == 1 {
      assert CopyBack(out, dist, 0) == out;
    } else {
      CopyKeeps(out, dist, n - 1);
    }
  }

  lemma TokenKeeps(input: seq<byte>, out: seq<byte>, cap: nat)
    requires input != [] && DecodeToken(input, out, cap).Token?
    ensures out <= DecodeToken(input, out, cap).out
  {
    if input[0] >= 32 {
      var ctrl: int := input[0];
      CopyKeeps(out, RefDistance(ctrl, input[HeaderSize(ctrl) - 1]), RefLength(ctrl, input[1]));
    }
  }

  /** Decoding only appends. */
  lemma {:induction false} DecodeKeeps(input: seq<byte>, out: seq<byte>, cap: nat)
    requires DecodeFrom(input, out, cap).Decoded?
    ensures out <= DecodeFrom(input, out, cap).data
    decreases |input|
  {
    if input != [] {
      var t := DecodeToken(input, out, cap);
      TokenKeeps(input, out, cap);
      DecodeKeeps(input[t.used..], t.out, cap);
    }
  }

  /** A back reference repeats an octet, so it never occurs where all octets differ. */
  lemma OnlyLiterals(input: seq<byte>, out: seq<byte>, cap: nat, x: seq<byte>)
    requires input != [] && DecodeFrom(input, out, cap) == Decoded(x) && AllDifferent(x)
    ensures input[0] < 32
  {
    var t := DecodeToken(input, out, cap);
    DecodeKeeps(input[t.used..], t.out, cap);
    if input[0] >= 32 {
      var ctrl: int := input[0];
      var dist := RefDistance(ctrl, input[HeaderSize(ctrl) - 1]);
      CopyKeeps(out, dist, RefLength(ctrl, input[1]));
      RepeatInside(out, dist, x);
    }
  }

  lemma RepeatInside(out: seq<byte>, dist: nat, x: seq<byte>)
    requires 1 <= dist <= |out| && out + [out[|out| - dist]] <= x
    ensures !AllDifferent(x)
  {
    var longer := out + [out[|out| - dist]];
    assert longer[|out| - dist] == longer[|out|];
    assert x[|out| - dist] == x[|out|];
  }

  /** Every stream that decodes to different octets has at least the worst size. */
  lemma {:induction false} DifferentOctetsCost(input: seq<byte>, out: seq<byte>, cap: nat, x: seq<byte>)
    requires DecodeFrom(input, out, cap) == Decoded(x) && AllDifferent(x)
    ensures |out| <= |x| && |input| >= WorstSize(|x| - |out|)
    decreases |input|
  {
    DecodeKeeps(input, out, cap);
    if input != [] {
      var t := DecodeToken(input, out, cap);
      OnlyLiterals(input, out, cap, x);
      DifferentOctetsCost(input[t.used..], t.out, cap, x);
    }
  }

  // ----- The documented limit of 104% -----

  predicate Below104(size: nat, n: nat) {
    100 * size < 104 * n
  }

  /** The lengths at which the worst size stays below 104%. */
  lemma Below104Exactly(n: nat)
    ensures Below104(WorstSize(n), n) <==> 26 <= n <= 32 || 51 <= n <= 64 || 76 <= n <= 96 || n >= 101
  {
  }

  function Ramp(n: nat): seq<byte>
    requires n <= 256
  {
    seq(n, i requires 0 <= i < n => i)
  }

  /** At every other length there is an input that no compressor of this format keeps below 104%. */
  lemma Reaches104(n: nat, input: seq<byte>, cap: nat)
    requires 0 < n && !Below104(WorstSize(n), n)
    ensures n <= 100
    ensures Decode(input, cap) == Decoded(Ramp(n)) ==> !Below104(|input|, n)
  {
    Below104Exactly(n);
    if Decode(input, cap) == Decoded(Ramp(n)) {
      DifferentOctetsCost(input, [], cap, Ramp(n));
    }
  }

  /** For instance one octet takes at least two. */
  lemma OneOctetDoubles(input: seq<byte>, cap: nat, b: byte)
    requires Decode(input, cap) == Decoded([b])
    ensures |input| >= 2
  {
    DifferentOctetsCost(input, [], cap, [b]);
  }
}
