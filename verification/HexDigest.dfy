/** Digests as hexadecimal text (crates/vyrm-core/src/digest.rs). */
module HexDigest {
  import opened Common
  import Digest

  function HexDigit(n: nat): Byte
    requires n < 16
  {
    if n < 10 then 48 + n else 87 + n
  }

  function Hex(b: Bytes): (h: Bytes)
    ensures |h| == 2 * |b|
  {
    if b == [] then [] else Hex(b[..|b| - 1]) + [HexDigit(b[|b| - 1] / 16), HexDigit(b[|b| - 1] % 16)]
  }

  lemma {:induction false} HexInjective(a: Bytes, b: Bytes)
    requires Hex(a) == Hex(b)
    ensures a == b
  {
    if a != [] {
      var x, y := a[|a| - 1], b[|b| - 1];
      AppendCancel(Hex(a[..|a| - 1]), [HexDigit(x / 16), HexDigit(x % 16)], Hex(b[..|b| - 1]),
                   [HexDigit(y / 16), HexDigit(y % 16)]);
      HexInjective(a[..|a| - 1], b[..|b| - 1]);
      assert [HexDigit(x / 16), HexDigit(x % 16)][0] == HexDigit(y / 16) &&
             [HexDigit(x / 16), HexDigit(x % 16)][1] == HexDigit(y % 16);
      assert a == a[..|a| - 1] + [x] && b == b[..|b| - 1] + [y];
    }
  }

  lemma {:induction false} ConcatLength(parts: seq<Bytes>, width: nat)
    requires forall i :: 0 <= i < |parts| ==> |parts[i]| == width
    ensures |Concat(parts)| == width * |parts|
  {
    if parts != [] { ConcatLength(parts[..|parts| - 1], width); }
  }

  lemma OutputLength(s: Digest.State)
    ensures |Digest.Output(s)| == 32
  {
    hide BigEndian;
    ConcatLength(seq(8, i requires 0 <= i < 8 => BigEndian(s[i] as int, 4)), 4);
  }

  /** `sha256_hex`: sixty-four lower-case digits. */
  function Sha256Hex(m: Bytes): (h: Bytes)
    ensures |h| == 64
  {
    Digest.PaddingIsFips(m, 0);
    OutputLength(Digest.Process(Digest.INITIAL, Digest.Padded(m)));
    Hex(Digest.Sha256Of(m))
  }
}
