/** Values shared by every component: results, bytes and fixed-width integers. */
module Common {

  datatype Option<+T> = None | Some(value: T)

  datatype Result<+T, +E> = Ok(value: T) | Err(error: E)

  type Byte = b: int | 0 <= b < 256

  type Bytes = seq<Byte>

  const U64_MAX: nat := 0xFFFF_FFFF_FFFF_FFFF

  predicate IsSpace(b: Byte) {
    b == 32 || 9 <= b <= 13
  }

  /** Not empty once surrounding white space is trimmed. */
  predicate ValidText(t: Bytes) {
    exists i :: 0 <= i < |t| && !IsSpace(t[i])
  }

  /** 256 to the power `width`: the number of values that fit in `width` bytes. */
  function Pow256(width: nat): (p: nat)
    ensures p >= 1
  {
    if width == 0 then 1 else 256 * Pow256(width - 1)
  }

  /** The low `width` bytes of `n`, most significant byte first. */
  function BigEndian(n: nat, width: nat): (b: Bytes)
    ensures |b| == width
  {
    if width == 0 then [] else BigEndian(n / 256, width - 1) + [n % 256]
  }

  function FromBigEndian(b: Bytes): (n: nat)
    ensures n < Pow256(|b|)
  {
    if b == [] then 0 else 256 * FromBigEndian(b[..|b| - 1]) + b[|b| - 1]
  }

  lemma {:induction false} BigEndianRoundTrip(n: nat, width: nat)
    requires n < Pow256(width)
    ensures FromBigEndian(BigEndian(n, width)) == n
  {
    if width != 0 {
      var b := BigEndian(n, width);
      assert b[..width - 1] == BigEndian(n / 256, width - 1);
      BigEndianRoundTrip(n / 256, width - 1);
    }
  }

  lemma {:induction false} FromBigEndianRoundTrip(b: Bytes)
    ensures BigEndian(FromBigEndian(b), |b|) == b
  {
    if b != [] {
      FromBigEndianRoundTrip(b[..|b| - 1]);
    }
  }

  lemma Pow256Of4()
    ensures Pow256(4) == 0x1_0000_0000
  {
    assert Pow256(3) == 256 * Pow256(2);
  }

  lemma Pow256Of8()
    ensures Pow256(8) == 0x1_0000_0000_0000_0000
  {
    Pow256Of4();
    assert Pow256(6) == 65536 * Pow256(4);
    assert Pow256(8) == 65536 * Pow256(6);
  }

  lemma BigEndianInjective(m: nat, n: nat, width: nat)
    requires m < Pow256(width) && n < Pow256(width)
    requires BigEndian(m, width) == BigEndian(n, width)
    ensures m == n
  {
    BigEndianRoundTrip(m, width);
    BigEndianRoundTrip(n, width);
  }

  lemma {:induction false} SubsetSize<T>(a: set<T>, b: set<T>)
    requires a <= b
    ensures |a| <= |b|
    decreases |a|
  {
    if x :| x in a { SubsetSize(a - {x}, b - {x}); }
  }

  // ---- Concatenation ----

  lemma AppendCancel<T>(a: seq<T>, b: seq<T>, c: seq<T>, d: seq<T>)
    requires a + b == c + d && |a| == |c|
    ensures a == c && b == d
  {
    assert a == (a + b)[..|a|] && c == (c + d)[..|c|];
    assert b == (a + b)[|a|..] && d == (c + d)[|c|..];
  }

  lemma AppendAssoc<T>(a: seq<T>, b: seq<T>, c: seq<T>)
    ensures (a + b) + c == a + (b + c)
  {
  }

  lemma SuffixSplit<T>(s: seq<T>, cursor: nat, a: seq<T>, b: seq<T>)
    requires cursor <= |s| && s[cursor..] == a + b
    ensures cursor + |a| <= |s|
    ensures s[cursor..cursor + |a|] == a && s[cursor + |a|..] == b
  {
    assert s[cursor..cursor + |a|] == s[cursor..][..|a|];
    assert s[cursor + |a|..] == s[cursor..][|a|..];
  }

  function Concat(parts: seq<Bytes>): Bytes {
    if parts == [] then [] else Concat(parts[..|parts| - 1]) + parts[|parts| - 1]
  }

  lemma {:induction false} ConcatSplit(parts: seq<Bytes>, i: nat)
    requires i <= |parts|
    ensures Concat(parts) == Concat(parts[..i]) + Concat(parts[i..])
  {
    if i == |parts| {
      assert parts[..i] == parts && parts[i..] == [];
    } else {
      var front, last := parts[..|parts| - 1], parts[|parts| - 1];
      ConcatSplit(front, i);
      assert front[..i] == parts[..i];
      assert parts[i..][..|parts[i..]| - 1] == front[i..];
      assert Concat(parts[i..]) == Concat(front[i..]) + last;
    }
  }

  lemma ConcatNext(parts: seq<Bytes>, i: nat)
    requires i < |parts|
    ensures Concat(parts[..i + 1]) == Concat(parts[..i]) + parts[i]
    ensures Concat(parts) == Concat(parts[..i]) + parts[i] + Concat(parts[i + 1..])
  {
    assert parts[..i + 1][..i] == parts[..i];
    ConcatSplit(parts, i + 1);
  }

  // ---- Byte order ----

  /** Byte-lexicographic order: the order of keys in every ordered map of the system. */
  predicate Less(a: Bytes, b: Bytes) {
    if b == [] then false
    else if a == [] then true
    else if a[0] != b[0] then a[0] < b[0]
    else Less(a[1..], b[1..])
  }

  /** `start <= k < end`, with an absent end meaning unbounded. */
  predicate InRange(k: Bytes, start: Bytes, end: Option<Bytes>) {
    !Less(k, start) && (end.Some? ==> Less(k, end.value))
  }
}
