/** Claim keys: the byte encoding whose order implements bi-temporal resolution (crates/vyrm-core/src/key.rs). */
module Keys {
  import opened Common
  import opened ByteOrder

  const SEP: Byte := 0
  // "c/"
  const CLAIM_NS: Bytes := [99, 47]
  const INV_WIDTH: nat := 20

  /** A validated identifier: non-empty and free of the separator. */
  type Ident = b: Bytes | b != [] && SEP !in b witness [97]

  type Millis = t: nat | t <= U64_MAX

  // ---- Zero-padded decimals ----

  function Pow10(width: nat): nat {
    if width == 0 then 1 else 10 * Pow10(width - 1)
  }

  function Decimal(n: nat, width: nat): (d: Bytes)
    ensures |d| == width
  {
    if width == 0 then [] else Decimal(n / 10, width - 1) + [48 + n % 10]
  }

  lemma U64FitsWidth()
    ensures U64_MAX < Pow10(INV_WIDTH)
  {
    assert Pow10(5) == 100_000 by { assert Pow10(2) == 100; assert Pow10(4) == 100 * Pow10(2); }
    Pow10Sum(5, 5);
    Pow10Sum(10, 10);
  }

  lemma {:induction false} Pow10Sum(a: nat, b: nat)
    ensures Pow10(a + b) == Pow10(a) * Pow10(b)
  {
    if a > 0 { Pow10Sum(a - 1, b); }
  }

  /** Equal-length prefixes decide first. */
  lemma {:induction false} LessFields(a: Bytes, x: Bytes, b: Bytes, y: Bytes)
    requires |a| == |b|
    ensures Less(a + x, b + y) <==> Less(a, b) || (a == b && Less(x, y))
  {
    if a == [] {
      assert a + x == x && b + y == y;
    } else {
      assert (a + x)[1..] == a[1..] + x && (b + y)[1..] == b[1..] + y;
      LessFields(a[1..], x, b[1..], y);
      assert a == [a[0]] + a[1..] && b == [b[0]] + b[1..];
    }
  }

  lemma {:induction false} DecimalOrder(m: nat, n: nat, width: nat)
    requires m < Pow10(width) && n < Pow10(width)
    ensures Less(Decimal(m, width), Decimal(n, width)) <==> m < n
    ensures Decimal(m, width) == Decimal(n, width) <==> m == n
  {
    if width > 0 {
      DecimalOrder(m / 10, n / 10, width - 1);
      var a, b := Decimal(m / 10, width - 1), Decimal(n / 10, width - 1);
      var x: Bytes, y: Bytes := [48 + m % 10], [48 + n % 10];
      LessFields(a, x, b, y);
      assert Less(x, y) <==> m % 10 < n % 10 by { assert x[1..] == [] && y[1..] == []; }
      if a + x == b + y { AppendCancel(a, x, b, y); }
    }
  }

  // ---- Keys ----

  function Invert(t: Millis): Millis {
    U64_MAX - t
  }

  function Inverted(t: Millis): (d: Bytes)
    ensures |d| == INV_WIDTH
  {
    Decimal(Invert(t), INV_WIDTH)
  }

  lemma InvertedOrder(s: Millis, t: Millis)
    ensures Less(Inverted(s), Inverted(t)) <==> s > t
    ensures Inverted(s) == Inverted(t) <==> s == t
  {
    U64FitsWidth();
    DecimalOrder(Invert(s), Invert(t), INV_WIDTH);
  }

  function SubjectPrefix(subject: Ident): Bytes {
    CLAIM_NS + (subject + [SEP])
  }

  function VersionPrefix(subject: Ident, pred: Ident): Bytes {
    SubjectPrefix(subject) + (pred + [SEP])
  }

  function ValidFromBound(subject: Ident, pred: Ident, validFrom: Millis): Bytes {
    VersionPrefix(subject, pred) + (Inverted(validFrom) + [SEP])
  }

  function SeekKey(subject: Ident, pred: Ident, asOf: Millis): Bytes {
    ValidFromBound(subject, pred, asOf)
  }

  function ClaimKey(subject: Ident, pred: Ident, validFrom: Millis, txTime: Millis): Bytes {
    ValidFromBound(subject, pred, validFrom) + Inverted(txTime)
  }

  // ---- Prefix ranges ----

  /** The exclusive upper bound of a prefix scan: drop trailing 0xFF, increment the last byte left. */
  method PrefixEnd(prefix: Bytes) returns (end: Option<Bytes>)
    ensures end == PrefixBound(prefix)
  {
    var buffer := prefix;
    while buffer != []
      invariant PrefixBound(prefix) == PrefixBound(buffer)
      decreases |buffer|
    {
      var last := |buffer| - 1;
      if buffer[last] < 255 {
        return Some(buffer[last := buffer[last] + 1]);
      }
      buffer := buffer[..last];
    }
    return None;
  }

  function PrefixBound(prefix: Bytes): Option<Bytes> {
    if prefix == [] then None
    else if prefix[|prefix| - 1] < 255 then Some(prefix[|prefix| - 1 := prefix[|prefix| - 1] + 1])
    else PrefixBound(prefix[..|prefix| - 1])
  }

  /** Extensions of one common prefix that differ in the next byte. */
  lemma LessAt(p: Bytes, x: Byte, a: Bytes, y: Byte, b: Bytes)
    requires x < y
    ensures Less(p + ([x] + a), p + ([y] + b))
  {
    LessSharedPrefix(p, [x] + a, [y] + b);
  }

  lemma LessEmpty(p: Bytes, a: Bytes)
    ensures !Less(p + a, p)
  {
    LessSharedPrefix(p, a, []);
    assert p + [] == p;
  }

  /** A key at or above a prefix either extends it or exceeds every extension of it. */
  lemma {:induction false} AtOrAbovePrefix(p: Bytes, k: Bytes)
    requires !Less(k, p) && !(p <= k)
    ensures forall e: Bytes :: Less(p + e, k)
  {
    if p != [] && k != [] && k[0] == p[0] {
      assert p == [p[0]] + p[1..] && k == [k[0]] + k[1..];
      AtOrAbovePrefix(p[1..], k[1..]);
      forall e: Bytes ensures Less(p + e, k) { assert (p + e)[1..] == p[1..] + e; }
    }
  }

  /** The scan range of a prefix holds exactly the keys that extend it. */
  lemma {:induction false} PrefixRange(p: Bytes, k: Bytes)
    ensures InRange(k, p, PrefixBound(p)) <==> p <= k
    decreases |p|
  {
    if p == [] {
    } else {
      var n := |p| - 1;
      var front, last := p[..n], p[n];
      assert p == front + [last];
      if p <= k {
        assert k == p + k[|p|..];
        LessEmpty(p, k[|p|..]);
        PrefixBoundAbove(p, k[|p|..]);
      } else if !Less(k, p) {
        AtOrAbovePrefix(p, k);
        NothingBetween(p, k);
      }
    }
  }

  lemma {:induction false} PrefixBoundAbove(p: Bytes, e: Bytes)
    ensures PrefixBound(p).Some? ==> Less(p + e, PrefixBound(p).value)
    decreases |p|
  {
    if p != [] {
      var n := |p| - 1;
      var front, last := p[..n], p[n];
      assert p + e == front + ([last] + e);
      if last < 255 {
        assert PrefixBound(p).value == front + ([last + 1] + []);
        LessAt(front, last, e, last + 1, []);
      } else {
        PrefixBoundAbove(front, [last] + e);
      }
    }
  }

  /** A key above every extension of a prefix is not below the prefix's bound. */
  lemma {:induction false} NothingBetween(p: Bytes, k: Bytes)
    requires p != [] && !(p <= k) && forall e: Bytes :: Less(p + e, k)
    ensures PrefixBound(p).Some? && !Less(k, PrefixBound(p).value)
    decreases |p|
  {
    var n := |p| - 1;
    var front, last := p[..n], p[n];
    assert p == front + [last];
    assert Less(p + [], k) && p + [] == p;
    if front <= k {
      var rest := k[n..];
      assert k == front + rest;
      LessSharedPrefix(front, [last], rest);
      assert rest != [] && (rest[0] == last ==> p <= k);
      assert [last][1..] == [] && rest[0] > last;
      assert PrefixBound(p).value == front + [last + 1];
      LessSharedPrefix(front, rest, [last + 1]);
      assert [last + 1][1..] == [];
    } else {
      assert !Less(k, front) by {
        if Less(k, front) { LessExtends(k, front, [last]); LessAsymmetric(k, p); }
      }
      assert front != [];
      AtOrAbovePrefix(front, k);
      if last < 255 {
        assert PrefixBound(p).value == front + [last + 1];
        assert Less(front + [last + 1], k);
        LessAsymmetric(front + [last + 1], k);
      } else {
        NothingBetween(front, k);
      }
    }
  }

  lemma {:induction false} LessExtends(k: Bytes, p: Bytes, e: Bytes)
    requires Less(k, p)
    ensures Less(k, p + e)
  {
    if k != [] && k[0] == p[0] {
      LessExtends(k[1..], p[1..], e);
      assert (p + e)[1..] == p[1..] + e;
    }
  }

  // ---- Fields ----

  /** A separator-free field and its separator end at one place only. */
  lemma {:induction false} FieldUnique(a: Bytes, x: Bytes, b: Bytes, y: Bytes)
    requires SEP !in a && SEP !in b && a + ([SEP] + x) == b + ([SEP] + y)
    ensures a == b && x == y
  {
    if a == [] {
      assert (a + ([SEP] + x))[0] == SEP;
      if b != [] { FieldStarts(b, y); }
      assert a + ([SEP] + x) == [SEP] + x && b + ([SEP] + y) == [SEP] + y;
      AppendCancel([SEP], x, [SEP], y);
    } else {
      FieldStarts(a, x);
      assert b != [];
      FieldStarts(b, y);
      assert (a + ([SEP] + x))[1..] == a[1..] + ([SEP] + x) && (b + ([SEP] + y))[1..] == b[1..] + ([SEP] + y);
      FieldUnique(a[1..], x, b[1..], y);
      assert a == [a[0]] + a[1..] && b == [b[0]] + b[1..];
    }
  }

  lemma FieldStarts(a: Bytes, x: Bytes)
    requires a != [] && SEP !in a
    ensures (a + ([SEP] + x))[0] == a[0] != SEP
  {
  }

  /** A terminated field is a prefix of another record only when that record starts with the same field. */
  lemma FieldPrefix(a: Bytes, b: Bytes, y: Bytes)
    requires SEP !in a && SEP !in b
    ensures a + [SEP] <= b + ([SEP] + y) <==> a == b
  {
    var k := b + ([SEP] + y);
    if a + [SEP] <= k {
      var x := k[|a| + 1..];
      assert k == a + ([SEP] + x);
      FieldUnique(a, x, b, y);
    }
    if a == b { assert k == (a + [SEP]) + y; }
  }

  lemma SharedPrefix(p: Bytes, a: Bytes, b: Bytes)
    ensures p + a <= p + b <==> a <= b
  {
    if p + a <= p + b {
      assert a == (p + a)[|p|..] == (p + b)[..|p + a|][|p|..] == b[..|a|];
    }
  }

  // ---- What the key order means ----

  function Versioned(validFrom: Millis, txTime: Millis): Bytes {
    (Inverted(validFrom) + [SEP]) + Inverted(txTime)
  }

  lemma KeyParts(subject: Ident, pred: Ident, validFrom: Millis, txTime: Millis)
    ensures var k := ClaimKey(subject, pred, validFrom, txTime);
            && k == VersionPrefix(subject, pred) + Versioned(validFrom, txTime)
            && k == SubjectPrefix(subject) + (pred + ([SEP] + Versioned(validFrom, txTime)))
            && k == CLAIM_NS + (subject + ([SEP] + (pred + ([SEP] + Versioned(validFrom, txTime)))))
  {
    hide Inverted;
  }

  /** The prefix of one subject and predicate covers exactly their own versions. */
  lemma VersionPrefixCovers(subject: Ident, pred: Ident, s: Ident, p: Ident, validFrom: Millis, txTime: Millis)
    ensures VersionPrefix(subject, pred) <= ClaimKey(s, p, validFrom, txTime) <==> subject == s && pred == p
  {
    hide ClaimKey;
    hide Versioned;
    KeyParts(s, p, validFrom, txTime);
    SubjectPrefixCovers(subject, s, p, validFrom, txTime);
    var k, v := ClaimKey(s, p, validFrom, txTime), Versioned(validFrom, txTime);
    assert VersionPrefix(subject, pred) <= k ==> SubjectPrefix(subject) <= k;
    if subject == s {
      SharedPrefix(SubjectPrefix(s), pred + [SEP], p + ([SEP] + v));
      FieldPrefix(pred, p, v);
    }
  }

  lemma SubjectPrefixCovers(subject: Ident, s: Ident, p: Ident, validFrom: Millis, txTime: Millis)
    ensures SubjectPrefix(subject) <= ClaimKey(s, p, validFrom, txTime) <==> subject == s
  {
    hide ClaimKey;
    hide Versioned;
    KeyParts(s, p, validFrom, txTime);
    var rest := p + ([SEP] + Versioned(validFrom, txTime));
    SharedPrefix(CLAIM_NS, subject + [SEP], s + ([SEP] + rest));
    FieldPrefix(subject, s, rest);
  }

  lemma VersionedOrder(v: Millis, x: Millis, w: Millis, y: Millis)
    ensures Less(Versioned(v, x), Versioned(w, y)) <==> v > w || (v == w && x > y)
    ensures Versioned(v, x) == Versioned(w, y) <==> v == w && x == y
  {
    hide Inverted;
    InvertedOrder(v, w);
    InvertedOrder(x, y);
    var a, b := Inverted(v) + [SEP], Inverted(w) + [SEP];
    LessFields(Inverted(v), [SEP], Inverted(w), [SEP]);
    LessIrreflexive([SEP]);
    LessFields(a, Inverted(x), b, Inverted(y));
    if a == b { AppendCancel(Inverted(v), [SEP], Inverted(w), [SEP]); }
    if Versioned(v, x) == Versioned(w, y) { AppendCancel(a, Inverted(x), b, Inverted(y)); }
  }

  /** Within one subject and predicate, keys run from the newest valid time to the oldest, latest recording first. */
  lemma NewestFirst(s: Ident, p: Ident, v: Millis, x: Millis, w: Millis, y: Millis)
    ensures Less(ClaimKey(s, p, v, x), ClaimKey(s, p, w, y)) <==> v > w || (v == w && x > y)
  {
    hide ClaimKey;
    hide Versioned;
    hide VersionPrefix;
    KeyParts(s, p, v, x);
    KeyParts(s, p, w, y);
    LessSharedPrefix(VersionPrefix(s, p), Versioned(v, x), Versioned(w, y));
    VersionedOrder(v, x, w, y);
  }

  /** Seeking an instant skips exactly the versions that start after it. */
  lemma SeekSkipsFuture(s: Ident, p: Ident, asOf: Millis, v: Millis, x: Millis)
    ensures !Less(ClaimKey(s, p, v, x), SeekKey(s, p, asOf)) <==> v <= asOf
  {
    hide VersionPrefix;
    hide Inverted;
    KeyParts(s, p, v, x);
    var prefix := VersionPrefix(s, p);
    LessSharedPrefix(prefix, Versioned(v, x), Inverted(asOf) + [SEP]);
    InvertedOrder(v, asOf);
    LessFields(Inverted(v), [SEP], Inverted(asOf), [SEP]);
    LessIrreflexive([SEP]);
    var a, b := Inverted(v) + [SEP], Inverted(asOf) + [SEP];
    LessFields(a, Inverted(x), b, []);
    assert b + [] == b;
    if a == b { AppendCancel(Inverted(v), [SEP], Inverted(asOf), [SEP]); }
  }

  lemma ClaimKeyInjective(s: Ident, p: Ident, v: Millis, x: Millis, s': Ident, p': Ident, w: Millis, y: Millis)
    requires ClaimKey(s, p, v, x) == ClaimKey(s', p', w, y)
    ensures s == s' && p == p' && v == w && x == y
  {
    hide Versioned;
    hide Inverted;
    VersionPrefixCovers(s, p, s', p', w, y);
    KeyParts(s, p, v, x);
    KeyParts(s', p', w, y);
    hide ClaimKey;
    hide VersionPrefix;
    var prefix := VersionPrefix(s, p);
    assert prefix <= ClaimKey(s, p, v, x);
    AppendCancel(prefix, Versioned(v, x), prefix, Versioned(w, y));
    VersionedOrder(v, x, w, y);
  }

  // ---- Parsing ----

  /** The part of `bytes` before the first separator and, if there is one, the part after it. */
  function SplitField(bytes: Bytes): (r: (Bytes, Option<Bytes>))
    ensures SEP !in r.0
    ensures match r.1 case None => bytes == r.0 case Some(rest) => bytes == r.0 + ([SEP] + rest)
  {
    if bytes == [] then ([], None)
    else if bytes[0] == SEP then ([], Some(bytes[1..]))
    else
      var (field, rest) := SplitField(bytes[1..]);
      ([bytes[0]] + field, rest)
  }

  /** `parse_claim_key`: the identifiers of a claim key, when both fields are there and not empty. */
  function ParseClaimKey(key: Bytes): Option<(Ident, Ident)> {
    if !(CLAIM_NS <= key) then None
    else
      var (subject, rest) := SplitField(key[|CLAIM_NS|..]);
      if rest.None? then None
      else
        var pred := SplitField(rest.value).0;
        if subject == [] || pred == [] then None else Some((subject, pred))
  }

  /** Every claim key gives back the subject and the predicate it was built from. */
  lemma ParseOfClaimKey(s: Ident, p: Ident, v: Millis, x: Millis)
    ensures ParseClaimKey(ClaimKey(s, p, v, x)) == Some((s, p))
  {
    hide ClaimKey;
    hide Versioned;
    KeyParts(s, p, v, x);
    var k, tail := ClaimKey(s, p, v, x), Versioned(v, x);
    var body := k[|CLAIM_NS|..];
    assert body == s + ([SEP] + (p + ([SEP] + tail)));
    var (subject, rest) := SplitField(body);
    assert body[|s|] == SEP && rest.Some?;
    FieldUnique(subject, rest.value, s, p + ([SEP] + tail));
    var (pred, after) := SplitField(rest.value);
    assert rest.value[|p|] == SEP && after.Some?;
    FieldUnique(pred, after.value, p, tail);
  }
}
