/** The write-batch codec (crates/vyrm-kv/src/batch.rs). */
module Batch {
  import opened Common

  const WAL_MAX_PAYLOAD_BYTES: nat := 16 * 1024 * 1024
  const BATCH_HEADER_BYTES: nat := 16
  const OP_HEADER_BYTES: nat := 12
  const BATCH_FORMAT_VERSION: nat := 1
  const MAX_OPERATIONS: nat := 1_000_000
  const MAX_KEY_BYTES: nat := 1024 * 1024
  const MAX_VALUE_BYTES: nat := 8 * 1024 * 1024
  // "VYRBAT01"
  const BATCH_MAGIC: Bytes := [86, 89, 82, 66, 65, 84, 48, 49]

  datatype Mutation = Put(key: Bytes, value: Bytes) | Delete(key: Bytes)

  type WriteBatch = seq<Mutation>

  datatype CodecError = InvalidBatch | UnsupportedVersion(version: nat)

  predicate ValidMutation(m: Mutation) {
    && 1 <= |m.key| <= MAX_KEY_BYTES
    && (m.Put? ==> |m.value| <= MAX_VALUE_BYTES)
  }

  predicate ValidBatch(b: WriteBatch) {
    && 1 <= |b| <= MAX_OPERATIONS
    && forall i :: 0 <= i < |b| ==> ValidMutation(b[i])
  }

  // ---- The wire format ----

  function Payload(m: Mutation): Bytes {
    if m.Put? then m.value else []
  }

  function OperationHeader(kind: Byte, keyLength: nat, valueLength: nat): (h: Bytes)
    ensures |h| == OP_HEADER_BYTES
  {
    [kind, 0, 0, 0] + BigEndian(keyLength, 4) + BigEndian(valueLength, 4)
  }

  function OperationBytes(m: Mutation): Bytes {
    OperationHeader(if m.Put? then 1 else 2, |m.key|, |Payload(m)|) + (m.key + Payload(m))
  }

  function OperationsBytes(ops: WriteBatch): Bytes {
    Concat(seq(|ops|, i requires 0 <= i < |ops| => OperationBytes(ops[i])))
  }

  function Header(count: nat): Bytes {
    BATCH_MAGIC + BigEndian(BATCH_FORMAT_VERSION, 2) + [0, 0] + BigEndian(count, 4)
  }

  function Encoding(b: WriteBatch): Bytes {
    Header(|b|) + OperationsBytes(b)
  }

  /** A batch the encoder accepts. */
  predicate Encodable(b: WriteBatch) {
    ValidBatch(b) && |Encoding(b)| <= WAL_MAX_PAYLOAD_BYTES
  }

  lemma OperationsBytesNext(b: WriteBatch, i: nat)
    requires i < |b|
    ensures OperationsBytes(b[..i + 1]) == OperationsBytes(b[..i]) + OperationBytes(b[i])
    ensures OperationsBytes(b) == OperationsBytes(b[..i]) + OperationBytes(b[i]) + OperationsBytes(b[i + 1..])
  {
    hide OperationBytes;
    hide Concat;
    var parts := seq(|b|, k requires 0 <= k < |b| => OperationBytes(b[k]));
    ConcatNext(parts, i);
    assert parts[..i + 1] == seq(i + 1, k requires 0 <= k < i + 1 => OperationBytes(b[..i + 1][k]));
    assert parts[..i] == seq(i, k requires 0 <= k < i => OperationBytes(b[..i][k]));
    var rest := b[i + 1..];
    assert parts[i + 1..] == seq(|rest|, k requires 0 <= k < |rest| => OperationBytes(rest[k]));
  }

  // ---- Encoding ----

  /** The loop body of the encoder: one operation is pushed onto the buffer field by field. */
  method AppendOperation(buffer: Bytes, m: Mutation) returns (output: Bytes)
    ensures output == buffer + OperationBytes(m)
  {
    var kind := if m.Put? then 1 else 2;
    var value := if m.Put? then m.value else [];
    var header: Bytes := [kind];
    header := header + [0, 0, 0];
    header := header + BigEndian(|m.key|, 4);
    header := header + BigEndian(|value|, 4);
    assert header == OperationHeader(kind, |m.key|, |value|);
    output := buffer + header;
    output := output + m.key;
    output := output + value;
  }

  method Encode(b: WriteBatch) returns (r: Result<Bytes, CodecError>)
    ensures r.Ok? <==> Encodable(b)
    ensures r.Ok? ==> r.value == Encoding(b)
  {
    if !ValidBatch(b) {
      return Err(InvalidBatch);
    }
    var output := Header(|b|);
    var i := 0;
    while i < |b|
      invariant 0 <= i <= |b|
      invariant output == Header(|b|) + OperationsBytes(b[..i])
      invariant i > 0 ==> |output| <= WAL_MAX_PAYLOAD_BYTES
    {
      OperationsBytesNext(b, i);
      AppendAssoc(Header(|b|), OperationsBytes(b[..i]), OperationBytes(b[i]));
      output := AppendOperation(output, b[i]);
      if |output| > WAL_MAX_PAYLOAD_BYTES {
        return Err(InvalidBatch);
      }
      i := i + 1;
    }
    assert b[..|b|] == b;
    return Ok(output);
  }

  // ---- Decoding ----

  /** One pass of the decoder's loop: the operation at `cursor` and where it ends. */
  function DecodeOperation(bytes: Bytes, cursor: nat): (r: Option<(Mutation, nat)>)
    ensures r.Some? ==> cursor < r.value.1 <= |bytes|
  {
    if cursor + OP_HEADER_BYTES > |bytes| then None else
    var header := bytes[cursor..cursor + OP_HEADER_BYTES];
    var kind := header[0];
    if header[1..4] != [0, 0, 0] then None else
    var keyLength := FromBigEndian(header[4..8]);
    var valueLength := FromBigEndian(header[8..12]);
    if keyLength == 0 || keyLength > MAX_KEY_BYTES || valueLength > MAX_VALUE_BYTES then None else
    var start := cursor + OP_HEADER_BYTES;
    var end := start + keyLength + valueLength;
    if end > |bytes| then None else
    var body := bytes[start..end];
    var key, value := body[..keyLength], body[keyLength..];
    if kind == 1 then Some((Put(key, value), end))
    else if kind == 2 && value == [] then Some((Delete(key), end))
    else None
  }

  lemma OperationHeaderFields(kind: Byte, k: nat, v: nat)
    requires k < Pow256(4) && v < Pow256(4)
    ensures var h := OperationHeader(kind, k, v);
            h[0] == kind && h[1..4] == [0, 0, 0] && FromBigEndian(h[4..8]) == k && FromBigEndian(h[8..12]) == v
  {
    var h := OperationHeader(kind, k, v);
    assert h[4..8] == BigEndian(k, 4);
    assert h[8..12] == BigEndian(v, 4);
    BigEndianRoundTrip(k, 4);
    BigEndianRoundTrip(v, 4);
  }

  lemma OperationHeaderRebuilt(h: Bytes)
    requires |h| == OP_HEADER_BYTES && h[1..4] == [0, 0, 0]
    ensures h == OperationHeader(h[0], FromBigEndian(h[4..8]), FromBigEndian(h[8..12]))
  {
    FromBigEndianRoundTrip(h[4..8]);
    FromBigEndianRoundTrip(h[8..12]);
    assert h == [h[0]] + h[1..4] + h[4..8] + h[8..12];
  }

  /** A header and a body that agree with an operation are its bytes. */
  lemma OperationRebuilt(op: Mutation, header: Bytes, body: Bytes)
    requires |header| == OP_HEADER_BYTES && header[1..4] == [0, 0, 0] && header[0] == (if op.Put? then 1 else 2)
    requires FromBigEndian(header[4..8]) == |op.key| && FromBigEndian(header[8..12]) == |Payload(op)|
    requires |op.key| <= |body| && op.key == body[..|op.key|] && Payload(op) == body[|op.key|..]
    ensures OperationBytes(op) == header + body
  {
    hide FromBigEndian;
    hide OperationHeader;
    OperationHeaderRebuilt(header);
    Cut(body, |op.key|);
  }

  lemma DecodeOperationSound(bytes: Bytes, cursor: nat)
    requires DecodeOperation(bytes, cursor).Some?
    ensures var (op, end) := DecodeOperation(bytes, cursor).value;
            ValidMutation(op) && bytes[cursor..end] == OperationBytes(op)
  {
    hide FromBigEndian;
    hide OperationBytes;
    var (op, end) := DecodeOperation(bytes, cursor).value;
    var start := cursor + OP_HEADER_BYTES;
    OperationRebuilt(op, bytes[cursor..start], bytes[start..end]);
    CutBetween(bytes, cursor, start, end);
  }

  lemma Cut(s: Bytes, at: nat)
    requires at <= |s|
    ensures s == s[..at] + s[at..]
  {
  }

  lemma CutBetween(s: Bytes, start: nat, middle: nat, end: nat)
    requires start <= middle <= end <= |s|
    ensures s[start..end] == s[start..middle] + s[middle..end]
  {
  }

  lemma DecodeOperationComplete(bytes: Bytes, cursor: nat, op: Mutation)
    requires ValidMutation(op)
    requires cursor + |OperationBytes(op)| <= |bytes|
    requires bytes[cursor..cursor + |OperationBytes(op)|] == OperationBytes(op)
    ensures DecodeOperation(bytes, cursor) == Some((op, cursor + |OperationBytes(op)|))
  {
    hide FromBigEndian;
    hide BigEndian;
    hide OperationHeader;
    var start, end := cursor + OP_HEADER_BYTES, cursor + |OperationBytes(op)|;
    var header, body := bytes[cursor..start], bytes[start..end];
    Pow256Of4();
    OperationHeaderFields(if op.Put? then 1 else 2, |op.key|, |Payload(op)|);
    assert bytes[cursor..end] == header + body;
    AppendCancel(header, body, OperationHeader(if op.Put? then 1 else 2, |op.key|, |Payload(op)|),
                 op.key + Payload(op));
    assert body[..|op.key|] == op.key && body[|op.key|..] == Payload(op);
  }

  /** The operations that exactly fill `bytes` from `cursor` on. */
  function DecodeOperations(bytes: Bytes, cursor: nat, count: nat): (r: Option<WriteBatch>)
    decreases count
  {
    if count == 0 then if cursor == |bytes| then Some([]) else None
    else
      match DecodeOperation(bytes, cursor)
      case None => None
      case Some((operation, end)) =>
        match DecodeOperations(bytes, end, count - 1)
        case None => None
        case Some(rest) => Some([operation] + rest)
  }

  lemma OperationsBytesHead(ops: WriteBatch)
    requires ops != []
    ensures OperationsBytes(ops) == OperationBytes(ops[0]) + OperationsBytes(ops[1..])
  {
    OperationsBytesNext(ops, 0);
    assert OperationsBytes(ops[..0]) == [] by { assert |ops[..0]| == 0; }
    hide OperationsBytes;
    hide OperationBytes;
    assert ([] + OperationBytes(ops[0])) == OperationBytes(ops[0]);
  }

  lemma {:induction false} DecodeOperationsSound(bytes: Bytes, cursor: nat, count: nat)
    requires cursor <= |bytes| && DecodeOperations(bytes, cursor, count).Some?
    ensures var ops := DecodeOperations(bytes, cursor, count).value;
            |ops| == count && bytes[cursor..] == OperationsBytes(ops) && forall i :: 0 <= i < count ==>
                ValidMutation(ops[i])
    decreases count
  {
    hide DecodeOperation;
    hide OperationBytes;
    if count != 0 {
      var ops := DecodeOperations(bytes, cursor, count).value;
      var end := DecodeOperation(bytes, cursor).value.1;
      DecodeOperationSound(bytes, cursor);
      DecodeOperationsSound(bytes, end, count - 1);
      assert ops[1..] == DecodeOperations(bytes, end, count - 1).value;
      OperationsBytesHead(ops);
      assert bytes[cursor..] == bytes[cursor..end] + bytes[end..];
    }
  }

  lemma {:induction false} DecodeOperationsComplete(bytes: Bytes, cursor: nat, ops: WriteBatch)
    requires cursor <= |bytes| && bytes[cursor..] == OperationsBytes(ops)
    requires forall i :: 0 <= i < |ops| ==> ValidMutation(ops[i])
    ensures DecodeOperations(bytes, cursor, |ops|) == Some(ops)
    decreases |ops|
  {
    hide DecodeOperation;
    hide OperationBytes;
    hide ValidMutation;
    if ops != [] {
      OperationsBytesHead(ops);
      var first, rest := OperationBytes(ops[0]), OperationsBytes(ops[1..]);
      var end := cursor + |first|;
      SuffixSplit(bytes, cursor, first, rest);
      DecodeOperationComplete(bytes, cursor, ops[0]);
      DecodeOperationsComplete(bytes, end, ops[1..]);
      assert ops == [ops[0]] + ops[1..];
    }
  }

  /** The decoder as a function of its input. */
  function DecodeBatch(bytes: Bytes): Result<WriteBatch, CodecError> {
    if |bytes| < BATCH_HEADER_BYTES || bytes[0..8] != BATCH_MAGIC then Err(InvalidBatch)
    else if FromBigEndian(bytes[8..10]) != BATCH_FORMAT_VERSION then
      Err(UnsupportedVersion(FromBigEndian(bytes[8..10])))
    else if bytes[10..12] != [0, 0] then Err(InvalidBatch)
    else
      var count := FromBigEndian(bytes[12..16]);
      if count == 0 || count > MAX_OPERATIONS then Err(InvalidBatch)
      else
        match DecodeOperations(bytes, BATCH_HEADER_BYTES, count)
        case None => Err(InvalidBatch)
        case Some(operations) => Ok(operations)
  }

  method Decode(bytes: Bytes) returns (r: Result<WriteBatch, CodecError>)
    ensures r == DecodeBatch(bytes)
  {
    hide DecodeOperation;
    hide ValidMutation;
    if |bytes| < BATCH_HEADER_BYTES { return Err(InvalidBatch); }
    if bytes[0..8] != BATCH_MAGIC { return Err(InvalidBatch); }
    var version := FromBigEndian(bytes[8..10]);
    if version != BATCH_FORMAT_VERSION { return Err(UnsupportedVersion(version)); }
    if bytes[10..12] != [0, 0] { return Err(InvalidBatch); }
    var count := FromBigEndian(bytes[12..16]);
    if count == 0 || count > MAX_OPERATIONS { return Err(InvalidBatch); }
    ghost var whole := DecodeOperations(bytes, BATCH_HEADER_BYTES, count);
    var cursor := BATCH_HEADER_BYTES;
    var operations: WriteBatch := [];
    var i := 0;
    assert whole.Some? ==> operations + whole.value == whole.value;
    while i < count
      invariant 0 <= i <= count
      invariant var rest := DecodeOperations(bytes, cursor, count - i);
                whole == if rest.None? then None else Some(operations + rest.value)
    {
      var next := DecodeOperation(bytes, cursor);
      if next.None? { return Err(InvalidBatch); }
      var (operation, end) := next.value;
      ghost var rest := DecodeOperations(bytes, end, count - i - 1);
      assert rest.Some? ==> operations + ([operation] + rest.value) == (operations + [operation]) + rest.value;
      operations := operations + [operation];
      cursor := end;
      i := i + 1;
    }
    if cursor != |bytes| { return Err(InvalidBatch); }
    assert operations + [] == operations;
    return Ok(operations);
  }

  // ---- Encoding and decoding are mutual inverses ----

  lemma HeaderShape(count: nat)
    requires count <= MAX_OPERATIONS
    ensures |Header(count)| == BATCH_HEADER_BYTES
    ensures Header(count)[0..8] == BATCH_MAGIC && Header(count)[10..12] == [0, 0]
    ensures FromBigEndian(Header(count)[8..10]) == BATCH_FORMAT_VERSION
    ensures FromBigEndian(Header(count)[12..16]) == count
  {
    var h := Header(count);
    assert h[8..10] == BigEndian(BATCH_FORMAT_VERSION, 2);
    assert h[12..16] == BigEndian(count, 4);
    assert Pow256(2) == 0x1_0000;
    Pow256Of4();
    BigEndianRoundTrip(BATCH_FORMAT_VERSION, 2);
    BigEndianRoundTrip(count, 4);
  }

  /** Header fields that pass the decoder's checks leave no other header possible. */
  lemma HeaderRebuilt(h: Bytes)
    requires |h| == BATCH_HEADER_BYTES
    requires h[0..8] == BATCH_MAGIC && h[10..12] == [0, 0]
    requires FromBigEndian(h[8..10]) == BATCH_FORMAT_VERSION
    ensures h == Header(FromBigEndian(h[12..16]))
  {
    FromBigEndianRoundTrip(h[8..10]);
    FromBigEndianRoundTrip(h[12..16]);
    assert h == h[0..8] + h[8..10] + h[10..12] + h[12..16];
  }

  /** Every valid batch is recovered from its encoding. */
  lemma DecodeOfEncoding(b: WriteBatch)
    requires ValidBatch(b)
    ensures DecodeBatch(Encoding(b)) == Ok(b)
  {
    var bytes := Encoding(b);
    var h := Header(|b|);
    HeaderShape(|b|);
    assert bytes[..16] == h && bytes[16..] == OperationsBytes(b);
    assert bytes[0..8] == h[0..8] && bytes[8..10] == h[8..10] && bytes[10..12] == h[10..12] &&
           bytes[12..16] == h[12..16];
    DecodeOperationsComplete(bytes, BATCH_HEADER_BYTES, b);
  }

  /** Every byte string that decodes is the one encoding of its result. */
  lemma EncodingOfDecode(bytes: Bytes)
    requires DecodeBatch(bytes).Ok?
    ensures ValidBatch(DecodeBatch(bytes).value) && Encoding(DecodeBatch(bytes).value) == bytes
    ensures |bytes| <= WAL_MAX_PAYLOAD_BYTES ==> Encodable(DecodeBatch(bytes).value)
  {
    var b, h := DecodeBatch(bytes).value, bytes[..16];
    DecodeOperationsSound(bytes, BATCH_HEADER_BYTES, FromBigEndian(bytes[12..16]));
    assert bytes[0..8] == h[0..8] && bytes[8..10] == h[8..10] && bytes[10..12] == h[10..12] &&
           bytes[12..16] == h[12..16];
    HeaderRebuilt(h);
    assert bytes == h + bytes[16..];
  }
}
