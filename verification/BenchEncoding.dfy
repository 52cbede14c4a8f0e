/** The request encoder written by hand in benchmark/web/bench.js, against the Go decoder. */
module BenchEncoding {
  import opened Words
  import opened Wire
  import opened Records
  import L = Leaves
  import E = Envelopes

  /** Integers a JavaScript number represents exactly. */
  type SafeNat = n: int | 0 <= n < 0x20_0000_0000_0000

  /** The loop of `encodeVarint`. */
  method EncodeVarint(value: SafeNat) returns (out: seq<byte>)
    ensures out == VarintBytes(value)
  {
    out := [];
    var v: nat := value;
    while v > 0x7F
      invariant out + VarintBytes(v) == VarintBytes(value)
    {
      out := out + [v % 128 + 128];
      v := v / 128;
    }
    out := out + [v];
  }

  /** `encodeString` and `encodeBytes`, for the UTF-8 bytes of a string or for bytes; empty values are written. */
  function EncodeBytes(number: nat, bytes: seq<byte>): seq<byte>
    requires number <= 15
  {
    VarintBytes(number * 8 + 2) + VarintBytes(|bytes|) + bytes
  }

  /** `encodeRpcRequest`: the oneof field first, then the port, zero or not. */
  function EncodeRpcRequest(port: SafeNat, path: seq<byte>, payload: seq<byte>): seq<byte> {
    EncodeBytes(10, EncodeBytes(1, path) + EncodeBytes(2, payload)) + VarintBytes(5 * 8 + 0) + VarintBytes(port)
  }

  lemma BytesRecord(number: nat, bytes: Bytes)
    requires number <= 15
    ensures EncodeBytes(number, bytes) == RecordBytes(number, Data(bytes))
  {
    assert VarintBytes(number * 8 + 2) == [TagByte(number, 2)];
  }

  lemma PortRecord(port: SafeNat)
    ensures VarintBytes(5 * 8 + 0) + VarintBytes(port) == RecordBytes(5, Num(port))
  {
    assert VarintBytes(40) == [TagByte(5, 0)];
  }

  /** The page's request in figures; nothing is left out, zero or empty. */
  lemma BenchBytes(port: SafeNat, path: seq<byte>, payload: seq<byte>)
    ensures EncodeRpcRequest(port, path, payload) ==
      [0x52] + SliceBytes([0x0a] + SliceBytes(path) + ([0x12] + SliceBytes(payload))) + [0x28] + VarintBytes(port)
    ensures EncodeRpcRequest(0, [], []) == [0x52, 4, 0x0a, 0, 0x12, 0, 0x28, 0]
  {
    FieldBytesAre(1, path);
    FieldBytesAre(2, payload);
    FieldBytesAre(10, EncodeBytes(1, path) + EncodeBytes(2, payload));
    assert VarintBytes(40) == [0x28];
    assert VarintBytes(10) == [0x0a] && VarintBytes(18) == [0x12] && VarintBytes(82) == [0x52];
    assert VarintBytes(0) == [0] && VarintBytes(4) == [4];
    assert EncodeBytes(1, []) == [0x0a, 0] && EncodeBytes(2, []) == [0x12, 0];
    assert EncodeBytes(10, [0x0a, 0] + [0x12, 0]) == [0x52, 4, 0x0a, 0, 0x12, 0];
  }

  lemma FieldBytesAre(number: nat, bytes: seq<byte>)
    requires number <= 15
    ensures EncodeBytes(number, bytes) == [8 * number + 2] + SliceBytes(bytes)
  {
    assert VarintBytes(number * 8 + 2) == [number * 8 + 2];
  }

  /** The Go side reads the inner message as the path and payload given, empty ones included. */
  lemma InnerDecodes(path: Bytes, payload: Bytes)
    requires |EncodeBytes(1, path) + EncodeBytes(2, payload)| < TWO_63
    ensures
      L.DecodeOnto(L.RPC_REQUEST_SCHEMA, L.Empty(L.RPC_REQUEST_SCHEMA),
        EncodeBytes(1, path) + EncodeBytes(2, payload)) ==
        Ok(L.Leaf([Data(path), Data(payload)], []))
  {
    hide ReadAll, L.DecodeFrom, RecordBytes, EncodeBytes;
    var schema := L.RPC_REQUEST_SCHEMA;
    var fields := L.FieldsOf(schema);
    BytesRecord(1, path);
    BytesRecord(2, payload);
    RecordReads(fields, 1, Data(path));
    RecordReads(fields, 2, Data(payload));
    ReadAllConcat(fields, EncodeBytes(1, path), EncodeBytes(2, payload));
    L.DecodeStoresRecords(schema, L.Empty(schema), EncodeBytes(1, path) + EncodeBytes(2, payload), 0);
    var first, second := Known(1, Data(path)), Known(2, Data(payload));
    var m1 := L.Stored(L.Empty(schema), first);
    assert [first] + [second] == [first, second] && [first, second][1..] == [second] && [second][1..] == [];
    assert L.StoredAll(schema, m1, [second]) == L.Stored(m1, second);
    assert L.StoredAll(schema, L.Empty(schema), [first, second]) == L.StoredAll(schema, m1, [second]);
    assert L.Stored(m1, second).values == [Data(path), Data(payload)];
  }

  /** Whatever request the page encodes, the Go decoder reads that port, path and payload. */
  lemma GoReadsBenchRequest(port: SafeNat, path: Bytes, payload: Bytes)
    requires |EncodeRpcRequest(port, path, payload)| < TWO_63
    ensures
      E.DecodeOnto(E.REQUEST_SCHEMA, E.EMPTY_ENVELOPE, EncodeRpcRequest(port, path, payload)) ==
        Ok(E.Envelope(port, E.Arm(10, E.Some(L.Leaf([Data(path), Data(payload)], []))), []))
  {
    hide ReadAll, L.DecodeFrom, E.DecodeFrom, RecordBytes, VarintBytes;
    var schema := E.REQUEST_SCHEMA;
    E.BothAreWellShaped();
    var inner := EncodeBytes(1, path) + EncodeBytes(2, payload);
    var arm, portBytes := EncodeBytes(10, inner), VarintBytes(5 * 8 + 0) + VarintBytes(port);
    assert EncodeRpcRequest(port, path, payload) == arm + portBytes;
    InnerDecodes(path, payload);
    BytesRecord(10, inner);
    PortRecord(port);
    E.OneArmDecodes(schema, E.EMPTY_ENVELOPE, 10, inner);
    var m := E.DecodeOnto(schema, E.EMPTY_ENVELOPE, arm).value;
    E.ConcatenationMerges(schema, E.EMPTY_ENVELOPE, arm, portBytes);
    RecordReads(E.FieldsOf(schema), 5, Num(port));
    E.DecodeStoresRecords(schema, m, portBytes, 0);
    var r := Known(5, Num(port));
    assert [r][1..] == [];
    assert E.StoredAll(schema, m, [r]) == E.Stored(schema, m, r);
  }
}
