/** The observer's packet identifier (reporter.py): a second, independent reader of the packet layout. */
module Observer {
  import opened Bytes
  import opened Wrappers
  import opened Packets

  /**
    calculate_packet_hash up to the hash itself: the bytes fed to SHA-256, or None for the all-zero
    identifier. `given` is the optional payload type argument.
   */
  method PacketHashInput(raw: bytes, given: Option<int>) returns (input: Option<bytes>)
    ensures input == HashInput(raw, given)
  {
    if raw == [] {
      return None;
    }
    var header := raw[0];
    var payloadType := if given.Some? then given.value else header / 4 % 16;
    var routeType := header % 4;
    var hasTransport := routeType == 0 || routeType == 3;
    var offset := 1 + if hasTransport then 4 else 0;
    if |raw| <= offset {
      return None;
    }
    var pathLenByte := raw[offset];
    offset := offset + 1;
    var (hops, hashSize) := DecodePathLen(pathLenByte);
    var payloadStart := offset + hops * hashSize;
    if payloadStart > |raw| {
      return None;
    }
    if !(0 <= payloadType < 256) {
      return None;
    }
    var fed: bytes := [payloadType];
    if payloadType == TYPE_TRACE {
      fed := fed + Le2(pathLenByte);
    }
    assert fed == [payloadType] + if payloadType == TYPE_TRACE then Le2(pathLenByte) else [];
    fed := fed + raw[payloadStart..];
    return Some(fed);
  }

  function HashInput(raw: bytes, given: Option<int>): Option<bytes> {
    if raw == [] then None
    else
      var at := PathLenAt(raw);
      if |raw| <= at then None
      else
        var (hops, hashSize) := DecodePathLen(raw[at]);
        var start := at + 1 + hops * hashSize;
        var payloadType := if given.Some? then given.value else raw[0] / 4 % 16;
        if start > |raw| || !(0 <= payloadType < 256) then None
        else Some(Identity(payloadType, raw[at], raw[start..]))
  }

  /** Payload type, path length for TRACE only, payload. */
  function Identity(payloadType: byte, pathLen: byte, payload: bytes): bytes {
    [payloadType] + (if payloadType == TYPE_TRACE then Le2(pathLen) else []) + payload
  }

  /**
    On every packet the decoder accepts, the observer hashes exactly the decoded type and payload, plus the path_len
    byte of a TRACE.
   */
  lemma ParsersAgree(raw: bytes)
    requires Decode(raw).Success?
    ensures var p := Decode(raw).value;
      && WellFormed(p)
      && HashInput(raw, None) == Some(Identity(p.payloadType, EncodePathLen(HashCount(p), p.hashSize).value, p.payload))
  {
    EncodeOfDecode(raw);
    var at := PathLenAt(raw);
    var (hops, hashSize) := DecodePathLen(raw[at]);
    WholeHops(hops, hashSize);
    PathLenBijection(raw[at], hops, hashSize);
  }

  /** They differ on nothing else: the observer hashes a frame the decoder refuses iff only its path is too long. */
  lemma ParsersDifferExactly(raw: bytes)
    ensures HashInput(raw, None).Some? && Decode(raw).Failure? <==>
      Decode(raw) == Failure(PathTooLong)
      && var at := PathLenAt(raw); var (hops, hashSize) := DecodePathLen(raw[at]); at + 1 + hops * hashSize <= |raw|
  {
  }

  /**
    Packets other than TRACE with the same type and payload get the same identifier, whatever their route,
    transport codes, version or path; and the hashed bytes determine type and payload.
   */
  lemma SameMessageSameIdentity(a: bytes, b: bytes)
    requires Decode(a).Success? && Decode(b).Success?
    requires Decode(a).value.payloadType != TYPE_TRACE && Decode(b).value.payloadType != TYPE_TRACE
    ensures HashInput(a, None) == HashInput(b, None) <==>
      Decode(a).value.payloadType == Decode(b).value.payloadType && Decode(a).value.payload == Decode(b).value.payload
  {
    ParsersAgree(a);
    ParsersAgree(b);
    var x, y := HashInput(a, None).value, HashInput(b, None).value;
    assert x[0] == Decode(a).value.payloadType && x[1..] == Decode(a).value.payload;
    assert y[0] == Decode(b).value.payloadType && y[1..] == Decode(b).value.payload;
  }
}
