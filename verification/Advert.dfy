/** Advertisement payloads (advert.py). Latitude and longitude are the 32-bit micro-degree integers on the wire. */
module Advert {
  import opened Bytes
  import opened Wrappers
  import opened Crypto

  const HEADER_SIZE := PUB_KEY_SIZE + 4 + SIGNATURE_SIZE

  datatype AdvertData = AdvertData(advType: int, name: bytes, lat: Option<int>, lon: Option<int>,
                                   feat1: Option<int>, feat2: Option<int>)

  datatype AdvertError = HalfPosition | OutOfRange | EmptyData | ShortPosition | ShortFeat1 | ShortFeat2 | ShortPayload

  // ---- app data ----

  predicate Encodable(a: AdvertData) {
    && (a.lat.Some? <==> a.lon.Some?)
    && (a.lat.Some? ==> IsI32(a.lat.value)) && (a.lon.Some? ==> IsI32(a.lon.value))
    && (a.feat1.Some? ==> IsU16(a.feat1.value)) && (a.feat2.Some? ==> IsU16(a.feat2.value))
  }

  function Flags(advType: int, position: bool, feat1: bool, feat2: bool, named: bool): byte {
    advType % 16 + (if position then 16 else 0) + (if feat1 then 32 else 0) + (if feat2 then 64 else 0)
    + (if named then 128 else 0)
  }

  function FlagsOf(a: AdvertData): byte {
    Flags(a.advType, a.lat.Some?, a.feat1.Some?, a.feat2.Some?, a.name != [])
  }

  function PositionWire(a: AdvertData): bytes
    requires Encodable(a)
  {
    if a.lat.Some? then SignedLe4(a.lat.value) + SignedLe4(a.lon.value) else []
  }

  function FeatWire(feat: Option<int>): bytes
    requires feat.Some? ==> IsU16(feat.value)
  {
    if feat.Some? then Le2(feat.value) else []
  }

  function DataWire(a: AdvertData): bytes
    requires Encodable(a)
  {
    [FlagsOf(a)] + PositionWire(a) + FeatWire(a.feat1) + FeatWire(a.feat2) + a.name
  }

  method EncodeData(a: AdvertData) returns (r: Result<bytes, AdvertError>)
    ensures r.Success? <==> Encodable(a)
    ensures r.Success? ==> r.value == DataWire(a)
    ensures r.Failure? ==> r.error == if a.lat.Some? != a.lon.Some? then HalfPosition else OutOfRange
  {
    var flags: int := a.advType % 16;
    var position: bytes := [];
    if a.lat.Some? || a.lon.Some? {
      if a.lat.None? || a.lon.None? {
        return Failure(HalfPosition);
      }
      flags := flags + 16;
      if !IsI32(a.lat.value) || !IsI32(a.lon.value) {
        return Failure(OutOfRange);
      }
      position := SignedLe4(a.lat.value) + SignedLe4(a.lon.value);
    }
    if a.feat1.Some? {
      flags := flags + 32;
    }
    if a.feat2.Some? {
      flags := flags + 64;
    }
    var feats := EncodeFeats(a.feat1, a.feat2);
    if feats.Failure? {
      return Failure(feats.error);
    }
    if a.name != [] {
      flags := flags + 128;
    }
    assert flags == FlagsOf(a);
    var body := position + feats.value + a.name;
    assert [flags] + body == [flags] + position + FeatWire(a.feat1) + FeatWire(a.feat2) + a.name;
    return Success([flags] + body);
  }

  method EncodeFeats(feat1: Option<int>, feat2: Option<int>) returns (r: Result<bytes, AdvertError>)
    ensures r.Success? <==> (feat1.Some? ==> IsU16(feat1.value)) && (feat2.Some? ==> IsU16(feat2.value))
    ensures r.Success? ==> r.value == FeatWire(feat1) + FeatWire(feat2)
    ensures r.Failure? ==> r.error == OutOfRange
  {
    var body: bytes := [];
    if feat1.Some? {
      if !IsU16(feat1.value) {
        return Failure(OutOfRange);
      }
      body := body + Le2(feat1.value);
    }
    if feat2.Some? {
      if !IsU16(feat2.value) {
        return Failure(OutOfRange);
      }
      body := body + Le2(feat2.value);
    }
    return Success(body);
  }

  predicate HasPosition(flags: byte) { flags / 16 % 2 == 1 }
  predicate HasFeat1(flags: byte) { flags / 32 % 2 == 1 }
  predicate HasFeat2(flags: byte) { flags / 64 % 2 == 1 }
  predicate HasName(flags: byte) { flags / 128 % 2 == 1 }

  function Feat1At(flags: byte): nat { if HasPosition(flags) then 9 else 1 }
  function Feat2At(flags: byte): nat { Feat1At(flags) + if HasFeat1(flags) then 2 else 0 }
  function NameAt(flags: byte): nat { Feat2At(flags) + if HasFeat2(flags) then 2 else 0 }

  function FeatAt(present: bool, data: bytes, at: nat): Option<int>
    requires present ==> at + 2 <= |data|
  {
    if present then Some(FromLe2(data[at..at + 2])) else None
  }

  function Decode(data: bytes): Result<AdvertData, AdvertError> {
    if data == [] then Failure(EmptyData)
    else
      var flags := data[0];
      if |data| < Feat1At(flags) then Failure(ShortPosition)
      else if |data| < Feat2At(flags) then Failure(ShortFeat1)
      else if |data| < NameAt(flags) then Failure(ShortFeat2)
      else Success(AdvertData(
        flags % 16,
        if HasName(flags) then CutNul(data[NameAt(flags)..]) else [],
        if HasPosition(flags) then Some(FromSignedLe4(data[1..5])) else None,
        if HasPosition(flags) then Some(FromSignedLe4(data[5..9])) else None,
        FeatAt(HasFeat1(flags), data, Feat1At(flags)),
        FeatAt(HasFeat2(flags), data, Feat2At(flags))))
  }

  method DecodeData(data: bytes) returns (r: Result<AdvertData, AdvertError>)
    ensures r == Decode(data)
  {
    if data == [] {
      return Failure(EmptyData);
    }
    var flags := data[0];
    var i := 1;
    var lat: Option<int>, lon: Option<int>, feat1: Option<int>, feat2: Option<int> := None, None, None, None;
    if HasPosition(flags) {
      if |data| < i + 8 {
        return Failure(ShortPosition);
      }
      lat := Some(FromSignedLe4(data[i..i + 4]));
      lon := Some(FromSignedLe4(data[i + 4..i + 8]));
      i := i + 8;
    }
    if HasFeat1(flags) {
      if |data| < i + 2 {
        return Failure(ShortFeat1);
      }
      feat1 := Some(FromLe2(data[i..i + 2]));
      i := i + 2;
    }
    if HasFeat2(flags) {
      if |data| < i + 2 {
        return Failure(ShortFeat2);
      }
      feat2 := Some(FromLe2(data[i..i + 2]));
      i := i + 2;
    }
    var name: bytes := [];
    if HasName(flags) {
      name := CutNul(data[i..]);
    }
    return Success(AdvertData(flags % 16, name, lat, lon, feat1, feat2));
  }

  lemma FlagBits(advType: int, position: bool, feat1: bool, feat2: bool, named: bool)
    ensures var f := Flags(advType, position, feat1, feat2, named);
      && f % 16 == advType % 16 && (HasPosition(f) <==> position) && (HasFeat1(f) <==> feat1)
      && (HasFeat2(f) <==> feat2) && (HasName(f) <==> named)
  {
    var t: int := advType % 16;
    var low := (if position then 1 else 0) + (if feat1 then 2 else 0);
    var n := low + (if feat2 then 4 else 0) + (if named then 8 else 0);
    var f: int := Flags(advType, position, feat1, feat2, named);
    assert f == t + 16 * n && f / 16 == n;
    assert f / 32 == n / 2 && f / 64 == n / 4 && f / 128 == n / 8;
  }

  lemma FourParts(h: byte, p: bytes, f1: bytes, f2: bytes, name: bytes)
    ensures var w := [h] + p + f1 + f2 + name;
      && w[0] == h && w[1..1 + |p|] == p
      && w[1 + |p|..1 + |p| + |f1|] == f1
      && w[1 + |p| + |f1|..1 + |p| + |f1| + |f2|] == f2
      && w[1 + |p| + |f1| + |f2|..] == name
  {
  }

  /**
    Decoding an encoding reduces the type to its low four bits and cuts the name at its first NUL, and nothing else.
   */
  lemma DataRoundTrip(a: AdvertData)
    requires Encodable(a)
    ensures Decode(DataWire(a)) == Success(a.(advType := a.advType % 16, name := CutNul(a.name)))
  {
    var w, p := DataWire(a), PositionWire(a);
    FourParts(FlagsOf(a), p, FeatWire(a.feat1), FeatWire(a.feat2), a.name);
    FlagBits(a.advType, a.lat.Some?, a.feat1.Some?, a.feat2.Some?, a.name != []);
    if a.lat.Some? {
      assert w[1..9] == p;
      assert w[1..5] == p[..4] && w[5..9] == p[4..];
    }
  }

  /**
    Hence decode inverts encode, over all combinations of optional fields, iff the type has four bits and the name no
    NUL.
   */
  lemma DataRoundTripExactly(a: AdvertData)
    requires Encodable(a)
    ensures Decode(DataWire(a)) == Success(a) <==> 0 <= a.advType < 16 && NulFree(a.name)
  {
    DataRoundTrip(a);
    CutNulIdentity(a.name);
  }

  // ---- signed advertisements ----

  datatype Advertisement = Advertisement(pubKey: bytes, timestamp: int, signature: bytes, appData: AdvertData,
                                         rawAppData: bytes)

  function SignedMessage(ad: Advertisement): bytes
    requires IsU32(ad.timestamp)
  {
    ad.pubKey + Le4(ad.timestamp) + ad.rawAppData
  }

  predicate SignatureValid(c: Suite, ad: Advertisement)
    requires IsU32(ad.timestamp)
  {
    |ad.pubKey| == PUB_KEY_SIZE && |ad.signature| == SIGNATURE_SIZE
      && c.verify(ad.pubKey, ad.signature, SignedMessage(ad))
  }

  function EncodeAdvert(c: Suite, seed: bytes, pubKey: bytes, timestamp: int, a: AdvertData): bytes
    requires IsU32(timestamp) && Encodable(a)
  {
    var raw := DataWire(a);
    pubKey + Le4(timestamp) + c.sign(seed, pubKey + Le4(timestamp) + raw) + raw
  }

  function DecodeAdvert(payload: bytes): (r: Result<Advertisement, AdvertError>)
    ensures r.Success? ==> IsU32(r.value.timestamp) && |r.value.pubKey| == PUB_KEY_SIZE
  {
    if |payload| < HEADER_SIZE then Failure(ShortPayload)
    else
      match Decode(payload[HEADER_SIZE..])
      case Failure(e) => Failure(e)
      case Success(a) => Success(Advertisement(payload[..32], FromLe4(payload[32..36]), payload[36..HEADER_SIZE], a,
                                               payload[HEADER_SIZE..]))
  }

  /** What the receiver decodes is what was advertised, and the message it rebuilds is the one that was signed. */
  lemma AdvertRoundTrip(c: Suite, seed: bytes, pubKey: bytes, timestamp: int, a: AdvertData)
    requires |pubKey| == PUB_KEY_SIZE && IsU32(timestamp) && Encodable(a) && 0 <= a.advType < 16 && NulFree(a.name)
    ensures var signed := pubKey + Le4(timestamp) + DataWire(a);
      var got := DecodeAdvert(EncodeAdvert(c, seed, pubKey, timestamp, a));
      && got == Success(Advertisement(pubKey, timestamp, c.sign(seed, signed), a, DataWire(a)))
      && SignedMessage(got.value) == signed
      && (SignatureValid(c, got.value) <==> c.verify(pubKey, c.sign(seed, signed), signed))
  {
    DataRoundTripExactly(a);
    var raw := DataWire(a);
    var signature := c.sign(seed, pubKey + Le4(timestamp) + raw);
    var wire := pubKey + Le4(timestamp) + signature + raw;
    assert EncodeAdvert(c, seed, pubKey, timestamp, a) == wire;
    assert wire[..32] == pubKey && wire[32..36] == Le4(timestamp);
    assert wire[36..HEADER_SIZE] == signature && wire[HEADER_SIZE..] == raw;
  }
}
