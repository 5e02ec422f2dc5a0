/**
 * The client's half of the protocol (client.py): the request it sends and the checks it
 * applies, in a fixed order, to the reply before reporting the reply's fields.
 */
module Client {
  import opened Wrappers
  import opened Bytes
  import opened Wire

  /** `get_request_pkt`: magic number, packet type 1 and the request type, each as two bytes. */
  function RequestPacket(request: Byte): (p: seq<Byte>)
    ensures |p| == RequestSize
    ensures BE16(p[0], p[1]) == MagicNumber
    ensures BE16(p[2], p[3]) == RequestPacketType
    ensures BE16(p[4], p[5]) == request
  {
    [MagicHigh, MagicLow, 0, 1, 0, request]
  }

  /** The header fields in the order the client checks them. */
  datatype Field = Magic | PacketType | LanguageCode | Year | Month | Day | Hour | Minute | Length

  /**
   * Why a reply is refused: too short to hold a header (the client exits at once, before
   * reading any field), or the first header field that fails its check.
   */
  datatype ResponseError = TooShort | Malformed(field: Field)

  /** The fields the client reports for an accepted reply; `text` is the raw UTF-8 payload. */
  datatype Response = Response(
    magic: nat, packetType: nat, languageCode: nat, language: Language,
    year: nat, month: Byte, day: Byte, hour: Byte, minute: Byte, length: Byte,
    text: seq<Byte>)

  /** The ranges a reply's fields must lie in, and the length they must agree on. */
  predicate WellFormed(r: Response)
  {
    && r.magic == MagicNumber
    && r.packetType == ResponsePacketType
    && 1 <= r.languageCode <= 3 && Code(r.language) == r.languageCode
    && r.year < 2100
    && 1 <= r.month <= 12
    && 1 <= r.day <= 31
    && r.hour <= 23
    && r.minute <= 59
    && r.length == |r.text|
  }

  /** `r` holds exactly what bytes 0..12 of `data` say, and the bytes after them. */
  predicate ReadFrom(data: seq<Byte>, r: Response)
    requires |data| >= HeaderSize
  {
    && r.magic == BE16(data[0], data[1])
    && r.packetType == BE16(data[2], data[3])
    && r.languageCode == BE16(data[4], data[5])
    && r.year == BE16(data[6], data[7])
    && r.month == data[8] && r.day == data[9] && r.hour == data[10] && r.minute == data[11]
    && r.length == data[12]
    && r.text == data[HeaderSize..]
  }

  /** `parse_pkt`: the reply's fields, or the reason it is refused. */
  function ParseResponse(data: seq<Byte>): (r: Result<Response, ResponseError>)
    ensures r == Err(TooShort) <==> |data| < HeaderSize
    ensures r.Ok? ==> |data| >= HeaderSize && ReadFrom(data, r.value) && WellFormed(r.value)
  {
    if |data| < HeaderSize then Err(TooShort)
    else
      var magic := BE16(data[0], data[1]);
      var packetType := BE16(data[2], data[3]);
      var languageCode := BE16(data[4], data[5]);
      var year := BE16(data[6], data[7]);
      var month, day, hour, minute := data[8], data[9], data[10], data[11];
      var length := data[12];
      if magic != MagicNumber then Err(Malformed(Magic))
      else if packetType != ResponsePacketType then Err(Malformed(PacketType))
      else if languageCode !in {1, 2, 3} then Err(Malformed(LanguageCode))
      else if year >= 2100 then Err(Malformed(Year))
      else if !(1 <= month < 13) then Err(Malformed(Month))
      else if !(1 <= day < 32) then Err(Malformed(Day))
      else if !(0 <= hour < 24) then Err(Malformed(Hour))
      else if !(0 <= minute < 60) then Err(Malformed(Minute))
      else if length != |data[HeaderSize..]| then Err(Malformed(Length))
      else
        Ok(Response(magic, packetType, languageCode, LanguageOfCode(languageCode),
                    year, month, day, hour, minute, length, data[HeaderSize..]))
  }

  /** Position of a field in the order of the checks. */
  function Rank(f: Field): nat
  {
    match f
    case Magic => 0
    case PacketType => 1
    case LanguageCode => 2
    case Year => 3
    case Month => 4
    case Day => 5
    case Hour => 6
    case Minute => 7
    case Length => 8
  }

  /** The condition a header field must meet, stated on its own. */
  predicate Passes(data: seq<Byte>, f: Field)
    requires |data| >= HeaderSize
  {
    match f
    case Magic => data[0] == MagicHigh && data[1] == MagicLow
    case PacketType => data[2] == 0 && data[3] == 2
    case LanguageCode => data[4] == 0 && 1 <= data[5] <= 3
    case Year => data[6] as int * 256 + data[7] < 2100
    case Month => 1 <= data[8] <= 12
    case Day => 1 <= data[9] <= 31
    case Hour => data[10] <= 23
    case Minute => data[11] <= 59
    case Length => data[12] + HeaderSize == |data|
  }

  /** A reply of header size or more is accepted exactly when every field passes its check. */
  lemma AcceptedIffAllPass(data: seq<Byte>)
    requires |data| >= HeaderSize
    ensures ParseResponse(data).Ok? <==> forall f: Field :: Passes(data, f)
  {
    if forall f: Field :: Passes(data, f) {
      assert Passes(data, Magic) && Passes(data, PacketType) && Passes(data, LanguageCode);
      assert Passes(data, Year) && Passes(data, Month) && Passes(data, Day);
      assert Passes(data, Hour) && Passes(data, Minute) && Passes(data, Length);
    }
  }

  /**
   * The refusal names the first field, in checking order, whose check fails: that field
   * fails and every field checked before it passes.
   */
  lemma FirstFailingFieldDecides(data: seq<Byte>, f: Field)
    requires |data| >= HeaderSize
    ensures ParseResponse(data) == Err(Malformed(f)) <==>
      !Passes(data, f) && forall g: Field :: Rank(g) < Rank(f) ==> Passes(data, g)
  {
    var failsHere := !Passes(data, f) && forall g: Field :: Rank(g) < Rank(f) ==> Passes(data, g);
    if failsHere {
      assert Rank(f) > 0 ==> Passes(data, Magic);
      assert Rank(f) > 1 ==> Passes(data, PacketType);
      assert Rank(f) > 2 ==> Passes(data, LanguageCode);
      assert Rank(f) > 3 ==> Passes(data, Year);
      assert Rank(f) > 4 ==> Passes(data, Month);
      assert Rank(f) > 5 ==> Passes(data, Day);
      assert Rank(f) > 6 ==> Passes(data, Hour);
      assert Rank(f) > 7 ==> Passes(data, Minute);
    }
  }
}
