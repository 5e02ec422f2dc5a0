/**
 * The two scripts against each other: what the client sends the server accepts, what the
 * server sends the client accepts (until the year 2100), and what each accepts is exactly
 * what the other writes.
 */
module RoundTrip {
  import opened Wrappers
  import opened Bytes
  import opened Wire
  import Utf8
  import opened Client
  import opened Server

  /** Both request types survive the trip from `get_request_pkt` to the server's `parse_pkt`. */
  lemma RequestRoundTrip(request: Byte)
    requires request == DateRequest || request == TimeRequest
    ensures ParseRequest(RequestPacket(request)) == Ok(request)
  {
  }

  /** The server accepts a request exactly when it is the client's packet for type 1 or 2. */
  lemma RequestAcceptedIffClientPacket(data: seq<Byte>, request: nat)
    ensures ParseRequest(data) == Ok(request) <==>
      (request == DateRequest || request == TimeRequest) && data == RequestPacket(request)
  {

  }

  /** The clock fields lie in the ranges the client accepts. */
  predicate AcceptableClock(c: Clock)
  {
    c.year < 2100 && 1 <= c.month <= 12 && 1 <= c.day <= 31 && c.hour <= 23 && c.minute <= 59
  }

  /** The client's reading of a header the server writes for language `l`. */
  function Fields(l: Language, c: Clock, text: seq<Byte>): Response
    requires |text| < 256 && AcceptableClock(c)
  {
    Response(MagicNumber, ResponsePacketType, Code(l), l, c.year, c.month, c.day, c.hour, c.minute,
             |text|, text)
  }

  /** Decoding an encoded response gives back its fields, for every valid field set. */
  lemma HeaderRoundTrip(l: Language, c: Clock, text: seq<Byte>)
    requires |text| < 256 && AcceptableClock(c)
    ensures ParseResponse(Header(Code(l), c, |text|) + text) == Ok(Fields(l, c, text))
  {

  }

  /** The client accepts only packets that are the server's encoding of the fields it reports. */
  lemma AcceptedIsEncoding(data: seq<Byte>, r: Response)
    requires ParseResponse(data) == Ok(r)
    ensures AcceptableClock(Clock(r.day, r.month, r.year, r.hour, r.minute))
    ensures data == Header(Code(r.language), Clock(r.day, r.month, r.year, r.hour, r.minute), r.length) + r.text
  {

  }

  /**
   * Until 2100 the client accepts every response the server builds and reads back its
   * language, clock fields and sentence; from 2100 on it refuses them for their year.
   */
  lemma ResponseRoundTrip(ports: Ports, port: int, typ: nat, now: Clock)
    requires IsBound(ports, port) && ValidClock(now)
    ensures ResponsePacket(ports, port, typ, now).Ok?
    ensures var packet, text := ResponsePacket(ports, port, typ, now).value,
                                ResponseText(TableLanguage(ports, port), typ, now);
      if now.year < 2100 then
        && ParseResponse(packet) == Ok(Fields(CodeLanguage(ports, port), now, Utf8.Encode(text)))
        && Utf8.Decode(ParseResponse(packet).value.text) == Some(text)
      else
        ParseResponse(packet) == Err(Malformed(Year))
  {
    TextAlwaysFits(ports, port, typ, now);
    var text := ResponseText(TableLanguage(ports, port), typ, now);
    var bytes := Utf8.Encode(text);
    HeaderLayout(Code(CodeLanguage(ports, port)), now, |bytes|, bytes);
    if now.year < 2100 {
      HeaderRoundTrip(CodeLanguage(ports, port), now, bytes);
      Utf8.DecodeEncode(text);
    }
  }

  /**
   * A date or time request sent to one of three distinct ports gets one reply, to its
   * sender, that the client accepts and reads as the sentence in that port's language.
   */
  lemma ClientServerExchange(ports: Ports, port: int, request: Byte, sender: Address, now: Clock)
    requires Distinct(ports) && IsBound(ports, port) && ValidClock(now) && now.year < 2100
    requires request == DateRequest || request == TimeRequest
    ensures var d := Datagram(port, RequestPacket(request), sender, now);
      var sent := Handle(ports, d);
      && |sent| == 1 && sent[0].dest == sender && sent[0].localPort == port
      && ParseResponse(sent[0].packet).Ok?
      && ParseResponse(sent[0].packet).value.language == CodeLanguage(ports, port)
      && Utf8.Decode(ParseResponse(sent[0].packet).value.text)
         == Some(ResponseText(CodeLanguage(ports, port), request, now))
  {
    var d := Datagram(port, RequestPacket(request), sender, now);
    assert Received(d.data) == RequestPacket(request);
    RequestRoundTrip(request);
    HandleOutcome(ports, d);
    ResponseRoundTrip(ports, port, request, now);
    LanguagesAgree(ports, port);
  }

  /** Every response the listening loop sends is accepted by the client, until 2100. */
  lemma {:induction false} EverySendAccepted(ports: Ports, ds: seq<Datagram>)
    requires ValidDatagrams(ports, ds)
    requires forall i | 0 <= i < |ds| :: ds[i].now.year < 2100
    ensures forall s | s in Dispatch(ports, ds) :: ParseResponse(s.packet).Ok?
  {
    if ds != [] {
      var d := ds[0];
      HandleOutcome(ports, d);
      if ParseRequest(Received(d.data)).Ok? {
        ResponseRoundTrip(ports, d.localPort, ParseRequest(Received(d.data)).value, d.now);
      }
      EverySendAccepted(ports, ds[1..]);
    }
  }
}
