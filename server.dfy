/**
 * The server's half of the protocol (server.py): validating a request, building the
 * localized response for the port it arrived on, and the per-datagram decision of the
 * listening loop. Sockets are replaced by a sequence of received datagrams and the
 * sends the loop makes in answer; the wall clock is an input carried by each datagram.
 */
module Server {
  import opened Wrappers
  import opened Bytes
  import opened Wire
  import Utf8
  import opened Localization

  // ---------------------------------------------------------------- requests

  /** Why a request is discarded, by the first check it fails. */
  datatype RequestError = BadLength | BadMagic | BadPacketType | BadRequestType

  /** `parse_pkt`: the request type of a well-formed request. */
  function ParseRequest(data: seq<Byte>): (r: Result<nat, RequestError>)
    ensures r == Err(BadLength) <==> |data| != RequestSize
    ensures r == Err(BadMagic) <==>
      |data| == RequestSize && BE16(data[0], data[1]) != MagicNumber
    ensures r == Err(BadPacketType) <==>
      |data| == RequestSize && BE16(data[0], data[1]) == MagicNumber
      && BE16(data[2], data[3]) != RequestPacketType
    ensures r == Err(BadRequestType) <==>
      |data| == RequestSize && BE16(data[0], data[1]) == MagicNumber
      && BE16(data[2], data[3]) == RequestPacketType && BE16(data[4], data[5]) !in {1, 2}
    ensures r.Ok? ==>
      (|data| == RequestSize && r.value == BE16(data[4], data[5])
       && (r.value == DateRequest || r.value == TimeRequest))
  {
    if |data| != RequestSize then Err(BadLength)
    else if BE16(data[0], data[1]) != MagicNumber then Err(BadMagic)
    else if BE16(data[2], data[3]) != RequestPacketType then Err(BadPacketType)
    else
      var typ := BE16(data[4], data[5]);
      if typ !in {1, 2} then Err(BadRequestType) else Ok(typ)
  }

  // ---------------------------------------------------------------- ports and languages

  /** The three ports given on the command line, for English, Maori and German. */
  datatype Ports = Ports(english: int, maori: int, german: int)

  /** True when `port` is one of the three the server listens on. */
  predicate IsBound(ports: Ports, port: int)
  {
    port == ports.english || port == ports.maori || port == ports.german
  }

  predicate Distinct(ports: Ports)
  {
    ports.english != ports.maori && ports.english != ports.german && ports.maori != ports.german
  }

  /** The language whose code goes in bytes 4..5: the first branch of the if/elif on the port. */
  function CodeLanguage(ports: Ports, port: int): (l: Language)
    requires IsBound(ports, port)
    ensures l == English <==> port == ports.english
    ensures l == Maori <==> port != ports.english && port == ports.maori
    ensures l == German <==> port != ports.english && port != ports.maori
  {
    if port == ports.english then English
    else if port == ports.maori then Maori
    else German
  }

  /**
   * The language of the template and month tables: they are dictionary literals keyed by
   * port, in which a repeated key keeps the value written last.
   */
  function TableLanguage(ports: Ports, port: int): (l: Language)
    requires IsBound(ports, port)
    ensures l == German <==> port == ports.german
    ensures l == Maori <==> port != ports.german && port == ports.maori
    ensures l == English <==> port != ports.german && port != ports.maori
  {
    if port == ports.german then German
    else if port == ports.maori then Maori
    else English
  }

  /** With three different ports, the code and the text of a response speak the same language. */
  lemma LanguagesAgree(ports: Ports, port: int)
    requires IsBound(ports, port) && Distinct(ports)
    ensures CodeLanguage(ports, port) == TableLanguage(ports, port)
    ensures port == ports.english ==> CodeLanguage(ports, port) == English
    ensures port == ports.maori ==> CodeLanguage(ports, port) == Maori
    ensures port == ports.german ==> CodeLanguage(ports, port) == German
  {
  }

  // ---------------------------------------------------------------- responses

  /** The local date and time, as `datetime.now()` splits it. */
  datatype Clock = Clock(day: nat, month: nat, year: nat, hour: nat, minute: nat)

  /** The ranges `datetime` guarantees for its fields. */
  predicate ValidClock(c: Clock)
  {
    1 <= c.day <= 31 && 1 <= c.month <= 12 && 1 <= c.year <= 9999 && c.hour <= 23 && c.minute <= 59
  }

  /** The clock fields fit the header: the year in two bytes, the rest in one each. */
  predicate FitsHeader(c: Clock)
  {
    c.year < 0x1_0000 && c.month < 256 && c.day < 256 && c.hour < 256 && c.minute < 256
  }

  /** A response whose text does not fit the 8-bit length field is not built. */
  datatype ResponseError = TextTooLarge

  /** The sentence answering request type `typ`: the date for 1, the time for anything else. */
  function ResponseText(l: Language, typ: nat, now: Clock): string
    requires ValidClock(now)
  {
    if typ == DateRequest then DateText(l, now.day, now.month, now.year)
    else TimeText(l, now.hour, now.minute)
  }

  /**
   * The English date template's apostrophe is U+2019, not ASCII, and takes three bytes
   * (E2 80 99) in the UTF-8 text.
   */
  lemma EnglishApostropheBytes()
    ensures DateTemplate(English)[0].Text? && |DateTemplate(English)[0].s| > 5
    ensures DateTemplate(English)[0].s[5] == '\U{2019}'
    ensures Utf8.EncodeChar(DateTemplate(English)[0].s[5]) == [0xE2, 0x80, 0x99]
  {
  }

  /** The 13 header bytes; the last one is the length of the text that follows. */
  function Header(code: Byte, now: Clock, length: Byte): (h: seq<Byte>)
    requires FitsHeader(now)
    ensures |h| == HeaderSize
  {
    [MagicHigh, MagicLow, 0, 2, 0, code, High(now.year), Low(now.year),
     now.month, now.day, now.hour, now.minute, length]
  }

  /** `get_response_pkt` as a value: the header followed by the UTF-8 bytes of the sentence. */
  function ResponsePacket(ports: Ports, port: int, typ: nat, now: Clock): Result<seq<Byte>, ResponseError>
    requires IsBound(ports, port) && ValidClock(now)
  {
    var text := Utf8.Encode(ResponseText(TableLanguage(ports, port), typ, now));
    if |text| > 255 then Err(TextTooLarge)
    else Ok(Header(Code(CodeLanguage(ports, port)), now, |text|) + text)
  }

  /** What each header byte of a built response says. */
  lemma HeaderLayout(code: Byte, now: Clock, length: Byte, text: seq<Byte>)
    requires FitsHeader(now)
    ensures var p := Header(code, now, length) + text;
      && |p| == HeaderSize + |text| && p[12] == length && p[HeaderSize..] == text
      && BE16(p[0], p[1]) == MagicNumber
      && BE16(p[2], p[3]) == ResponsePacketType
      && BE16(p[4], p[5]) == code
      && BE16(p[6], p[7]) == now.year
      && p[8] == now.month && p[9] == now.day && p[10] == now.hour && p[11] == now.minute
  {

  }

  /**
   * The response is refused exactly when the text exceeds 255 bytes; otherwise it is the
   * 13-byte header (magic, type 2, the port's language code, the clock fields, the text
   * length) followed by the text unchanged.
   */
  lemma ResponseLayout(ports: Ports, port: int, typ: nat, now: Clock)
    requires IsBound(ports, port) && ValidClock(now)
    ensures var r, text := ResponsePacket(ports, port, typ, now),
                           Utf8.Encode(ResponseText(TableLanguage(ports, port), typ, now));
      && (r.Err? <==> |text| > 255)
      && (r.Ok? ==>
        && |r.value| == HeaderSize + |text| && r.value[12] == |text|
        && r.value[HeaderSize..] == text
        && BE16(r.value[0], r.value[1]) == MagicNumber
        && BE16(r.value[2], r.value[3]) == ResponsePacketType
        && BE16(r.value[4], r.value[5]) == Code(CodeLanguage(ports, port))
        && BE16(r.value[6], r.value[7]) == now.year
        && r.value[8] == now.month && r.value[9] == now.day
        && r.value[10] == now.hour && r.value[11] == now.minute)
  {

  }

  /**
   * `get_response_pkt` as the server runs it: a 13-byte buffer whose last byte is written
   * as 0 and overwritten with the text length once the text is known to fit.
   */
  method BuildResponse(ports: Ports, port: int, typ: nat, now: Clock) returns (r: Result<seq<Byte>, ResponseError>)
    requires IsBound(ports, port) && ValidClock(now)
    ensures r == ResponsePacket(ports, port, typ, now)
  {
    var buffer := new Byte[HeaderSize];
    buffer[0], buffer[1] := MagicHigh, MagicLow;
    buffer[2], buffer[3] := 0, 2;
    buffer[4] := 0;
    if port == ports.english {
      buffer[5] := 1;
    } else if port == ports.maori {
      buffer[5] := 2;
    } else {
      buffer[5] := 3;
    }
    buffer[6], buffer[7] := now.year / 256, now.year % 256;
    buffer[8], buffer[9], buffer[10], buffer[11] := now.month, now.day, now.hour, now.minute;
    buffer[12] := 0;
    var language := TableLanguage(ports, port);
    var text;
    if typ == 1 {
      text := DateText(language, now.day, now.month, now.year);
    } else {
      text := TimeText(language, now.hour, now.minute);
    }
    var bytes := Utf8.Encode(text);
    assert text == ResponseText(language, typ, now);
    if |bytes| > 255 {
      return Err(TextTooLarge);
    }
    buffer[12] := |bytes|;
    assert buffer[..] == Header(Code(CodeLanguage(ports, port)), now, |bytes|);
    r := Ok(buffer[..] + bytes);
  }

  /**
   * For any real clock reading the sentence takes at most 192 bytes, so a response is
   * always built and `TextTooLarge` never happens.
   */
  lemma TextAlwaysFits(ports: Ports, port: int, typ: nat, now: Clock)
    requires IsBound(ports, port) && ValidClock(now)
    ensures |Utf8.Encode(ResponseText(TableLanguage(ports, port), typ, now))| <= 192
    ensures ResponsePacket(ports, port, typ, now).Ok?
  {
    var l := TableLanguage(ports, port);
    if typ == DateRequest {
      Decimal.RenderLength(now.day, 2);
      Decimal.RenderLength(now.year, 4);
      DateTextSentence(l, now.day, now.month, now.year);
      assert |DateText(l, now.day, now.month, now.year)| <= 48;
    } else {
      TimeTextSentence(l, now.hour, now.minute);
      assert |TimeText(l, now.hour, now.minute)| <= 25;
    }
  }

  // ---------------------------------------------------------------- the listening loop

  /** A peer's address as `recvfrom` reports it. */
  datatype Address = Address(host: string, port: int)

  /** One datagram read from a readable socket: the socket's port, the bytes, the sender
      and the clock reading the server takes while answering it. */
  datatype Datagram = Datagram(localPort: int, data: seq<Byte>, sender: Address, now: Clock)

  /** One `sendto` on the socket bound to `localPort`. */
  datatype Send = Send(localPort: int, packet: seq<Byte>, dest: Address)

  /** Every datagram arrived on one of the server's ports and carries a real clock reading. */
  predicate ValidDatagrams(ports: Ports, ds: seq<Datagram>)
  {
    forall i | 0 <= i < |ds| :: IsBound(ports, ds[i].localPort) && ValidClock(ds[i].now)
  }

  /** `recvfrom(1024)` keeps at most the first 1024 bytes of a datagram. */
  const ReceiveSize: nat := 1024

  function Received(data: seq<Byte>): (r: seq<Byte>)
    ensures |r| <= ReceiveSize && r <= data
    ensures |data| <= ReceiveSize ==> r == data
    ensures |data| > ReceiveSize ==> |r| == ReceiveSize
  {
    if |data| <= ReceiveSize then data else data[..ReceiveSize]
  }

  /**
   * What the loop sends for one datagram: nothing when the request is malformed or the
   * text too large, otherwise one response to the sender from the same socket.
   */
  function Handle(ports: Ports, d: Datagram): (sent: seq<Send>)
    requires IsBound(ports, d.localPort) && ValidClock(d.now)
    ensures |sent| <= 1
  {
    match ParseRequest(Received(d.data))
    case Err(_) => []
    case Ok(typ) =>
      match ResponsePacket(ports, d.localPort, typ, d.now)
      case Err(_) => []
      case Ok(packet) => [Send(d.localPort, packet, d.sender)]
  }

  /**
   * A datagram is answered unless its request fails `parse_pkt` or its response cannot be
   * built; the answer is the response from the receiving socket to the sender.
   */
  lemma HandleOutcome(ports: Ports, d: Datagram)
    requires IsBound(ports, d.localPort) && ValidClock(d.now)
    ensures var sent, request := Handle(ports, d), ParseRequest(Received(d.data));
      && (sent == [] <==>
          request.Err? || ResponsePacket(ports, d.localPort, request.value, d.now).Err?)
      && (sent != [] ==>
          sent == [Send(d.localPort, ResponsePacket(ports, d.localPort, request.value, d.now).value, d.sender)])
  {
  }

  /** The sends for a sequence of datagrams, handled one after another. */
  function Dispatch(ports: Ports, ds: seq<Datagram>): (sent: seq<Send>)
    requires ValidDatagrams(ports, ds)
    ensures |sent| <= |ds|
  {
    if ds == [] then [] else Handle(ports, ds[0]) + Dispatch(ports, ds[1..])
  }

  /** The sends for a single datagram are what handling it sends. */
  lemma DispatchOne(ports: Ports, d: Datagram)
    requires IsBound(ports, d.localPort) && ValidClock(d.now)
    ensures ValidDatagrams(ports, [d])
    ensures Dispatch(ports, [d]) == Handle(ports, d)
  {

  }

  lemma ValidAppend(ports: Ports, a: seq<Datagram>, b: seq<Datagram>)
    requires ValidDatagrams(ports, a) && ValidDatagrams(ports, b)
    ensures ValidDatagrams(ports, a + b)
  {

  }

  /** Handling is per datagram: the sends for two runs of datagrams are the runs' sends in order. */
  lemma {:induction false} DispatchAppend(ports: Ports, a: seq<Datagram>, b: seq<Datagram>)
    requires ValidDatagrams(ports, a) && ValidDatagrams(ports, b)
    ensures ValidDatagrams(ports, a + b)
    ensures Dispatch(ports, a + b) == Dispatch(ports, a) + Dispatch(ports, b)
  {
    ValidAppend(ports, a, b);
    if a == [] {
      assert a + b == b;
    } else {
      var tail := a[1..];
      ValidAppend(ports, tail, b);
      assert a + b == [a[0]] + (tail + b);
      assert a == [a[0]] + tail;
      DispatchCons(ports, a[0], tail + b);
      DispatchCons(ports, a[0], tail);
      DispatchAppend(ports, tail, b);
    }
  }

  /** The sends for a datagram followed by more are its own sends, then theirs. */
  lemma DispatchCons(ports: Ports, d: Datagram, ds: seq<Datagram>)
    requires IsBound(ports, d.localPort) && ValidClock(d.now) && ValidDatagrams(ports, ds)
    ensures ValidDatagrams(ports, [d] + ds)
    ensures Dispatch(ports, [d] + ds) == Handle(ports, d) + Dispatch(ports, ds)
  {
    assert ([d] + ds)[1..] == ds;
  }

  /** A discarded datagram leaves what is sent for the datagrams around it unchanged. */
  lemma DiscardedDatagramIsSkipped(ports: Ports, before: seq<Datagram>, d: Datagram, after: seq<Datagram>)
    requires ValidDatagrams(ports, before) && ValidDatagrams(ports, after)
    requires IsBound(ports, d.localPort) && ValidClock(d.now)
    requires ParseRequest(Received(d.data)).Err?
    ensures ValidDatagrams(ports, before + [d] + after)
    ensures Dispatch(ports, before + [d] + after) == Dispatch(ports, before) + Dispatch(ports, after)
  {
    DispatchOne(ports, d);
    assert Dispatch(ports, [d]) == [];
    DispatchAppend(ports, before, [d]);
    assert Dispatch(ports, before + [d]) == Dispatch(ports, before);
    DispatchAppend(ports, before + [d], after);
  }

  /** A well-formed request gets exactly one response, to its sender, in its place. */
  lemma WellFormedRequestIsAnswered(ports: Ports, before: seq<Datagram>, d: Datagram, after: seq<Datagram>)
    requires ValidDatagrams(ports, before) && ValidDatagrams(ports, after)
    requires IsBound(ports, d.localPort) && ValidClock(d.now)
    requires ParseRequest(Received(d.data)).Ok?
    ensures ValidDatagrams(ports, before + [d] + after)
    ensures ResponsePacket(ports, d.localPort, ParseRequest(Received(d.data)).value, d.now).Ok?
    ensures Dispatch(ports, before + [d] + after) ==
      Dispatch(ports, before)
      + [Send(d.localPort, ResponsePacket(ports, d.localPort, ParseRequest(Received(d.data)).value, d.now).value, d.sender)]
      + Dispatch(ports, after)
  {
    TextAlwaysFits(ports, d.localPort, ParseRequest(Received(d.data)).value, d.now);
    DispatchOne(ports, d);
    DispatchAppend(ports, before, [d]);
    DispatchAppend(ports, before + [d], after);
  }

  /** How many of the datagrams hold a well-formed request. */
  function WellFormedCount(ds: seq<Datagram>): nat
  {
    if ds == [] then 0
    else (if ParseRequest(Received(ds[0].data)).Ok? then 1 else 0) + WellFormedCount(ds[1..])
  }

  /** One response is sent per well-formed request, and none for anything else. */
  lemma {:induction false} OneResponsePerRequest(ports: Ports, ds: seq<Datagram>)
    requires ValidDatagrams(ports, ds)
    ensures |Dispatch(ports, ds)| == WellFormedCount(ds)
  {
    if ds != [] {
      if ParseRequest(Received(ds[0].data)).Ok? {
        TextAlwaysFits(ports, ds[0].localPort, ParseRequest(Received(ds[0].data)).value, ds[0].now);
      }
      OneResponsePerRequest(ports, ds[1..]);
    }
  }

  /** The body of the inner loop for one datagram: parse, build, and send or skip. */
  method Answer(ports: Ports, d: Datagram) returns (reply: seq<Send>)
    requires IsBound(ports, d.localPort) && ValidClock(d.now)
    ensures reply == Handle(ports, d)
  {
    reply := [];
    var request := ParseRequest(Received(d.data));
    if request.Ok? {
      var packet := BuildResponse(ports, d.localPort, request.value, d.now);
      if packet.Ok? {
        reply := [Send(d.localPort, packet.value, d.sender)];
      }
    }
  }

  /** The inner loop of `listening_loop`: each readable socket's datagram, answered in turn. */
  method ListeningPass(ports: Ports, readable: seq<Datagram>) returns (sent: seq<Send>)
    requires ValidDatagrams(ports, readable)
    ensures sent == Dispatch(ports, readable)
  {
    sent := [];
    for i := 0 to |readable|
      invariant sent == Dispatch(ports, readable[..i])
    {
      var reply := Answer(ports, readable[i]);
      DispatchStep(ports, readable, i);
      sent := sent + reply;
    }
    assert readable[..|readable|] == readable;
  }

  /** One more datagram handled extends the sends by what handling it sends. */
  lemma DispatchStep(ports: Ports, ds: seq<Datagram>, i: nat)
    requires ValidDatagrams(ports, ds) && i < |ds|
    ensures ValidDatagrams(ports, ds[..i]) && ValidDatagrams(ports, ds[..i + 1])
    ensures Dispatch(ports, ds[..i + 1]) == Dispatch(ports, ds[..i]) + Handle(ports, ds[i])
  {
    assert ds[..i + 1] == ds[..i] + [ds[i]];
    DispatchOne(ports, ds[i]);
    DispatchAppend(ports, ds[..i], [ds[i]]);
  }

  /** All datagrams of a run of wake-ups, in order. */
  function Flatten(wakes: seq<seq<Datagram>>): seq<Datagram>
  {
    if wakes == [] then [] else Flatten(wakes[..|wakes| - 1]) + wakes[|wakes| - 1]
  }

  /** Every wake-up's datagrams arrived on the server's ports with real clock readings. */
  predicate ValidWakes(ports: Ports, wakes: seq<seq<Datagram>>)
  {
    forall k | 0 <= k < |wakes| :: ValidDatagrams(ports, wakes[k])
  }

  lemma {:induction false} FlattenValid(ports: Ports, wakes: seq<seq<Datagram>>)
    requires ValidWakes(ports, wakes)
    ensures ValidDatagrams(ports, Flatten(wakes))
  {
    if wakes != [] {
      FlattenValid(ports, wakes[..|wakes| - 1]);
      DispatchAppend(ports, Flatten(wakes[..|wakes| - 1]), wakes[|wakes| - 1]);
    }
  }

  /**
   * `listening_loop` over finitely many wake-ups of `select`: the sends are those for all
   * datagrams in arrival order, so no datagram disturbs the handling of a later one.
   */
  method ListeningLoop(ports: Ports, wakes: seq<seq<Datagram>>) returns (sent: seq<Send>)
    requires ValidWakes(ports, wakes)
    ensures ValidDatagrams(ports, Flatten(wakes))
    ensures sent == Dispatch(ports, Flatten(wakes))
  {
    FlattenValid(ports, wakes);
    sent := [];
    var k := 0;
    while k < |wakes|
      invariant 0 <= k <= |wakes|
      invariant ValidDatagrams(ports, Flatten(wakes[..k]))
      invariant sent == Dispatch(ports, Flatten(wakes[..k]))
    {
      var passSent := ListeningPass(ports, wakes[k]);
      assert wakes[..k + 1][..k] == wakes[..k];
      assert Flatten(wakes[..k + 1]) == Flatten(wakes[..k]) + wakes[k];
      DispatchAppend(ports, Flatten(wakes[..k]), wakes[k]);
      sent := sent + passSent;
      k := k + 1;
    }
    assert wakes[..|wakes|] == wakes;
  }
}
