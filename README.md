# time-server: a Dafny model of the date/time protocol

The time server answers UDP requests for the current date or time in one of three
languages: English, Te reo Maori and German. A client (`client.py`) sends a 6-byte request.
The server (`server.py`) listens on one port per language. It answers from the socket the
request arrived on with a 13-byte header followed by a localized UTF-8 sentence. The
client checks the reply header field by field, in a fixed order, before reporting it.

This project models that protocol and proves its properties:

- the byte layouts, with big-endian 16-bit fields;
- both validators, including the order of their checks;
- choosing the language from the port, and the template and month tables;
- UTF-8 encoding and decimal rendering;
- the per-datagram decision of the server's listening loop.

Modules, one per component:

- `Wrappers`: `Option` and `Result`, used instead of the exceptions the scripts raise.
- `Bytes`: the `Byte` type (a `bytearray` element, 0..255) and the big-endian 16-bit read `(hi << 8) + lo`.
- `Wire`: the constants both scripts hardcode (magic number 0x497E, packet types 1 and 2,
  request types 1 and 2, sizes 6 and 13) and the three languages with their codes.
- `Utf8`: `str.encode('utf-8')` on Unicode scalar values, and a strict decoder that undoes it.
- `Decimal`: `str(n)` for non-negative integers, and the server's two-digit padding.
- `Localization`: `DATE_TEMPLATE`, `TIME_TEMPLATE` and `MONTH` as constant tables keyed by
  language, and `str.format` over them.
- `Client`: `get_request_pkt`, and `parse_pkt` returning the reply's fields instead of printing them.
- `Server`: `parse_pkt`, `get_response_pkt` and the listening loop.
  - `ResponsePacket` is `get_response_pkt` as a value.
  - `BuildResponse` is the same operation as the server runs it: it fills a 13-byte array,
    then overwrites the last byte with the text length. It is proved equal to `ResponsePacket`.
  - `Dispatch` is the decision for a sequence of received datagrams. The loops
    `ListeningPass` (`for sock in readable`) and `ListeningLoop` (`while True`, over finitely
    many wake-ups of `select`) are proved equal to it.
- `RoundTrip`: the two scripts against each other.

Inputs that come from the environment are parameters:

- The wall clock (`datetime.now()`, server.py:82-83) is a `Clock` carried by each datagram.
- The sockets are replaced by `Datagram` values. Each holds the receiving socket's port, the
  bytes, the sender and the clock reading.
- The replies are `Send` values.
- `recvfrom(1024)` keeps exactly the first 1024 bytes of a longer datagram (`Server.Received`).

Notes on the code as modelled:

- Templates are written already split into literal text and `{n}` replacement fields. The
  month-4 Maori name keeps its trailing space (`"Paenga-whawha "`). The English date
  template keeps U+2019 (`’`), which is three bytes in UTF-8.
- If two configured ports coincide, the language code in bytes 4..5 comes from the first
  matching `if`/`elif` branch (server.py:76-81). The templates and month names come from
  dictionary literals keyed by port (server.py:21-41), where a repeated key keeps the value
  written LAST. `Server.CodeLanguage` and `Server.TableLanguage` model the two choices, and
  `Server.LanguagesAgree` proves they agree when the three ports differ. The server binds all
  three ports before it enters the loop, so coinciding ports normally stop it before any
  request is answered.
- The server accepts only requests of exactly 6 bytes. An accepted request type is 1 or 2.
  When building the reply, the server answers type 1 with the date and any other type with
  the time.
- Hours and minutes get a leading zero only when `str(n)` has one character
  (server.py:88-91). For real clock values this means exactly two digits.
- The client accepts any year below 2100, including 0. The server sends whatever year the
  clock gives (1..9999), so from 2100 on the client refuses every reply
  (`RoundTrip.ResponseRoundTrip`).
- The client decodes the text as UTF-8 only when printing it (client.py:109), after every
  check, so a reply whose text is not UTF-8 passes validation. The model keeps the text as
  raw bytes.

## Model

| member | source | states |
|---|---|---|
| `Bytes.BE16` | client.py:61-64 | a 16-bit field read big-endian is below 65536, and its high and low bytes are recovered by `/ 256` and `% 256` |
| `Bytes.HighLowRoundTrip` | server.py:84 | writing the year as `year>>8`, `year&0xFF` and reading it back big-endian gives the year |
| `Bytes.BE16Injective` | server.py:106-113 | two byte pairs that read as the same 16-bit value are equal |
| `Wire.Code` | server.py:76-81 | every language code is 1, 2 or 3 |
| `Wire.LanguageOfCode` | client.py:95-100 | codes 1, 2, 3 name English, Te reo Maori and German, and the language's code is the code read |
| `Client.RequestPacket` | client.py:48-54 | the request is 6 bytes: magic 0x497E, packet type 1, then the request type, each read big-endian |
| `Client.ParseResponse` | client.py:56-100 | refuses with `TooShort` exactly when fewer than 13 bytes arrive; an accepted reply's fields are exactly the values of bytes 0..12 and the bytes after them, and they satisfy every range and the length equality |
| `Client.AcceptedIffAllPass` | client.py:67-94 | a reply of at least 13 bytes is accepted if and only if magic, type, language, year, month, day, hour, minute and length all pass their checks |
| `Client.FirstFailingFieldDecides` | client.py:67-93 | the reply is refused for field `f` if and only if `f` fails its check and every field checked before it passes |
| `Server.ParseRequest` | server.py:101-117 | each refusal (length not 6, magic, packet type, request type not 1 or 2) happens exactly when its check fails and all earlier ones pass; an accepted request yields bytes 4..5 read big-endian, which is 1 or 2 |
| `Server.CodeLanguage` | server.py:76-81 | the first matching port of English, Maori, German decides the language code |
| `Server.TableLanguage` | server.py:21-41 | the template and month tables are looked up by the last of English, Maori, German whose port matches (the value the dict literal writes last) |
| `Server.LanguagesAgree` | server.py:76-81 | with three different ports, the English, Maori and German ports get codes 1, 2, 3 and the text is in the same language |
| `Server.HeaderLayout` | server.py:84 | the header bytes read as magic 0x497E, type 2, the language code, the year big-endian, then month, day, hour, minute and the length byte, and the text follows unchanged |
| `Server.ResponseLayout` | server.py:71-98 | `ResponsePacket` fails exactly when the UTF-8 text exceeds 255 bytes; otherwise byte 12 is the text's byte length, the packet is 13 plus that long, the header carries magic, type 2, the port's language code and the clock fields, and the text bytes follow |
| `Server.BuildResponse` | server.py:71-98 | filling the 13-byte buffer and overwriting its last byte with the text length yields exactly `ResponsePacket` |
| `Server.TextAlwaysFits` | server.py:93-95 | for any real clock reading the sentence takes at most 192 bytes, so the too-large error never occurs |
| `Server.Received` | server.py:125 | exactly the first 1024 bytes of a longer datagram are kept, and a datagram of up to 1024 bytes is kept whole |
| `Server.Handle` | server.py:126-137 | one datagram causes at most one send |
| `Server.HandleOutcome` | server.py:126-137 | no send if and only if the request is malformed or the response cannot be built; otherwise exactly the response, sent from the receiving socket to the sender |
| `Server.Answer` | server.py:125-137 | the loop body for one datagram sends what `Handle` specifies |
| `Server.Dispatch` | server.py:124-137 | there are never more sends than datagrams |
| `Server.DispatchAppend` | server.py:124-137 | the sends for consecutive runs of datagrams are the runs' sends, in order |
| `Server.DiscardedDatagramIsSkipped` | server.py:126-132 | a malformed datagram adds no send and leaves the sends for the datagrams before and after it unchanged |
| `Server.WellFormedRequestIsAnswered` | server.py:133-137 | a well-formed request adds exactly one send, its response to its sender, in its place |
| `Server.OneResponsePerRequest` | server.py:124-137 | the number of sends equals the number of well-formed requests |
| `Server.ListeningPass` | server.py:124-137 | the `for sock in readable` loop sends exactly `Dispatch` of the readable datagrams |
| `Server.ListeningLoop` | server.py:121-137 | over any finite run of wake-ups, the loop sends exactly `Dispatch` of all datagrams in arrival order |
| `Localization.DateTemplate` | server.py:21-23 | each date template uses only the fields {0} day, {1} month name and {2} year |
| `Localization.TimeTemplate` | server.py:25-27 | each time template uses only the fields {0} hour and {1} minute |
| `Localization.MonthName` | server.py:29-41 | every month name has 3 to 16 characters |
| `Localization.DateTextSentence` | server.py:85-86 | the date sentence is "Today’s date is M D, Y", "Ko te ra o tenei ra ko M D, Y" or "Heute ist der D. M Y", with the port language's month name and the day and year unpadded |
| `Localization.TimeTextSentence` | server.py:87-92 | the time sentence is the language's prefix followed by exactly two hour digits, a colon and exactly two minute digits |
| `Decimal.Render` | server.py:86 | `str(n)` is a non-empty digit string denoting `n`, with no leading zero unless `n` is 0 |
| `Decimal.RenderLength` | server.py:86 | a number below 10^k has at most k digits |
| `Decimal.Pad2Digits` | server.py:88-91 | below 100, the padded hour or minute is exactly the tens digit and the units digit, and it denotes the number |
| `Utf8.EncodeChar` | server.py:93 | a character takes 1 to 4 bytes, and 1 byte (its code point) exactly when it is ASCII |
| `Utf8.Encode` | server.py:93 | a string's encoding has between 1 and 4 bytes per character |
| `Utf8.DecodeEncode` | server.py:93 | decoding the encoding gives back the string, so the encoding is injective |
| `Utf8.EncodeAppend` | server.py:93 | encoding distributes over concatenation |
| `Utf8.EncodeAscii` | server.py:93 | an ASCII string encodes to its code points, one byte each |
| `Server.EnglishApostropheBytes` | server.py:21 | the apostrophe in the English date template is U+2019 and encodes as the three bytes E2 80 99 |
| `RoundTrip.RequestRoundTrip` | server.py:101-117 | the server parses the client's request packet for type 1 or 2 back to that type |
| `RoundTrip.RequestAcceptedIffClientPacket` | server.py:101-117 | the server accepts a request with type `t` if and only if `t` is 1 or 2 and the packet is the client's `get_request_pkt(t)` |
| `RoundTrip.HeaderRoundTrip` | client.py:56-100 | for any field set within the client's ranges, the client decodes the server's encoding back to exactly those fields |
| `RoundTrip.AcceptedIsEncoding` | client.py:56-100 | every reply the client accepts is the server's encoding of the fields it reports |
| `RoundTrip.ResponseRoundTrip` | server.py:71-98 | before 2100 the client accepts every built response and reads back its language, clock fields and byte length, with text that decodes to the sentence; from 2100 on it refuses it for its year |
| `RoundTrip.ClientServerExchange` | server.py:124-137 | a date or time request to one of three distinct ports gets one reply, to its sender, that the client accepts as that port's language and whose text decodes to the sentence in that language |
| `RoundTrip.EverySendAccepted` | server.py:136 | before 2100, every packet the listening loop sends is accepted by the client |

`ResponsePacket`, `ResponseText`, `Header`, `Format`, `DateText`, `TimeText`, `Pad2` and
`Utf8.Decode` are the definitions the lemmas above are about. Their contracts are stated
on those lemmas, not on the definitions themselves.

## Left out

- Sockets, `select`, `recvfrom` and `sendto` (server.py:119-125, 136, 144-161; client.py:111-123, 130-143) are operating-system I/O. They are replaced by sequences of received datagrams and of sends. The `while True` loop is modelled over any finite number of wake-ups, because it never ends.
- The client's one-second wait for the reply and its timeout (client.py:111-123) are readiness waiting on a socket and are not modelled.
- `datetime.datetime.now()` (server.py:82-83) reads the wall clock. Each datagram carries its own clock reading. `ValidClock` keeps only the field ranges `datetime` guarantees, not that the day exists in that month.
- Both `args_checker` functions (server.py:43-69; client.py:10-46) are command-line parsing and `socket.getaddrinfo` name resolution, which is a foreign call. So are the client's mapping of "date"/"time" to 1/2 and the binding of the three ports in `main`.
- `print` diagnostics, `sys.exit` and exit codes are not modelled. Every rejection is a datatype variant. The client's exit on a short reply is the separate `TooShort` variant.
- The client's UTF-8 decoding of the text when printing it (client.py:109) is an uncaught library call made after validation. The client keeps the text as raw bytes. `Utf8.Decode` is only used to state that the server's text can be decoded back.
- `set_datetime_template` assigns global dictionaries at run time (server.py:17-41). It is modelled as constant tables keyed by language, plus the port-to-language choice described above.
- A port other than the three configured ones leaves `language_code` unassigned (server.py:76-81). Every operation requires the port to be one of the three, which always holds for the port a bound socket reports.
- Localization.Format: models `str.format` only for replacement fields of the form `{n}`, the only ones the templates contain. Escaped braces, format specifications and the errors `str.format` raises for other input are not modelled.
