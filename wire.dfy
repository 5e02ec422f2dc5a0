/** The constants both scripts write and check, and the three languages of a response. */
module Wire {
  import opened Bytes

  /** The 16-bit sentinel 0x497E that opens every packet. */
  const MagicNumber: nat := 0x497E
  const MagicHigh: Byte := 0x49
  const MagicLow: Byte := 0x7E

  /** Packet types. */
  const RequestPacketType: nat := 1
  const ResponsePacketType: nat := 2

  /** Request types. */
  const DateRequest: nat := 1
  const TimeRequest: nat := 2

  /** Size of a request and of a response header. */
  const RequestSize: nat := 6
  const HeaderSize: nat := 13

  datatype Language = English | Maori | German

  /** The 16-bit language code of a response; its high byte is always zero. */
  function Code(l: Language): (c: Byte)
    ensures 1 <= c <= 3
  {
    match l
    case English => 1
    case Maori => 2
    case German => 3
  }

  /** The language a valid code names; the client reports it by `Name`. */
  function LanguageOfCode(c: nat): (l: Language)
    requires 1 <= c <= 3
    ensures Code(l) == c
    ensures Name(l) == ["English", "Te reo Maori", "German"][c - 1]
  {
    if c == 1 then English else if c == 2 then Maori else German
  }

  /** The name the client reports for each language. */
  function Name(l: Language): string
  {
    match l
    case English => "English"
    case Maori => "Te reo Maori"
    case German => "German"
  }

}
