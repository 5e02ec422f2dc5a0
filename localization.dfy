/**
 * The per-language sentence templates and month tables the server fills in
 * (server.py, `set_datetime_template` and the formatting in `get_response_pkt`).
 * Each template is written already split into literal text and `{n}` replacement fields.
 */
module Localization {
  import opened Wire
  import opened Decimal

  datatype Piece = Text(s: string) | Field(index: nat)

  type Template = seq<Piece>

  /** Every replacement field of `t` names one of the first `n` arguments. */
  predicate FieldsBelow(t: Template, n: nat)
  {
    forall i | 0 <= i < |t| :: t[i].Field? ==> t[i].index < n
  }

  /** `str.format` over a template whose fields are `{0}`, `{1}`, ... and string arguments. */
  function Format(t: Template, args: seq<string>): string
    requires FieldsBelow(t, |args|)
  {
    if t == [] then "" else Format(t[..|t| - 1], args) + Fill(t[|t| - 1], args)
  }

  /** What one piece contributes: its literal text, or the argument its field names. */
  function Fill(p: Piece, args: seq<string>): string
    requires p.Field? ==> p.index < |args|
  {
    match p
    case Text(s) => s
    case Field(i) => args[i]
  }

  /** Appending a piece to a template appends what that piece contributes. */
  lemma FormatSnoc(t: Template, p: Piece, args: seq<string>)
    requires FieldsBelow(t + [p], |args|)
    ensures FieldsBelow(t, |args|) && (p.Field? ==> p.index < |args|)
    ensures Format(t + [p], args) == Format(t, args) + Fill(p, args)
  {
    assert (t + [p])[..|t|] == t;
    assert (t + [p])[|t|] == p;
  }

  /** A template of six pieces formats to the six filled pieces in order. */
  lemma FormatSix(t: Template, args: seq<string>)
    requires FieldsBelow(t, |args|) && |t| == 6
    ensures Format(t, args) == Fill(t[0], args) + Fill(t[1], args) + Fill(t[2], args)
                               + Fill(t[3], args) + Fill(t[4], args) + Fill(t[5], args)
  {
    assert t == [t[0], t[1], t[2], t[3], t[4]] + [t[5]];
    FormatSnoc([t[0], t[1], t[2], t[3], t[4]], t[5], args);
    FormatFive([t[0], t[1], t[2], t[3], t[4]], args);
  }

  /** A template of five pieces formats to the five filled pieces in order. */
  lemma FormatFive(t: Template, args: seq<string>)
    requires FieldsBelow(t, |args|) && |t| == 5
    ensures Format(t, args) == Fill(t[0], args) + Fill(t[1], args) + Fill(t[2], args)
                               + Fill(t[3], args) + Fill(t[4], args)
  {
    assert t == [t[0], t[1], t[2], t[3]] + [t[4]];
    FormatSnoc([t[0], t[1], t[2], t[3]], t[4], args);
    FormatFour([t[0], t[1], t[2], t[3]], args);
  }

  /** A template of four pieces formats to the four filled pieces in order. */
  lemma FormatFour(t: Template, args: seq<string>)
    requires FieldsBelow(t, |args|) && |t| == 4
    ensures Format(t, args) == Fill(t[0], args) + Fill(t[1], args) + Fill(t[2], args) + Fill(t[3], args)
  {
    assert t == [t[0], t[1], t[2]] + [t[3]];
    FormatSnoc([t[0], t[1], t[2]], t[3], args);
    FormatThree([t[0], t[1], t[2]], args);
  }

  /** A template of three pieces formats to the three filled pieces in order. */
  lemma FormatThree(t: Template, args: seq<string>)
    requires FieldsBelow(t, |args|) && |t| == 3
    ensures Format(t, args) == Fill(t[0], args) + Fill(t[1], args) + Fill(t[2], args)
  {
    assert t == [t[0], t[1]] + [t[2]];
    FormatSnoc([t[0], t[1]], t[2], args);
    FormatTwo([t[0], t[1]], args);
  }

  /** A template of two pieces formats to the two filled pieces in order. */
  lemma FormatTwo(t: Template, args: seq<string>)
    requires FieldsBelow(t, |args|) && |t| == 2
    ensures Format(t, args) == Fill(t[0], args) + Fill(t[1], args)
  {
    assert t == [t[0]] + [t[1]];
    FormatSnoc([t[0]], t[1], args);
    assert [t[0]] == [] + [t[0]];
    FormatSnoc([], t[0], args);
  }

  /** DATE_TEMPLATE: fields {0} day, {1} month name, {2} year. */
  function DateTemplate(l: Language): (t: Template)
    ensures FieldsBelow(t, 3)
  {
    match l
    case English => [Text("Today’s date is "), Field(1), Text(" "), Field(0), Text(", "), Field(2)]
    case Maori => [Text("Ko te ra o tenei ra ko "), Field(1), Text(" "), Field(0), Text(", "), Field(2)]
    case German => [Text("Heute ist der "), Field(0), Text(". "), Field(1), Text(" "), Field(2)]
  }

  /** TIME_TEMPLATE: fields {0} hour, {1} minute. */
  function TimeTemplate(l: Language): (t: Template)
    ensures FieldsBelow(t, 2)
  {
    match l
    case English => [Text("The current time is "), Field(0), Text(":"), Field(1)]
    case Maori => [Text("Ko te wa o tenei wa "), Field(0), Text(":"), Field(1)]
    case German => [Text("Die Uhrzeit ist "), Field(0), Text(":"), Field(1)]
  }

  /** MONTH: the name of month `m` in language `l`. */
  function MonthName(l: Language, m: int): (name: string)
    requires 1 <= m <= 12
    ensures 3 <= |name| <= 16
  {
    match l
    case English =>
      ["January", "February", "March", "April", "May", "June", "July", "August",
       "September", "October", "November", "December"][m - 1]
    case Maori =>
      ["Kohitatea", "Hui-tanguru", "Poutu-te-rangi", "Paenga-whawha ", "Haratua", "Pipiri",
       "Hongongoi", "Here-turi-koka", "Mahuru", "Whiringa-a-nuku", "Whiringa-a-rangi", "Hakihea"][m - 1]
    case German =>
      ["Januar", "Februar", "Marz", "April", "Mai", "Juni", "Juli", "August",
       "September", "Oktober", "November", "Dezember"][m - 1]
  }

  /** The date sentence: day and year unpadded, the month by name. */
  function DateText(l: Language, day: nat, month: int, year: nat): string
    requires 1 <= month <= 12
  {
    Format(DateTemplate(l), [Render(day), MonthName(l, month), Render(year)])
  }

  /** The time sentence: hour and minute padded to two characters. */
  function TimeText(l: Language, hour: nat, minute: nat): string
  {
    Format(TimeTemplate(l), [Pad2(hour), Pad2(minute)])
  }

  /** The words before the hour in each language's time sentence. */
  function TimePrefix(l: Language): string
  {
    match l
    case English => "The current time is "
    case Maori => "Ko te wa o tenei wa "
    case German => "Die Uhrzeit ist "
  }

  /** Each language's date sentence, with its three values in that language's order. */
  lemma DateTextSentence(l: Language, day: nat, month: int, year: nat)
    requires 1 <= month <= 12
    ensures var d, m, y := Render(day), MonthName(l, month), Render(year);
      DateText(l, day, month, year) ==
        match l
        case English => "Today’s date is " + m + " " + d + ", " + y
        case Maori => "Ko te ra o tenei ra ko " + m + " " + d + ", " + y
        case German => "Heute ist der " + d + ". " + m + " " + y
  {
    var args := [Render(day), MonthName(l, month), Render(year)];
    FormatSix(DateTemplate(l), args);
  }

  /** The time sentence ends in exactly two hour digits, a colon and two minute digits. */
  lemma TimeTextSentence(l: Language, hour: nat, minute: nat)
    requires hour < 100 && minute < 100
    ensures TimeText(l, hour, minute) ==
      TimePrefix(l) + [DigitChar(hour / 10), DigitChar(hour % 10), ':',
                       DigitChar(minute / 10), DigitChar(minute % 10)]
  {
    var h, m := Pad2(hour), Pad2(minute);
    Pad2Digits(hour);
    Pad2Digits(minute);
    FormatFour(TimeTemplate(l), [h, m]);
    assert TimeText(l, hour, minute) == TimePrefix(l) + h + ":" + m;
    assert h + ":" + m == [DigitChar(hour / 10), DigitChar(hour % 10), ':',
                           DigitChar(minute / 10), DigitChar(minute % 10)];
  }
}
