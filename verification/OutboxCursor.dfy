/** Outbox cursors: a publication time with all its microseconds and an activity, as text. */
module OutboxCursor {
  import opened Wrappers
  import opened Calendar

  /** Where an activity stands in its outbox. */
  datatype Key = Key(published: Moment, id: int)
  /** What a cursor asks to continue after; the time as microseconds since the epoch. */
  datatype Boundary = Boundary(published: int, id: int)

  /** How UUIDs are written and recognised. */
  datatype Uuids = Uuids(write: int -> string, read: string -> Option<int>)
  {
    ghost predicate Faithful() {
      forall id :: read(write(id)) == Some(id) && '|' !in write(id)
    }
  }

  // ------------------------------------------------------------ the text of a moment

  function Width(n: nat): nat { if n < 10000 then 4 else 1 + Width(n / 10) }

  /** The year as the database prints it: at least four digits, and without its era. */
  function YearText(year: int): string {
    var printed: nat := if year >= 1 then year else 1 - year;
    Padded(printed, Width(printed))
  }

  function RestOfDate(t: Moment): string
    requires t.Valid()
  {
    "-" + Padded(t.month, 2) + "-" + Padded(t.day, 2)
  }

  function TimeText(t: Moment): string
    requires t.Valid()
  {
    "T" + Padded(t.hour, 2) + ":" + Padded(t.minute, 2) + ":" + Padded(t.second, 2) + "." + Padded(t.micro, 6) + "Z"
  }

  function MomentText(t: Moment): string
    requires t.Valid()
  {
    YearText(t.year) + RestOfDate(t) + TimeText(t)
  }

  function CursorText(uuids: Uuids, key: Key): string
    requires key.published.Valid()
  {
    MomentText(key.published) + "|" + uuids.write(key.id)
  }

  // ------------------------------------------------------------ parsing

  function Split(text: string): (parts: seq<string>)
    ensures parts != []
  {
    if text == "" then [""]
    else if text[0] == '|' then [""] + Split(text[1..])
    else
      var rest := Split(text[1..]);
      [[text[0]] + rest[0]] + rest[1..]
  }

  /** Four digits, two digits and so on to six, with the separators of a UTC time in between. */
  predicate LooksLikeMoment(text: string) {
    && |text| == 27
    && AllDigits(text[..4]) && text[4] == '-' && AllDigits(text[5..7]) && text[7] == '-' && AllDigits(text[8..10])
    && text[10] == 'T' && AllDigits(text[11..13]) && text[13] == ':' && AllDigits(text[14..16]) && text[16] == ':'
    && AllDigits(text[17..19]) && text[19] == '.' && AllDigits(text[20..26]) && text[26] == 'Z'
  }

  /** The time a text names, if its fields exist; the 60th second is the start of the next minute. */
  function ReadMoment(text: string): Option<int>
    requires LooksLikeMoment(text)
  {
    var t := Moment(Number(text[..4]), Number(text[5..7]), Number(text[8..10]),
                    Number(text[11..13]), Number(text[14..16]), Number(text[17..19]), Number(text[20..26]));
    if ValidDate(t.year, t.month, t.day) && t.hour < 24 && t.minute < 60 && t.second <= 60
    then Some(((Days(t.year, t.month, t.day) - EPOCH_DAYS) * 86400 + SecondsOfDay(t)) * 1000000 + t.micro)
    else None
  }

  datatype Parsed = First | After(boundary: Boundary) | Invalid

  function ParseCursor(uuids: Uuids, cursor: string): Parsed {
    if cursor == "" then First
    else
      var parts := Split(cursor);
      if |parts| != 2 || parts[0][..if |parts[0]| < 5 then |parts[0]| else 5] == "0000-" || !LooksLikeMoment(parts[0])
         || uuids.read(parts[1]).None?
      then Invalid
      else
        match ReadMoment(parts[0])
        case None => Invalid
        case Some(published) => After(Boundary(published, uuids.read(parts[1]).value))
  }

  // ------------------------------------------------------------ the round trip

  lemma {:induction false} SplitWithout(text: string)
    requires '|' !in text
    ensures Split(text) == [text]
  {
    if text != "" {
      SplitWithout(text[1..]);
      assert text[0] in text && text == [text[0]] + text[1..];
    }
  }

  lemma {:induction false} SplitTwo(a: string, b: string)
    requires '|' !in a && '|' !in b
    ensures Split(a + "|" + b) == [a, b]
  {
    var all := a + "|" + b;
    if a == "" {
      assert all[1..] == b;
      SplitWithout(b);
    } else {
      assert a[0] in a && all[1..] == a[1..] + "|" + b && a == [a[0]] + a[1..];
      SplitTwo(a[1..], b);
    }
  }

  lemma PowersOfTen()
    ensures Power(2) == 100 && Power(4) == 10000 && Power(6) == 1000000
  {
    assert Power(1) == 10 && Power(3) == 1000 && Power(5) == 100000;
  }

  lemma DateTextParts(t: Moment)
    requires t.Valid()
    ensures var text := RestOfDate(t);
            |text| == 6 && text[0] == '-' && text[1..3] == Padded(t.month, 2)
            && text[3] == '-' && text[4..6] == Padded(t.day, 2)
  {
    hide Padded;
  }

  lemma TimeTextParts(t: Moment)
    requires t.Valid()
    ensures var text := TimeText(t);
            && |text| == 17 && text[0] == 'T' && text[1..3] == Padded(t.hour, 2) && text[3] == ':'
               && text[4..6] == Padded(t.minute, 2)
            && text[6] == ':' && text[7..9] == Padded(t.second, 2) && text[9] == '.'
               && text[10..16] == Padded(t.micro, 6) && text[16] == 'Z'
  {
    hide Padded;
    var a := "T" + Padded(t.hour, 2) + ":" + Padded(t.minute, 2) + ":";
    var b := Padded(t.second, 2) + "." + Padded(t.micro, 6) + "Z";
    assert TimeText(t) == a + b;
    assert |a| == 7 && a[1..3] == Padded(t.hour, 2) && a[4..6] == Padded(t.minute, 2);
    assert |b| == 10 && b[..2] == Padded(t.second, 2) && b[3..9] == Padded(t.micro, 6);
    assert (a + b)[1..3] == a[1..3] && (a + b)[4..6] == a[4..6];
    assert (a + b)[7..9] == b[..2] && (a + b)[10..16] == b[3..9];
  }

  /** Where the fields of a printed moment are, when its year takes four digits. */
  lemma MomentTextParts(t: Moment, year: string)
    requires t.Valid() && YearText(t.year) == year && |year| == 4
    ensures var text := MomentText(t);
            && |text| == 27 && text[..4] == year && text[4] == '-' && text[5..7] == Padded(t.month, 2) && text[7] == '-'
            && text[8..10] == Padded(t.day, 2) && text[10] == 'T' && text[11..13] == Padded(t.hour, 2)
               && text[13] == ':'
            && text[14..16] == Padded(t.minute, 2) && text[16] == ':' && text[17..19] == Padded(t.second, 2)
               && text[19] == '.'
            && text[20..26] == Padded(t.micro, 6) && text[26] == 'Z'
  {
    hide Padded, RestOfDate, TimeText, YearText;
    var date, time := RestOfDate(t), TimeText(t);
    DateTextParts(t);
    TimeTextParts(t);
    var text := year + date + time;
    assert text[5..7] == date[1..3] && text[8..10] == date[4..6];
    assert text[11..13] == time[1..3] && text[14..16] == time[4..6] && text[17..19] == time[7..9]
           && text[20..26] == time[10..16];
  }

  lemma FieldsReturn(t: Moment)
    requires t.Valid()
    ensures Number(Padded(t.month, 2)) == t.month && Number(Padded(t.day, 2)) == t.day
            && Number(Padded(t.hour, 2)) == t.hour
    ensures Number(Padded(t.minute, 2)) == t.minute && Number(Padded(t.second, 2)) == t.second
            && Number(Padded(t.micro, 6)) == t.micro
  {
    hide Padded, Number, Power;
    PowersOfTen();
    NumberOfPadded(t.month, 2);
    NumberOfPadded(t.day, 2);
    NumberOfPadded(t.hour, 2);
    NumberOfPadded(t.minute, 2);
    NumberOfPadded(t.second, 2);
    NumberOfPadded(t.micro, 6);
  }

  /** A printed moment reads as the moment with the year that was printed. */
  lemma PrintedMomentReads(t: Moment, printed: nat)
    requires t.Valid() && printed == (if t.year >= 1 then t.year else 1 - t.year) && printed < 10000
    ensures LooksLikeMoment(MomentText(t))
    ensures var u := t.(year := printed);
            ReadMoment(MomentText(t)) == if u.Valid() then Some(Micros(u)) else None
  {
    hide Padded, Number, Power, Days;
    assert YearText(t.year) == Padded(printed, 4);
    MomentTextParts(t, Padded(printed, 4));
    FieldsReturn(t);
    assert Number(Padded(printed, 4)) == printed by {
      PowersOfTen();
      NumberOfPadded(printed, 4);
    }
  }

  lemma {:induction false} WideYears(n: nat)
    ensures Width(n) >= 4 && (n >= 10000 ==> Width(n) > 4)
  {
    if n >= 10000 { WideYears(n / 10); }
  }

  /** A year of more than four digits makes a text that no cursor may have. */
  lemma LongYearsAreRefused(t: Moment, printed: nat)
    requires t.Valid() && printed == (if t.year >= 1 then t.year else 1 - t.year) && printed >= 10000
    ensures !LooksLikeMoment(MomentText(t))
  {
    hide Padded;
    WideYears(printed);
    DateTextParts(t);
    TimeTextParts(t);
    assert |MomentText(t)| > 27;
  }

  lemma DigitsAreNoBars(text: string)
    requires AllDigits(text)
    ensures '|' !in text
  {
  }

  lemma NoBarInMoment(t: Moment)
    requires t.Valid()
    ensures '|' !in MomentText(t)
  {
    hide Padded;
    DigitsAreNoBars(YearText(t.year));
    DigitsAreNoBars(Padded(t.month, 2));
    DigitsAreNoBars(Padded(t.day, 2));
    DigitsAreNoBars(Padded(t.hour, 2));
    DigitsAreNoBars(Padded(t.minute, 2));
    DigitsAreNoBars(Padded(t.second, 2));
    DigitsAreNoBars(Padded(t.micro, 6));
  }

  /** A printed year of this range starts with other than four zeros. */
  lemma NotYearZero(t: Moment, printed: nat)
    requires t.Valid() && printed == (if t.year >= 1 then t.year else 1 - t.year) && printed < 10000
    ensures |MomentText(t)| >= 5 && MomentText(t)[..5] != "0000-"
  {
    hide Padded, Power;
    assert YearText(t.year) == Padded(printed, 4);
    MomentTextParts(t, Padded(printed, 4));
    PowersOfTen();
    NumberOfPadded(printed, 4);
    var text := MomentText(t);
    assert text[..5][..4] == text[..4];
    assert "0000-"[..4] == "0000";
    ZeroIsZero();
  }

  lemma ZeroIsZero()
    ensures AllDigits("0000") && Number("0000") == 0
  {
    assert "0000"[..3] == "000" && "000"[..2] == "00" && "00"[..1] == "0" && "0"[..0] == "";
  }

  /**
   * A cursor parses back to the boundary it was made from exactly for the years 1 to 9999: earlier
   * years lose their era, later ones no longer fit the pattern.
   */
  lemma CursorReturnsExactlyWhen(uuids: Uuids, key: Key)
    requires uuids.Faithful() && key.published.Valid()
    ensures ParseCursor(uuids, CursorText(uuids, key)) == After(Boundary(Micros(key.published), key.id))
       <==> 1 <= key.published.year <= 9999
  {
    hide MomentText, LooksLikeMoment, ReadMoment, Micros, Split, Days;
    var t := key.published;
    var printed: nat := if t.year >= 1 then t.year else 1 - t.year;
    NoBarInMoment(t);
    SplitTwo(MomentText(t), uuids.write(key.id));
    if printed >= 10000 {
      LongYearsAreRefused(t, printed);
    } else {
      PrintedMomentReads(t, printed);
      NotYearZero(t, printed);
      var u := t.(year := printed);
      if u.Valid() { FieldOrderIsTimeOrder(t, u); }
    }
  }

  /** A year before the year 1 is written as the year of the same number in our era, and read as that year. */
  lemma EraIsLost(uuids: Uuids, key: Key)
    requires uuids.Faithful() && key.published.Valid() && -9998 <= key.published.year <= 0
    requires key.published.(year := 1 - key.published.year).Valid()
    ensures var later := key.published.(year := 1 - key.published.year);
            && ParseCursor(uuids, CursorText(uuids, key)) == After(Boundary(Micros(later), key.id))
            && Micros(key.published) < Micros(later)
  {
    hide MomentText, LooksLikeMoment, ReadMoment, Split, Days, Micros;
    var t := key.published;
    NoBarInMoment(t);
    SplitTwo(MomentText(t), uuids.write(key.id));
    PrintedMomentReads(t, 1 - t.year);
    NotYearZero(t, 1 - t.year);
    FieldOrderIsTimeOrder(t, t.(year := 1 - t.year));
  }

  /** Outside the years 1 to 9999 a cursor is refused, or names a later time than the one it was made from. */
  lemma CursorStraysOutside(uuids: Uuids, key: Key)
    requires uuids.Faithful() && key.published.Valid() && !(1 <= key.published.year <= 9999)
    ensures var parsed := ParseCursor(uuids, CursorText(uuids, key));
            parsed.Invalid? || (parsed.After? && parsed.boundary.published > Micros(key.published))
  {
    hide MomentText, LooksLikeMoment, ReadMoment, Micros, Split, Days;
    var t := key.published;
    var printed: nat := if t.year >= 1 then t.year else 1 - t.year;
    NoBarInMoment(t);
    SplitTwo(MomentText(t), uuids.write(key.id));
    if printed >= 10000 {
      LongYearsAreRefused(t, printed);
    } else {
      PrintedMomentReads(t, printed);
      NotYearZero(t, printed);
      var u := t.(year := printed);
      if u.Valid() { FieldOrderIsTimeOrder(t, u); }
    }
  }

  /** For one, the first of March of 1 BC comes back as the first of March of the year 1. */
  lemma EraIsLostOnce(uuids: Uuids)
    requires uuids.Faithful()
    ensures var t := Moment(0, 3, 1, 0, 0, 0, 0);
            t.Valid() && ParseCursor(uuids, CursorText(uuids, Key(t, 7))) != After(Boundary(Micros(t), 7))
  {
    hide MomentText, ParseCursor, Days, Micros;
    var t := Moment(0, 3, 1, 0, 0, 0, 0);
    assert t.Valid() && t.(year := 1).Valid();
    EraIsLost(uuids, Key(t, 7));
  }

  // ------------------------------------------------------------ which texts are cursors

  /** What a clock may show; in a leap second, the 60th. */
  predicate IsClock(t: Moment) {
    && 1 <= t.year <= 9999 && ValidDate(t.year, t.month, t.day)
    && 0 <= t.hour < 24 && 0 <= t.minute < 60 && 0 <= t.second <= 60 && 0 <= t.micro < 1000000
  }

  function Printed(t: Moment): string
    requires IsClock(t)
  {
    Padded(t.year, 4) + "-" + Padded(t.month, 2) + "-" + Padded(t.day, 2)
    + "T" + Padded(t.hour, 2) + ":" + Padded(t.minute, 2) + ":" + Padded(t.second, 2) + "." + Padded(t.micro, 6) + "Z"
  }

  /** The time a clock shows: the 60th second is one after the 59th. */
  function Shown(t: Moment): int
    requires IsClock(t)
  {
    if t.second == 60 then Micros(t.(second := 59)) + 1000000 else Micros(t)
  }

  lemma {:induction false} SplitJoins(text: string)
    ensures |Split(text)| == 1 ==> '|' !in text && Split(text)[0] == text
    ensures |Split(text)| == 2 ==>
              text == Split(text)[0] + "|" + Split(text)[1] && '|' !in Split(text)[0] && '|' !in Split(text)[1]
  {
    if text != "" {
      SplitJoins(text[1..]);
      assert text == [text[0]] + text[1..];
    }
  }

  lemma PrintedParts(t: Moment)
    requires IsClock(t)
    ensures var text := Printed(t);
            && |text| == 27 && text[..4] == Padded(t.year, 4) && text[4] == '-' && text[5..7] == Padded(t.month, 2)
            && text[7] == '-' && text[8..10] == Padded(t.day, 2) && text[10] == 'T'
            && text[11..13] == Padded(t.hour, 2) && text[13] == ':' && text[14..16] == Padded(t.minute, 2)
            && text[16] == ':' && text[17..19] == Padded(t.second, 2) && text[19] == '.'
            && text[20..26] == Padded(t.micro, 6) && text[26] == 'Z'
  {
    hide Padded;
  }

  lemma ClockIsRead(t: Moment)
    requires IsClock(t)
    ensures LooksLikeMoment(Printed(t)) && ReadMoment(Printed(t)) == Some(Shown(t)) && Printed(t)[..5] != "0000-"
    ensures '|' !in Printed(t)
  {
    hide Padded, Number, Power, Days, Leap;
    PrintedParts(t);
    PowersOfTen();
    NumberOfPadded(t.year, 4);
    NumberOfPadded(t.month, 2);
    NumberOfPadded(t.day, 2);
    NumberOfPadded(t.hour, 2);
    NumberOfPadded(t.minute, 2);
    NumberOfPadded(t.second, 2);
    NumberOfPadded(t.micro, 6);
    assert Printed(t)[..5][..4] == Printed(t)[..4] && "0000-"[..4] == "0000";
    ZeroIsZero();
    NoBarInPrinted(t);
  }

  lemma NoBarInPrinted(t: Moment)
    requires IsClock(t)
    ensures '|' !in Printed(t)
  {
    hide Padded;
    DigitsAreNoBars(Padded(t.year, 4));
    DigitsAreNoBars(Padded(t.month, 2));
    DigitsAreNoBars(Padded(t.day, 2));
    DigitsAreNoBars(Padded(t.hour, 2));
    DigitsAreNoBars(Padded(t.minute, 2));
    DigitsAreNoBars(Padded(t.second, 2));
    DigitsAreNoBars(Padded(t.micro, 6));
  }

  /** The clock a text shows, field by field. */
  function ClockOf(text: string): Moment
    requires LooksLikeMoment(text)
  {
    Moment(Number(text[..4]), Number(text[5..7]), Number(text[8..10]),
           Number(text[11..13]), Number(text[14..16]), Number(text[17..19]), Number(text[20..26]))
  }

  lemma ReadIsClock(text: string)
    requires LooksLikeMoment(text) && text[..5] != "0000-" && ReadMoment(text).Some?
    ensures IsClock(ClockOf(text)) && text == Printed(ClockOf(text)) && ReadMoment(text) == Some(Shown(ClockOf(text)))
  {
    hide Padded, Number, Power, Days, Leap;
    PowersOfTen();
    NumberIsSmall(text[..4]);
    NumberIsSmall(text[20..26]);
    PaddedNumber(text[..4]);
    PaddedNumber(text[5..7]);
    PaddedNumber(text[8..10]);
    PaddedNumber(text[11..13]);
    PaddedNumber(text[14..16]);
    PaddedNumber(text[17..19]);
    PaddedNumber(text[20..26]);
    ZeroYear(text);
    TextByParts(text);
  }

  lemma ZeroYear(text: string)
    requires LooksLikeMoment(text) && text[..5] != "0000-"
    ensures Number(text[..4]) >= 1
  {
    hide Number;
    ZeroIsZero();
    DigitOrderIsNumberOrder(text[..4], "0000");
    assert text[..5] == text[..4] + [text[4]];
    assert "0000-" == "0000" + ['-'];
  }

  lemma TextByParts(text: string)
    requires LooksLikeMoment(text)
    ensures text == text[..4] + "-" + text[5..7] + "-" + text[8..10]
                    + "T" + text[11..13] + ":" + text[14..16] + ":" + text[17..19] + "." + text[20..26] + "Z"
  {
    hide AllDigits;
  }

  /**
   * A cursor is a clock from the year 1 to 9999 in the one form, a bar, and a UUID, and asks for what is
   * before that time and UUID; the empty one asks for the first page, and all else is refused.
   */
  lemma CursorsInWords(uuids: Uuids, cursor: string, boundary: Boundary)
    ensures ParseCursor(uuids, cursor) == First <==> cursor == ""
    ensures ParseCursor(uuids, cursor) == After(boundary) <==>
              exists t, uuid ::
                && IsClock(t) && '|' !in uuid && cursor == Printed(t) + "|" + uuid
                && boundary.published == Shown(t) && uuids.read(uuid) == Some(boundary.id)
  {
    hide Split, LooksLikeMoment, ReadMoment, IsClock, Printed, Shown;
    SplitJoins(cursor);
    if ParseCursor(uuids, cursor) == After(boundary) {
      var text, uuid := Split(cursor)[0], Split(cursor)[1];
      LooksHaveLength(text);
      ReadIsClock(text);
      assert cursor == Printed(ClockOf(text)) + "|" + uuid;
    }
    if t, uuid :| IsClock(t) && '|' !in uuid && cursor == Printed(t) + "|" + uuid
                  && boundary.published == Shown(t) && uuids.read(uuid) == Some(boundary.id)
    {
      ClockIsRead(t);
      SplitTwo(Printed(t), uuid);
      LooksHaveLength(Printed(t));
    }
  }

  lemma LooksHaveLength(text: string)
    requires LooksLikeMoment(text)
    ensures |text| == 27
  {
  }
}
