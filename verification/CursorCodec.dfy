/** Collection cursors as text: a JSON pair in canonical base64, as sections 3.5 and 4 of RFC 4648 define it. */
module CursorCodec {
  import opened Wrappers
  import opened JsonText

  type Byte = b: int | 0 <= b < 256
  type Sextet = v: int | 0 <= v < 64

  // ------------------------------------------------------------ base64

  function Digit(v: Sextet): char {
    if v < 26 then 'A' + v as char
    else if v < 52 then 'a' + (v - 26) as char
    else if v < 62 then '0' + (v - 52) as char
    else if v == 62 then '+' else '/'
  }

  function ValueOf(c: char): Option<Sextet> {
    if 'A' <= c <= 'Z' then Some((c - 'A') as int)
    else if 'a' <= c <= 'z' then Some((c - 'a') as int + 26)
    else if '0' <= c <= '9' then Some((c - '0') as int + 52)
    else if c == '+' then Some(62)
    else if c == '/' then Some(63)
    else None
  }

  lemma DigitsAreValues(v: Sextet)
    ensures ValueOf(Digit(v)) == Some(v) && Digit(v) != '='
  {
  }

  lemma ValuesAreDigits(c: char)
    ensures ValueOf(c).Some? ==> Digit(ValueOf(c).value) == c
  {
  }

  // Three bytes as four sextets, and back.
  function First(x: Byte): Sextet { x / 4 }
  function Second(x: Byte, y: Byte): Sextet { x % 4 * 16 + y / 16 }
  function Third(y: Byte, z: Byte): Sextet { y % 16 * 4 + z / 64 }
  function Fourth(z: Byte): Sextet { z % 64 }
  function Byte1(a: Sextet, b: Sextet): Byte { a * 4 + b / 16 }
  function Byte2(b: Sextet, c: Sextet): Byte { b % 16 * 16 + c / 4 }
  function Byte3(c: Sextet, d: Sextet): Byte { c % 4 * 64 + d }

  lemma BytesReturn(x: Byte, y: Byte, z: Byte)
    ensures Byte1(First(x), Second(x, y)) == x && Byte2(Second(x, y), Third(y, z)) == y
            && Byte3(Third(y, z), Fourth(z)) == z
  {
  }

  lemma SextetsReturn(a: Sextet, b: Sextet, c: Sextet, d: Sextet)
    ensures First(Byte1(a, b)) == a && Second(Byte1(a, b), Byte2(b, c)) == b
    ensures Third(Byte2(b, c), Byte3(c, d)) == c && Fourth(Byte3(c, d)) == d
    ensures Second(Byte1(a, b), 0) == b <==> b % 16 == 0
    ensures Third(Byte2(b, c), 0) == c <==> c % 4 == 0
  {
  }

  function Encode(bytes: seq<Byte>): string {
    if |bytes| == 0 then ""
    else if |bytes| == 1 then [Digit(First(bytes[0])), Digit(Second(bytes[0], 0)), '=', '=']
    else if |bytes| == 2 then
      [Digit(First(bytes[0])), Digit(Second(bytes[0], bytes[1])), Digit(Third(bytes[1], 0)), '=']
    else
      [Digit(First(bytes[0])), Digit(Second(bytes[0], bytes[1])), Digit(Third(bytes[1], bytes[2])),
       Digit(Fourth(bytes[2]))]
      + Encode(bytes[3..])
  }

  predicate IsDigit(c: char) { ValueOf(c).Some? }

  /** Groups of four digits; the last may end with one or two padding signs. */
  predicate MatchesPattern(text: string) {
    if text == "" then true
    else if |text| < 4 || !IsDigit(text[0]) || !IsDigit(text[1]) then false
    else if |text| == 4 && text[3] == '=' then text[2] == '=' || IsDigit(text[2])
    else IsDigit(text[2]) && IsDigit(text[3]) && MatchesPattern(text[4..])
  }

  function Value(c: char): Sextet {
    if ValueOf(c).Some? then ValueOf(c).value else 0
  }

  /** Decodes a text that matches the pattern; unused trailing bits are ignored. */
  function Decode(text: string): seq<Byte>
    requires MatchesPattern(text)
  {
    if text == "" then []
    else if |text| == 4 && text[3] == '=' then
      [Byte1(Value(text[0]), Value(text[1]))]
      + if text[2] == '=' then [] else [Byte2(Value(text[1]), Value(text[2]))]
    else
      [Byte1(Value(text[0]), Value(text[1])), Byte2(Value(text[1]), Value(text[2])),
       Byte3(Value(text[2]), Value(text[3]))]
      + Decode(text[4..])
  }

  /** The bits that the padding leaves unused are zero. */
  predicate TrailingBitsClear(text: string)
    requires MatchesPattern(text)
  {
    if text == "" then true
    else if |text| == 4 && text[3] == '=' then
      if text[2] == '=' then Value(text[1]) % 16 == 0 else Value(text[2]) % 4 == 0
    else TrailingBitsClear(text[4..])
  }

  lemma DigitsReturn(v: Sextet)
    ensures IsDigit(Digit(v)) && Value(Digit(v)) == v && Digit(v) != '='
  {
    DigitsAreValues(v);
  }

  lemma ValuesReturn(c: char)
    requires IsDigit(c)
    ensures Digit(Value(c)) == c
  {
    ValuesAreDigits(c);
  }

  lemma SameDigit(v: Sextet, c: char)
    requires IsDigit(c)
    ensures Digit(v) == c <==> v == Value(c)
  {
    DigitsAreValues(v);
    ValuesAreDigits(c);
  }

  /** Decoding undoes encoding, and every encoding matches the pattern. */
  lemma {:induction false} DecodeEncode(bytes: seq<Byte>)
    ensures MatchesPattern(Encode(bytes)) && Decode(Encode(bytes)) == bytes
    ensures Encode(bytes) == "" <==> bytes == []
  {
    hide ValueOf, Digit, Value, IsDigit, First, Second, Third, Fourth, Byte1, Byte2, Byte3;
    if |bytes| == 1 {
      DigitsReturn(First(bytes[0]));
      DigitsReturn(Second(bytes[0], 0));
      BytesReturn(bytes[0], 0, 0);
    } else if |bytes| == 2 {
      DigitsReturn(First(bytes[0]));
      DigitsReturn(Second(bytes[0], bytes[1]));
      DigitsReturn(Third(bytes[1], 0));
      BytesReturn(bytes[0], bytes[1], 0);
    } else if |bytes| > 2 {
      DigitsReturn(First(bytes[0]));
      DigitsReturn(Second(bytes[0], bytes[1]));
      DigitsReturn(Third(bytes[1], bytes[2]));
      DigitsReturn(Fourth(bytes[2]));
      BytesReturn(bytes[0], bytes[1], bytes[2]);
      DecodeEncode(bytes[3..]);
      assert Encode(bytes)[4..] == Encode(bytes[3..]);
      assert bytes == [bytes[0], bytes[1], bytes[2]] + bytes[3..];
    }
  }

  /** A text is the encoding of its bytes exactly when its unused bits are zero. */
  lemma {:induction false} CanonicalExactlyWhenClear(text: string)
    requires MatchesPattern(text)
    ensures Encode(Decode(text)) == text <==> TrailingBitsClear(text)
  {
    if text != "" {
      if |text| == 4 && text[3] == '=' {
        LastGroup(text);
      } else {
        CanonicalExactlyWhenClear(text[4..]);
        hide Encode, Decode, ValueOf, Digit, Value, IsDigit;
        FullGroup(text);
      }
    }
  }

  lemma LastGroup(text: string)
    requires MatchesPattern(text) && |text| == 4 && text[3] == '='
    ensures Encode(Decode(text)) == text <==> TrailingBitsClear(text)
  {
    hide ValueOf, Digit, Value, IsDigit, First, Second, Third, Fourth, Byte1, Byte2, Byte3;
    var a, b, c := Value(text[0]), Value(text[1]), Value(text[2]);
    ValuesReturn(text[0]);
    ValuesReturn(text[1]);
    SextetsReturn(a, b, c, 0);
    if text[2] == '=' {
      assert Decode(text) == [Byte1(a, b)];
      SameDigit(Second(Byte1(a, b), 0), text[1]);
    } else {
      ValuesReturn(text[2]);
      assert Decode(text) == [Byte1(a, b), Byte2(b, c)];
      SameDigit(Third(Byte2(b, c), 0), text[2]);
    }
  }

  lemma FullGroup(text: string)
    requires |text| >= 4 && !(|text| == 4 && text[3] == '=') && MatchesPattern(text)
    ensures Encode(Decode(text)) == text <==> Encode(Decode(text[4..])) == text[4..]
  {
    hide ValueOf, Digit, Value, IsDigit, First, Second, Third, Fourth, Byte1, Byte2, Byte3;
    var a, b, c, d := Value(text[0]), Value(text[1]), Value(text[2]), Value(text[3]);
    ValuesReturn(text[0]);
    ValuesReturn(text[1]);
    ValuesReturn(text[2]);
    ValuesReturn(text[3]);
    SextetsReturn(a, b, c, d);
    var rest := Decode(text[4..]);
    var all := [Byte1(a, b), Byte2(b, c), Byte3(c, d)] + rest;
    assert Decode(text) == all && all[3..] == rest;
    var encoded := Encode(all);
    assert encoded == text[..4] + Encode(rest);
    assert text == text[..4] + text[4..] && encoded[4..] == Encode(rest);
  }

  // ------------------------------------------------------------ encodings, digit by digit

  const ALPHABET := "ABCDEFGHIJKLMNOPQRSTUVWXYZ" + "abcdefghijklmnopqrstuvwxyz" + "0123456789+/"

  lemma AlphabetIsStandard(v: Sextet)
    ensures Digit(v) == ALPHABET[v]
  {
    var upper, lower, others := "ABCDEFGHIJKLMNOPQRSTUVWXYZ", "abcdefghijklmnopqrstuvwxyz", "0123456789+/";
    if v < 26 {
      assert ALPHABET[v] == upper[v];
    } else if v < 52 {
      assert ALPHABET[v] == lower[v - 26];
    } else {
      assert ALPHABET[v] == others[v - 52];
    }
  }

  /**
   * Four digits spell three bytes as one number of 24 bits, the first byte and the first digit highest.
   * Of the digits only `digits` are written, and padding signs stand for the others.
   */
  ghost predicate Spells(group: string, digits: nat, x: Byte, y: Byte, z: Byte) {
    exists a: Sextet, b: Sextet, c: Sextet, d: Sextet ::
      && 65536 * x + 256 * y + z == 262144 * a + 4096 * b + 64 * c + d
      && group == [ALPHABET[a], ALPHABET[b], if digits > 2 then ALPHABET[c] else '=',
                   if digits > 3 then ALPHABET[d] else '=']
  }

  lemma GroupSpells(group: string, digits: nat, x: Byte, y: Byte, z: Byte)
    requires 2 <= digits <= 4 && (digits < 4 ==> z == 0) && (digits < 3 ==> y == 0)
    requires group == [Digit(First(x)), Digit(Second(x, y)), if digits > 2 then Digit(Third(y, z)) else '=',
                       if digits > 3 then Digit(Fourth(z)) else '=']
    ensures Spells(group, digits, x, y, z)
  {
    AlphabetIsStandard(First(x));
    AlphabetIsStandard(Second(x, y));
    AlphabetIsStandard(Third(y, z));
    AlphabetIsStandard(Fourth(z));
    BitsAgree(x, y, z);
    hide Digit, ALPHABET;
  }

  lemma BitsAgree(x: Byte, y: Byte, z: Byte)
    ensures 65536 * x + 256 * y + z == 262144 * First(x) + 4096 * Second(x, y) + 64 * Third(y, z) + Fourth(z)
  {
  }

  lemma FirstGroupSpells(bytes: seq<Byte>)
    requires bytes != []
    ensures |Encode(bytes)| == 4 + if |bytes| > 3 then |Encode(bytes[3..])| else 0
    ensures Spells(Encode(bytes)[..4], if |bytes| < 3 then |bytes| + 1 else 4, bytes[0],
                   if |bytes| > 1 then bytes[1] else 0, if |bytes| > 2 then bytes[2] else 0)
  {
    hide Digit, First, Second, Third, Fourth, Spells;
    GroupSpells(Encode(bytes)[..4], if |bytes| < 3 then |bytes| + 1 else 4, bytes[0],
                if |bytes| > 1 then bytes[1] else 0, if |bytes| > 2 then bytes[2] else 0);
  }

  /** Every three bytes become four digits of the standard alphabet; missing bytes count as zero and leave padding. */
  lemma {:induction false} EncodeInWords(bytes: seq<Byte>, k: nat)
    requires 3 * k < |bytes|
    ensures |Encode(bytes)| == (|bytes| + 2) / 3 * 4
    ensures var left := |bytes| - 3 * k;
            Spells(Encode(bytes)[4 * k..4 * k + 4], if left < 3 then left + 1 else 4, bytes[3 * k],
                   if left > 1 then bytes[3 * k + 1] else 0, if left > 2 then bytes[3 * k + 2] else 0)
  {
    hide Digit, First, Second, Third, Fourth, Spells;
    FirstGroupSpells(bytes);
    if |bytes| > 3 { EncodeInWords(bytes[3..], if k > 0 then k - 1 else 0); }
    if k > 0 { LaterGroup(bytes, k); }
  }

  lemma LaterGroup(bytes: seq<Byte>, k: nat)
    requires 3 * k < |bytes| && k > 0
    requires 4 * k <= |Encode(bytes[3..])|
    ensures |Encode(bytes)| == |Encode(bytes[3..])| + 4
    ensures Encode(bytes)[4 * k..4 * k + 4] == Encode(bytes[3..])[4 * (k - 1)..4 * (k - 1) + 4]
  {
    hide Digit, First, Second, Third, Fourth;
  }

  // ------------------------------------------------------------ the cursor

  datatype Cursor = Cursor(position: Option<int>, item: string)

  /** The UUID check, and the integer that a number with a fraction or an exponent rounds to, if it is one. */
  datatype Formats = Formats(isUuid: string -> bool, rounded: string -> Option<int>)
  {
    /** UUIDs are spelt with hexadecimal digits and hyphens. */
    ghost predicate Sensible() {
      forall text :: isUuid(text) ==> forall c <- text :: HexValue(c).Some? || c == '-'
    }
  }

  /** Bytes as characters; bytes above 127 occur only inside strings, where no UUID holds them. */
  function TextOf(bytes: seq<Byte>): (text: string)
    ensures |text| == |bytes| && forall i | 0 <= i < |bytes| :: text[i] == bytes[i] as char
  {
    if bytes == [] then "" else [bytes[0] as char] + TextOf(bytes[1..])
  }

  function BytesOf(text: string): (bytes: seq<Byte>)
    requires forall c <- text :: c as int < 256
    ensures |bytes| == |text| && forall i | 0 <= i < |bytes| :: bytes[i] == text[i] as int
  {
    if text == "" then []
    else
      assert text[0] in text && forall c <- text[1..] :: c in text;
      var first: Byte := text[0] as int;
      [first] + BytesOf(text[1..])
  }

  lemma BytesRead(text: string)
    requires forall c <- text :: c as int < 256
    ensures TextOf(BytesOf(text)) == text
  {
  }

  function EncodeCursor(cursor: Cursor): string
    requires forall c <- cursor.item :: c as int < 128
  {
    PairIsAscii(cursor.position, cursor.item);
    Encode(BytesOf(PairText(cursor.position, cursor.item)))
  }

  lemma PairIsAscii(position: Option<int>, item: string)
    requires forall c <- item :: c as int < 128
    ensures forall c <- PairText(position, item) :: c as int < 128
  {
  }

  const MIN_POSITION := -2147483648
  const MAX_POSITION := 2147483647

  predicate ValidCursor(f: Formats, cursor: Cursor) {
    (cursor.position.Some? ==> MIN_POSITION <= cursor.position.value <= MAX_POSITION) && f.isUuid(cursor.item)
  }

  /** The integer a JSON number is, if it is one. */
  function NumberOf(f: Formats, token: string): Option<int> {
    if IntegerOf(token).Some? then IntegerOf(token) else f.rounded(token)
  }

  function ReadPosition(f: Formats, value: JsonValue): Result<Option<int>, ()> {
    match value
    case NullValue => Ok(None)
    case Numeral(token) =>
      var n := NumberOf(f, token);
      if n.Some? && MIN_POSITION <= n.value <= MAX_POSITION then Ok(n) else Err(())
    case _ => Err(())
  }

  /** Parses a cursor, or refuses it: wrong pattern, not canonical, not JSON, or not a position and a UUID. */
  function ParseCursor(f: Formats, text: string): Option<Cursor> {
    if text == "" || !MatchesPattern(text) then None
    else
      var bytes := Decode(text);
      if Encode(bytes) != text then None
      else
        match ReadJson(TextOf(bytes))
        case Some(List(items)) =>
          if |items| != 2 then None
          else
            var position := ReadPosition(f, items[0]);
            if position.Err? || !items[1].Text? || !f.isUuid(items[1].s) then None
            else Some(Cursor(position.value, items[1].s))
        case _ => None
  }

  /** Parsing undoes encoding for every cursor of the collection. */
  lemma ParseEncode(f: Formats, cursor: Cursor)
    requires f.Sensible() && ValidCursor(f, cursor)
    ensures forall c <- cursor.item :: c as int < 128
    ensures MatchesPattern(EncodeCursor(cursor)) && ParseCursor(f, EncodeCursor(cursor)) == Some(cursor)
  {
    hide Encode, Decode, MatchesPattern, ReadJson, PairText, IntegerText, IntegerOf;
    assert forall c <- cursor.item :: HexValue(c).Some? || c == '-';
    var text := PairText(cursor.position, cursor.item);
    PairIsAscii(cursor.position, cursor.item);
    PairIsWritten(cursor.position, cursor.item);
    var bytes := BytesOf(text);
    BytesRead(text);
    DecodeEncode(bytes);
    PairIsRead(cursor.position, cursor.item);
    if cursor.position.Some? { IntegerReturns(cursor.position.value); }
  }

  lemma PairIsWritten(position: Option<int>, item: string)
    ensures PairText(position, item) != ""
  {
  }

  /** Every accepted text is the canonical encoding of its bytes, and names a valid cursor. */
  lemma AcceptedIsCanonical(f: Formats, text: string)
    requires ParseCursor(f, text).Some?
    ensures MatchesPattern(text) && TrailingBitsClear(text) && Encode(Decode(text)) == text
    ensures ValidCursor(f, ParseCursor(f, text).value)
    ensures var cursor := ParseCursor(f, text).value;
            exists first :: ReadPosition(f, first) == Ok(cursor.position)
                         && ReadJson(TextOf(Decode(text))) == Some(List([first, Text(cursor.item)]))
  {
    hide Encode, Decode, MatchesPattern, TrailingBitsClear, ReadJson;
    CanonicalExactlyWhenClear(text);
    var items := ReadJson(TextOf(Decode(text))).value.items;
    assert items == [items[0], items[1]] && items[1] == Text(items[1].s);
    assert ReadPosition(f, items[0]).Ok?;
  }

  /** What spells a position: null for none, and a number that is an integer of 32 bits for any other. */
  predicate SpellsPosition(f: Formats, value: JsonValue, position: Option<int>) {
    if position.None? then value == NullValue
    else
      && value.Numeral? && MIN_POSITION <= position.value <= MAX_POSITION
      && position == if IntegerOf(value.token).Some? then IntegerOf(value.token) else f.rounded(value.token)
  }

  /** A text is read as a cursor exactly when it is the canonical base64 of a JSON pair that spells the cursor. */
  lemma AcceptedExactlyWhen(f: Formats, text: string, cursor: Cursor)
    ensures ParseCursor(f, text) == Some(cursor) <==>
              && text != "" && MatchesPattern(text) && TrailingBitsClear(text) && f.isUuid(cursor.item)
              && exists first :: ReadJson(TextOf(Decode(text))) == Some(List([first, Text(cursor.item)]))
                              && SpellsPosition(f, first, cursor.position)
  {
    hide Encode, Decode, MatchesPattern, TrailingBitsClear, ReadJson;
    if text != "" && MatchesPattern(text) {
      CanonicalExactlyWhenClear(text);
      if ParseCursor(f, text) == Some(cursor) {
        var items := ReadJson(TextOf(Decode(text))).value.items;
        assert items == [items[0], Text(cursor.item)] && SpellsPosition(f, items[0], cursor.position);
      }
    }
  }

  /** Texts that differ only in unused bits decode alike; only the canonical one is accepted. */
  lemma OneTextPerBytes(f: Formats, some: string, other: string)
    requires ParseCursor(f, some).Some? && ParseCursor(f, other).Some?
    requires MatchesPattern(some) && MatchesPattern(other) && Decode(some) == Decode(other)
    ensures some == other
  {
    hide Encode, Decode, MatchesPattern;
  }
}
