/** JSON texts (ECMA-404): reading a value, and writing the pairs that cursors are made of. */
module JsonText {
  import opened Wrappers
  import opened Calendar

  /** A JSON value as far as cursors look into it; a number is the text that spells it. */
  datatype JsonValue =
    | NullValue | Boolean | Numeral(token: string) | Text(s: string)
    | List(items: seq<JsonValue>) | Record

  // ------------------------------------------------------------ tokens

  function SkipSpace(text: string): (rest: string)
    ensures |rest| <= |text|
  {
    if text != "" && (text[0] == ' ' || text[0] == '\t' || text[0] == '\n' || text[0] == '\r')
      then SkipSpace(text[1..]) else text
  }

  predicate StartsWith(text: string, token: string) {
    |token| <= |text| && text[..|token|] == token
  }

  /** How many digits a text starts with. */
  function Span(text: string): (n: nat)
    ensures n <= |text| && AllDigits(text[..n]) && (n < |text| ==> !IsDigit(text[n]))
  {
    if text == "" || !IsDigit(text[0]) then 0
    else
      var rest := Span(text[1..]);
      assert text[..1 + rest] == [text[0]] + text[1..][..rest];
      1 + rest
  }

  /** The length of the number a text starts with, if it starts with one. */
  function NumberLength(text: string): (length: Option<nat>)
    ensures length.Some? ==> 0 < length.value <= |text|
  {
    var sign := if StartsWith(text, "-") then 1 else 0;
    var whole := Span(text[sign..]);
    if whole == 0 || (whole > 1 && text[sign] == '0') then None
    else
      var n := sign + whole;
      var fraction := if n < |text| && text[n] == '.' then Span(text[n + 1..]) else 0;
      if n < |text| && text[n] == '.' && fraction == 0 then None
      else
        var m := if fraction > 0 then n + 1 + fraction else n;
        if m < |text| && (text[m] == 'e' || text[m] == 'E') then
          var k := if m + 1 < |text| && (text[m + 1] == '+' || text[m + 1] == '-') then m + 2 else m + 1;
          var power := Span(text[k..]);
          if power == 0 then None else Some(k + power)
        else Some(m)
  }

  function HexValue(c: char): Option<nat> {
    if '0' <= c <= '9' then Some((c - '0') as nat)
    else if 'a' <= c <= 'f' then Some((c - 'a') as nat + 10)
    else if 'A' <= c <= 'F' then Some((c - 'A') as nat + 10)
    else None
  }

  /** The code unit four hexadecimal digits spell; halves of surrogate pairs become U+FFFD. */
  function CodeUnit(text: string): Option<char> {
    if |text| < 4 || HexValue(text[0]).None? || HexValue(text[1]).None? || HexValue(text[2]).None?
      || HexValue(text[3]).None? then None
    else
      var n := 4096 * HexValue(text[0]).value + 256 * HexValue(text[1]).value + 16 * HexValue(text[2]).value
          + HexValue(text[3]).value;
      Some(if 0xD800 <= n < 0xE000 || n > 0xFFFF then '\U{FFFD}' else n as char)
  }

  function Escaped(c: char): Option<char> {
    if c == '"' || c == '\\' || c == '/' then Some(c)
    else if c == 'b' then Some('\U{0008}')
    else if c == 'f' then Some('\U{000C}')
    else if c == 'n' then Some('\n')
    else if c == 'r' then Some('\r')
    else if c == 't' then Some('\t')
    else None
  }

  /** The rest of a string after its opening quote, and what follows its closing quote. */
  function ReadString(text: string): (read: Option<(string, string)>)
    ensures read.Some? ==> |read.value.1| < |text|
  {
    if text == "" || text[0] < ' ' then None
    else if text[0] == '"' then Some(("", text[1..]))
    else if text[0] != '\\' then Prepended(text[0], ReadString(text[1..]))
    else if |text| < 2 then None
    else if text[1] == 'u' then
      if CodeUnit(text[2..]).None? then None else Prepended(CodeUnit(text[2..]).value, ReadString(text[6..]))
    else if Escaped(text[1]).None? then None
    else Prepended(Escaped(text[1]).value, ReadString(text[2..]))
  }

  function Prepended(c: char, read: Option<(string, string)>): Option<(string, string)> {
    if read.None? then None else Some(([c] + read.value.0, read.value.1))
  }

  // ------------------------------------------------------------ values

  /** The value a text starts with, and what follows it. */
  function ReadValue(text: string): (read: Option<(JsonValue, string)>)
    ensures read.Some? ==> |read.value.1| < |text|
    decreases |text|, 0
  {
    var t := SkipSpace(text);
    if t == "" then None
    else if StartsWith(t, "null") then Some((NullValue, t[4..]))
    else if StartsWith(t, "true") then Some((Boolean, t[4..]))
    else if StartsWith(t, "false") then Some((Boolean, t[5..]))
    else if t[0] == '"' then
      var quoted := ReadString(t[1..]);
      if quoted.None? then None else Some((Text(quoted.value.0), quoted.value.1))
    else if t[0] == '[' then
      if StartsWith(SkipSpace(t[1..]), "]") then Some((List([]), SkipSpace(t[1..])[1..]))
      else
        var items := ReadItems(t[1..]);
        if items.None? then None else Some((List(items.value.0), items.value.1))
    else if t[0] == '{' then
      if StartsWith(SkipSpace(t[1..]), "}") then Some((Record, SkipSpace(t[1..])[1..]))
      else
        var rest := ReadMembers(t[1..]);
        if rest.None? then None else Some((Record, rest.value))
    else
      var length := NumberLength(t);
      if length.None? then None else Some((Numeral(t[..length.value]), t[length.value..]))
  }

  function ReadItems(text: string): (read: Option<(seq<JsonValue>, string)>)
    ensures read.Some? ==> |read.value.1| < |text|
    decreases |text|, 1
  {
    var first := ReadValue(text);
    if first.None? then None
    else
      var rest := SkipSpace(first.value.1);
      if StartsWith(rest, "]") then Some(([first.value.0], rest[1..]))
      else if !StartsWith(rest, ",") then None
      else
        var more := ReadItems(rest[1..]);
        if more.None? then None else Some(([first.value.0] + more.value.0, more.value.1))
  }

  function ReadMembers(text: string): (rest: Option<string>)
    ensures rest.Some? ==> |rest.value| < |text|
    decreases |text|, 1
  {
    var t := SkipSpace(text);
    if !StartsWith(t, "\"") then None
    else
      var key := ReadString(t[1..]);
      if key.None? || !StartsWith(SkipSpace(key.value.1), ":") then None
      else
        var value := ReadValue(SkipSpace(key.value.1)[1..]);
        if value.None? then None
        else
          var rest := SkipSpace(value.value.1);
          if StartsWith(rest, "}") then Some(rest[1..])
          else if StartsWith(rest, ",") then ReadMembers(rest[1..])
          else None
  }

  /** The value a whole text spells. */
  function ReadJson(text: string): Option<JsonValue> {
    var read := ReadValue(text);
    if read.None? || SkipSpace(read.value.1) != "" then None else Some(read.value.0)
  }

  // ------------------------------------------------------------ integers

  function Decimal(n: nat): (text: string)
    ensures text != "" && AllDigits(text)
  {
    if n < 10 then [DigitChar(n)] else Decimal(n / 10) + [DigitChar(n % 10)]
  }

  function DigitChar(n: nat): (c: char)
    requires n < 10
    ensures IsDigit(c) && DigitValue(c) == n
  {
    '0' + n as char
  }

  /** An integer as JSON writes it. */
  function IntegerText(n: int): string {
    if n < 0 then "-" + Decimal(-n) else Decimal(n)
  }

  /** The integer a number without fraction and exponent spells. */
  function IntegerOf(token: string): Option<int> {
    if StartsWith(token, "-") then
      (if token[1..] != "" && AllDigits(token[1..]) then Some(0 - Number(token[1..]) as int) else None)
    else if token != "" && AllDigits(token) then Some(Number(token))
    else None
  }

  lemma {:induction false} DecimalIsNumber(n: nat)
    ensures Number(Decimal(n)) == n && (Decimal(n)[0] == '0' ==> n == 0 && |Decimal(n)| == 1)
    ensures IsDigit(Decimal(n)[0])
  {
    assert Decimal(n)[0] in Decimal(n);
    if n >= 10 {
      DecimalIsNumber(n / 10);
      assert Decimal(n)[..|Decimal(n)| - 1] == Decimal(n / 10);
    } else {
      assert [DigitChar(n)][..0] == [];
    }
  }

  lemma IntegerReturns(n: int)
    ensures IntegerOf(IntegerText(n)) == Some(n)
  {
    hide Decimal, Number;
    DecimalIsNumber(if n < 0 then -n else n);
    if n < 0 {
      assert IntegerText(n)[..1] == "-" && IntegerText(n)[1..] == Decimal(-n);
    } else {
      StartsOtherwise(IntegerText(n), "-");
    }
  }

  /** What may follow a number without being part of it. */
  predicate EndsNumber(rest: string) {
    rest != "" ==> !IsDigit(rest[0]) && rest[0] != '.' && rest[0] != 'e' && rest[0] != 'E'
  }

  lemma {:induction false} SpanOfDigits(digits: string, rest: string)
    requires AllDigits(digits) && (rest != "" ==> !IsDigit(rest[0]))
    ensures Span(digits + rest) == |digits|
  {
    if digits != "" {
      assert (digits + rest)[1..] == digits[1..] + rest;
      SpanOfDigits(digits[1..], rest);
    } else {
      assert digits + rest == rest;
    }
  }

  lemma IntegerIsRead(n: int, rest: string)
    requires EndsNumber(rest)
    ensures NumberLength(IntegerText(n) + rest) == Some(|IntegerText(n)|)
  {
    hide Decimal, Number, Span;
    var sign, digits := if n < 0 then "-" else "", Decimal(if n < 0 then -n else n);
    DecimalIsNumber(if n < 0 then -n else n);
    SpanOfDigits(digits, rest);
    var text := IntegerText(n) + rest;
    assert text == sign + (digits + rest);
    if n < 0 { assert text[..1] == "-"; } else { StartsOtherwise(text, "-"); }
    assert text[|sign|..] == digits + rest;
  }

  lemma IntegerIsValue(n: int, rest: string)
    requires EndsNumber(rest)
    ensures ReadValue(IntegerText(n) + rest) == Some((Numeral(IntegerText(n)), rest))
  {
    hide Decimal, NumberLength, Number;
    IntegerIsRead(n, rest);
    var text := IntegerText(n) + rest;
    DecimalIsNumber(if n < 0 then -n else n);
    assert text[0] == '-' || IsDigit(text[0]);
    assert SkipSpace(text) == text;
    StartsOtherwise(text, "null");
    StartsOtherwise(text, "true");
    StartsOtherwise(text, "false");
    assert text[..|IntegerText(n)|] == IntegerText(n) && text[|IntegerText(n)|..] == rest;
  }

  lemma StartsOtherwise(text: string, token: string)
    requires text != "" && token != "" && text[0] != token[0]
    ensures !StartsWith(text, token)
  {
    if |token| <= |text| { assert text[..|token|][0] == text[0]; }
  }

  // ------------------------------------------------------------ pairs

  /** Characters that stand for themselves inside a string. */
  predicate Plain(text: string) {
    forall c <- text :: c >= ' ' && c != '"' && c != '\\'
  }

  lemma {:induction false} PlainIsRead(text: string, rest: string)
    requires Plain(text)
    ensures ReadString(text + "\"" + rest) == Some((text, rest))
  {
    var all := text + "\"" + rest;
    if text == "" {
      assert all == "\"" + rest && all[1..] == rest;
    } else {
      assert text[0] in text && all[1..] == text[1..] + "\"" + rest;
      assert forall c <- text[1..] :: c in text;
      PlainIsRead(text[1..], rest);
      assert text == [text[0]] + text[1..];
    }
  }

  /** A pair of an integer or null and a string, as JSON writes it. */
  function PairText(position: Option<int>, item: string): string {
    "[" + FirstText(position) + ",\"" + item + "\"]"
  }

  function FirstText(position: Option<int>): string {
    if position.None? then "null" else IntegerText(position.value)
  }

  function FirstValue(position: Option<int>): JsonValue {
    if position.None? then NullValue else Numeral(IntegerText(position.value))
  }

  lemma NullIsValue(rest: string)
    ensures ReadValue("null" + rest) == Some((NullValue, rest))
  {
    hide NumberLength, ReadString, ReadItems, ReadMembers;
    var text := "null" + rest;
    assert text[0] == 'n';
    assert SkipSpace(text) == text && text[..4] == "null" && text[4..] == rest;
  }

  lemma FirstIsValue(position: Option<int>, rest: string)
    requires EndsNumber(rest)
    ensures ReadValue(FirstText(position) + rest) == Some((FirstValue(position), rest))
    ensures FirstText(position) != "" && FirstText(position)[0] !in " \t\n\r]"
  {
    hide ReadValue, Decimal, Number;
    match position
    case None => NullIsValue(rest);
    case Some(n) =>
      IntegerIsValue(n, rest);
      assert FirstText(position)[0] == '-' || IsDigit(FirstText(position)[0]);
  }

  lemma ItemIsRead(item: string)
    requires Plain(item)
    ensures ReadItems("\"" + item + "\"]") == Some(([Text(item)], ""))
  {
    hide ReadString;
    var text := "\"" + item + "\"]";
    assert SkipSpace(text) == text;
    StartsOtherwise(text, "null");
    StartsOtherwise(text, "true");
    StartsOtherwise(text, "false");
    assert text[1..] == item + "\"" + "]";
    PlainIsRead(item, "]");
    assert ReadValue(text) == Some((Text(item), "]"));
    assert SkipSpace("]") == "]" && "]"[..1] == "]" && "]"[1..] == "";
  }

  /** Reading a pair gives back what was written. */
  lemma PairIsRead(position: Option<int>, item: string)
    requires Plain(item)
    ensures ReadJson(PairText(position, item)) == Some(List([FirstValue(position), Text(item)]))
  {
    hide ReadValue, FirstText, FirstValue;
    var rest := ",\"" + item + "\"]";
    FirstIsValue(position, rest);
    ItemIsRead(item);
    var items := FirstText(position) + rest;
    assert SkipSpace(rest) == rest && rest[..1] == "," && rest[1..] == "\"" + item + "\"]";
    StartsOtherwise(rest, "]");
    assert [FirstValue(position)] + [Text(item)] == [FirstValue(position), Text(item)];
    assert ReadValue(items) == Some((FirstValue(position), rest));
    assert ReadItems(items) == Some(([FirstValue(position), Text(item)], ""));
    assert items == FirstText(position) + ",\"" + item + "\"]";
    assert items[0] == FirstText(position)[0];
    PairIsList(position, item, items);
  }

  lemma PairIsList(position: Option<int>, item: string, items: string)
    requires items == FirstText(position) + ",\"" + item + "\"]"
    requires items != "" && items[0] !in " \t\n\r]"
             && ReadItems(items) == Some(([FirstValue(position), Text(item)], ""))
    ensures ReadJson(PairText(position, item)) == Some(List([FirstValue(position), Text(item)]))
  {
    hide ReadItems, FirstText, FirstValue, NumberLength, ReadString, ReadMembers;
    var text := PairText(position, item);
    assert text == "[" + items && text[1..] == items;
    assert SkipSpace(text) == text && SkipSpace(items) == items;
    StartsOtherwise(text, "null");
    StartsOtherwise(text, "true");
    StartsOtherwise(text, "false");
    StartsOtherwise(items, "]");
  }
}
