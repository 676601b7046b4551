/** The shapes of the bare tokens of an example, put together from their parts. */
module TokenShapes {
  import opened ExampleGrammar

  predicate Digits(text: string) {
    text != "" && forall i | 0 <= i < |text| :: '0' <= text[i] <= '9'
  }

  lemma DigitsAre()
    ensures forall text: string :: Digits(text) <==> AllDigits(text)
  {
    forall text: string ensures Digits(text) <==> AllDigits(text) {
      assert Digits(text) ==> forall c | c in text :: IsDigit(c);
      assert AllDigits(text) ==> forall i | 0 <= i < |text| :: text[i] in text;
    }
  }

  predicate Sign(text: string) {
    text == "" || text == "-"
  }

  /** Digits, with or without a minus. */
  lemma IntegerShape(text: string)
    ensures IsInteger(text) <==> exists sign, digits :: Sign(sign) && Digits(digits) && text == sign + digits
  {
    DigitsAre();
    if IsInteger(text) {
      var sign := if text[0] == '-' then "-" else "";
      assert text == sign + Unsigned(text) && Digits(Unsigned(text));
    }
    if sign, digits :| Sign(sign) && Digits(digits) && text == sign + digits {
      assert Unsigned(text) == digits;
    }
  }

  ghost predicate PointBetween(body: string) {
    exists whole, fraction :: Digits(whole) && Digits(fraction) && body == whole + ("." + fraction)
  }

  lemma PointBetweenIff(body: string)
    ensures PointBetween(body)
            <==> exists i | 0 < i < |body| :: body[i] == '.' && AllDigits(body[..i]) && AllDigits(body[i + 1..])
  {
    DigitsAre();
    if i :| 0 < i < |body| && body[i] == '.' && AllDigits(body[..i]) && AllDigits(body[i + 1..]) {
      assert body == body[..i] + ("." + body[i + 1..]);
    }
    if whole, fraction :| Digits(whole) && Digits(fraction) && body == whole + ("." + fraction) {
      assert body[..|whole|] == whole && body[|whole| + 1..] == fraction && body[|whole|] == '.';
    }
  }

  /** Two runs of digits around a point, with or without a minus. */
  lemma DecimalShape(text: string)
    ensures IsDecimal(text) <==> exists sign, body :: Sign(sign) && PointBetween(body) && text == sign + body
  {
    PointBetweenIff(Unsigned(text));
    if IsDecimal(text) {
      assert text == (if text != "" && text[0] == '-' then "-" else "") + Unsigned(text);
    }
    if sign, body :| Sign(sign) && PointBetween(body) && text == sign + body {
      assert Unsigned(text) == body;
    }
  }

  /** Z, or hours and minutes with a sign, or nothing. */
  predicate ZonePart(text: string) {
    || text == "" || text == "Z"
    || (|text| == 6 && (text[0] == '+' || text[0] == '-') && Digits(text[1..3]) && text[3] == ':' && Digits(text[4..6]))
  }

  lemma ZonePartIff(text: string)
    ensures ZonePart(text) <==> IsZone(text)
  {
    DigitsAre();
    if |text| == 6 {
      assert text[4..6] == text[4..];
    }
  }

  /** Two digits behind a colon, with a fraction behind a point or not, or nothing. */
  ghost predicate SecondsPart(text: string) {
    || text == "" || (|text| == 3 && text[0] == ':' && Digits(text[1..3]))
    || (|text| > 4 && text[0] == ':' && Digits(text[1..3]) && text[3] == '.' && Digits(text[4..]))
  }

  lemma {:induction false} DigitsAreDropped(digits: string, rest: string)
    requires (digits == "" || Digits(digits)) && (rest == "" || !IsDigit(rest[0]))
    ensures DropDigits(digits + rest) == rest
  {
    if digits == "" {
      assert digits + rest == rest;
    } else {
      assert (digits + rest)[1..] == digits[1..] + rest;
      DigitsAreDropped(digits[1..], rest);
    }
  }

  lemma {:induction false} DroppedAreDigits(text: string) returns (digits: string)
    ensures (digits == "" || Digits(digits)) && text == digits + DropDigits(text)
    ensures text != "" && IsDigit(text[0]) ==> digits != ""
  {
    if text != "" && IsDigit(text[0]) {
      var more := DroppedAreDigits(text[1..]);
      digits := [text[0]] + more;
    } else {
      digits := "";
    }
  }

  lemma SecondsAndZone(seconds: string, zone: string)
    requires SecondsPart(seconds) && ZonePart(zone)
    ensures IsSecondsAndZone(seconds + zone)
  {
    var text := seconds + zone;
    DigitsAre();
    ZonePartIff(zone);
    if seconds == "" {
      assert text == zone;
    } else {
      assert text[1..3] == seconds[1..3];
      var after := text[3..];
      if |seconds| == 3 {
        assert after == zone;
      } else {
        assert after == seconds[3..] + zone;
        assert after[1..] == seconds[4..] + zone;
        DigitsAreDropped(seconds[4..], zone);
      }
    }
  }

  lemma SecondsAndZoneParts(text: string) returns (seconds: string, zone: string)
    requires IsSecondsAndZone(text)
    ensures SecondsPart(seconds) && ZonePart(zone) && text == seconds + zone
  {
    DigitsAre();
    if |text| >= 3 && text[0] == ':' && AllDigits(text[1..3]) {
      var after := text[3..];
      if |after| >= 2 && after[0] == '.' && IsDigit(after[1]) {
        var digits := DroppedAreDigits(after[1..]);
        seconds, zone := text[..4] + digits, DropDigits(after[1..]);
        assert text == text[..4] + after[1..];
        assert seconds[1..3] == text[1..3] && seconds[4..] == digits;
      } else {
        seconds, zone := text[..3], after;
        assert seconds[1..3] == text[1..3];
      }
    } else {
      seconds, zone := "", text;
    }
    ZonePartIff(zone);
  }

  /** A date and a time to the minute, in fixed places. */
  predicate MinutePart(text: string) {
    && |text| == 16 && Digits(text[0..4]) && text[4] == '-' && Digits(text[5..7]) && text[7] == '-'
    && Digits(text[8..10]) && text[10] == 'T' && Digits(text[11..13]) && text[13] == ':' && Digits(text[14..16])
  }

  lemma MinutePlaces(minute: string, text: string)
    requires |minute| == 16 && |text| >= 16 && text[..16] == minute
    ensures MinutePart(minute)
            <==> && AllDigits(text[..4]) && text[4] == '-' && AllDigits(text[5..7]) && text[7] == '-'
                 && AllDigits(text[8..10]) && text[10] == 'T' && AllDigits(text[11..13]) && text[13] == ':'
                 && AllDigits(text[14..16])
  {
    DigitsAre();
    assert minute[0..4] == text[..4] && minute[5..7] == text[5..7] && minute[8..10] == text[8..10];
    assert minute[11..13] == text[11..13] && minute[14..16] == text[14..16];
  }

  /** A minute, then seconds and a zone where they are given. */
  lemma DatetimeShape(text: string)
    ensures HasDatetimeShape(text) <==> exists minute, seconds, zone ::
              MinutePart(minute) && SecondsPart(seconds) && ZonePart(zone) && text == minute + (seconds + zone)
  {
    if HasDatetimeShape(text) {
      MinutePlaces(text[..16], text);
      var seconds, zone := SecondsAndZoneParts(text[16..]);
      assert text == text[..16] + (seconds + zone);
    }
    if minute, seconds, zone :| MinutePart(minute) && SecondsPart(seconds) && ZonePart(zone)
                                && text == minute + (seconds + zone) {
      SecondsAndZone(seconds, zone);
      MinutePlaces(minute, text);
      assert text[16..] == seconds + zone;
    }
  }

  /** A letter of the alphabet, or an underscore. */
  predicate Letter(c: char) {
    || c in {'A', 'B', 'C', 'D', 'E', 'F', 'G', 'H', 'I', 'J', 'K', 'L', 'M', 'N', 'O', 'P', 'Q', 'R', 'S',
             'T', 'U', 'V', 'W', 'X', 'Y', 'Z'}
    || c in {'a', 'b', 'c', 'd', 'e', 'f', 'g', 'h', 'i', 'j', 'k', 'l', 'm', 'n', 'o', 'p', 'q', 'r', 's',
             't', 'u', 'v', 'w', 'x', 'y', 'z'}
    || c == '_'
  }

  /** A name starts with a letter and holds letters and digits. */
  predicate Name(text: string) {
    text != "" && Letter(text[0]) && forall i | 0 <= i < |text| :: Letter(text[i]) || '0' <= text[i] <= '9'
  }

  lemma LetterIs(c: char)
    ensures Letter(c) <==> StartsIdentifier(c)
  {
  }

  lemma NameShape(text: string)
    ensures IsIdentifier(text) <==> Name(text)
  {
    forall i | 0 <= i < |text| ensures text[i] in text && (Letter(text[i]) <==> StartsIdentifier(text[i])) {
      LetterIs(text[i]);
    }
  }

  ghost predicate IntegerWord(text: string) {
    exists sign, digits :: Sign(sign) && Digits(digits) && text == sign + digits
  }

  ghost predicate DecimalWord(text: string) {
    exists sign, body :: Sign(sign) && PointBetween(body) && text == sign + body
  }

  ghost predicate DatetimeWord(text: string) {
    exists minute, seconds, zone ::
      MinutePart(minute) && SecondsPart(seconds) && ZonePart(zone) && text == minute + (seconds + zone)
  }

  /** The bare word is a value of the type. */
  ghost predicate IsBare(calendar: string -> bool, word: string, type_: LiteralType) {
    match type_
    case BooleanType => word == "true" || word == "false"
    case NullType => word == "null"
    case IntegerType => IntegerWord(word)
    case DecimalType => DecimalWord(word)
    case DatetimeType => DatetimeWord(word) && calendar(word)
    case _ => false
  }

  lemma BareIff(calendar: string -> bool, literal: Literal)
    ensures IsBare(calendar, literal.value, literal.type_)
            <==> Fits(calendar, literal) && literal.type_ != StringType && literal.type_ != NameType
  {
    match literal.type_
    case IntegerType => IntegerShape(literal.value);
    case DecimalType => DecimalShape(literal.value);
    case DatetimeType => DatetimeShape(literal.value);
    case _ =>
  }
}
