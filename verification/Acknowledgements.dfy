/**
 The text of an acknowledgement: a sequence number printed as a JSON integer by
 the consumer and parsed back by the producer.
*/
module Acknowledgements {
  import opened Names
  import opened Wrappers

  const DIGITS: string := "0123456789"

  predicate IsDigit(c: char)
  {
    '0' <= c <= '9'
  }

  predicate IsJsonSpace(c: char)
  {
    c == ' ' || c == '\t' || c == '\n' || c == '\r'
  }

  /** A JSON integer: no leading zero, no sign for an unsigned number. */
  function Dump(n: nat): (text: string)
    ensures |text| > 0
  {
    if n < 10 then [DIGITS[n]] else Dump(n / 10) + [DIGITS[n % 10]]
  }

  function DigitsValue(text: string): nat
    requires forall c <- text :: IsDigit(c)
  {
    if text == [] then 0
    else
      var last := text[|text| - 1];
      assert IsDigit(last);
      10 * DigitsValue(text[..|text| - 1]) + (last - '0') as int
  }

  /** The `int` production of RFC 8259, section 6, without its sign. */
  predicate IsUnsigned(text: string)
  {
    && text != []
    && (forall c <- text :: IsDigit(c))
    && (text[0] == '0' ==> |text| == 1)
  }

  function TrimLeft(text: string): string
  {
    if text != [] && IsJsonSpace(text[0]) then TrimLeft(text[1..]) else text
  }

  function TrimRight(text: string): string
  {
    if text != [] && IsJsonSpace(text[|text| - 1]) then TrimRight(text[..|text| - 1]) else text
  }

  /** The octets of a UTF-8 byte order mark, which the JSON library skips at the start. */
  const BYTE_ORDER_MARK: string := ['\U{EF}', '\U{BB}', '\U{BF}']

  function SkipMark(text: string): string
  {
    if BYTE_ORDER_MARK <= text then text[3..] else text
  }

  /**
   What the producer's handler reads from a backchannel payload. Integers out of
   the 64-bit range become floating-point numbers and fail the integer test, as
   do all other values; malformed texts raise an error that is caught. A negative
   integer passes the test and is converted to an unsigned number modulo 2^64.
  */
  function ParseNumber(text: string): (number: Option<nat>)
    ensures number.Some? ==> number.value < U64
  {
    TokenValue(TrimRight(TrimLeft(SkipMark(text))))
  }

  function TokenValue(token: string): (number: Option<nat>)
    ensures number.Some? ==> number.value < U64
  {
    if IsUnsigned(token) then
      var value := DigitsValue(token);
      if value < U64 then Some(value) else None
    else if token != [] && token[0] == '-' && IsUnsigned(token[1..]) then
      var value := DigitsValue(token[1..]);
      if value == 0 then Some(0) else if value <= U64 / 2 then Some(U64 - value) else None
    else None
  }

  lemma AppendDigit(text: string, digit: nat)
    requires IsUnsigned(text) && text[0] != '0' && digit < 10
    ensures var next := text + [DIGITS[digit]];
      IsUnsigned(next) && next[0] == text[0] && DigitsValue(next) == 10 * DigitsValue(text) + digit
  {
    assert (text + [DIGITS[digit]])[..|text|] == text;
  }

  lemma {:induction false} DumpIsUnsigned(n: nat)
    ensures IsUnsigned(Dump(n))
    ensures Dump(n)[0] == '0' ==> n == 0
    ensures DigitsValue(Dump(n)) == n
  {
    if n < 10 {
      assert Dump(n)[..0] == [];
    } else {
      DumpIsUnsigned(n / 10);
      AppendDigit(Dump(n / 10), n % 10);
    }
  }

  /** The acknowledgement round trip, for every 64-bit sequence number. */
  lemma AcknowledgementRoundTrip(n: nat)
    requires n < U64
    ensures ParseNumber(Dump(n)) == Some(n)
  {
    DumpIsUnsigned(n);
    DigitsStay(Dump(n));
  }

  lemma DigitsStay(text: string)
    requires IsUnsigned(text)
    ensures TrimRight(TrimLeft(SkipMark(text))) == text
  {
    assert IsDigit(text[0]) && IsDigit(text[|text| - 1]);
    assert !(BYTE_ORDER_MARK <= text) by {
      assert BYTE_ORDER_MARK[0] == '\U{EF}';
    }
  }

  /** Decimal digits, the most significant first. */
  lemma DecimalDigits(text: string, c: char)
    requires (forall x <- text :: '0' <= x <= '9') && '0' <= c <= '9'
    ensures DigitsValue([]) == 0 && DigitsValue(text + [c]) == 10 * DigitsValue(text) + (c as int - 48)
  {
    assert (text + [c])[..|text|] == text;
  }

  lemma DumpOn(w: nat, v: nat, digit: nat)
    requires v > 0 && digit < 10 && w == 10 * v + digit
    ensures Dump(w) == Dump(v) + [DIGITS[digit]]
  {
    assert w / 10 == v && w % 10 == digit;
  }

  lemma DigitOf(c: char)
    requires IsDigit(c)
    ensures DIGITS[(c - '0') as int] == c
  {
  }

  /** A longer integer without its last digit. */
  lemma FrontOf(token: string)
    requires IsUnsigned(token) && |token| > 1
    ensures var front := token[..|token| - 1]; IsUnsigned(front) && front[0] != '0'
    ensures IsDigit(token[|token| - 1])
  {
    var front := token[..|token| - 1];
    assert front[0] == token[0] && forall c <- front :: c in token;
  }

  lemma DumpAppended(front: string, last: char, v: nat, w: nat)
    requires IsDigit(last) && v > 0 && front == Dump(v) && w == 10 * v + (last as int - 48)
    ensures front + [last] == Dump(w)
  {
    DumpOn(w, v, (last - '0') as int);
    DigitOf(last);
  }

  /** An integer without sign and leading zeros is how its value is printed. */
  lemma {:induction false} UnsignedIsDump(token: string)
    requires IsUnsigned(token)
    ensures token == Dump(DigitsValue(token))
  {
    if |token| == 1 {
      OneDigit(token);
    } else {
      var front, last := token[..|token| - 1], token[|token| - 1];
      FrontOf(token);
      UnsignedIsDump(front);
      PositiveValue(front);
      assert token == front + [last];
      DecimalDigits(front, last);
      DumpAppended(front, last, DigitsValue(front), DigitsValue(token));
    }
  }

  lemma OneDigit(token: string)
    requires IsUnsigned(token) && |token| == 1
    ensures token == Dump(DigitsValue(token))
    ensures token[0] != '0' ==> DigitsValue(token) > 0
  {
    assert token[0] in token;
    DigitOf(token[0]);
    assert token[..0] == [];
    assert DigitsValue(token) == (token[0] - '0') as int;
  }

  lemma {:induction false} PositiveValue(token: string)
    requires IsUnsigned(token) && token[0] != '0'
    ensures DigitsValue(token) > 0
  {
    if |token| == 1 {
      OneDigit(token);
    } else {
      FrontOf(token);
      PositiveValue(token[..|token| - 1]);
    }
  }

  /** JSON white space only: blanks, tabulators, line feeds, carriage returns. */
  predicate IsBlank(text: string)
  {
    forall c <- text :: c in {' ', '\t', '\n', '\r'}
  }

  lemma {:induction false} TrimLeftSplits(text: string) returns (lead: string)
    ensures text == lead + TrimLeft(text) && IsBlank(lead)
  {
    if text != [] && IsJsonSpace(text[0]) {
      lead := TrimLeftSplits(text[1..]);
      lead := [text[0]] + lead;
    } else {
      lead := [];
    }
  }

  lemma {:induction false} TrimRightSplits(text: string) returns (trail: string)
    ensures text == TrimRight(text) + trail && IsBlank(trail)
  {
    if text != [] && IsJsonSpace(text[|text| - 1]) {
      trail := TrimRightSplits(text[..|text| - 1]);
      trail := trail + [text[|text| - 1]];
    } else {
      trail := [];
    }
  }

  lemma {:induction false} TrimLeftOf(lead: string, rest: string)
    requires IsBlank(lead) && (rest != [] ==> !IsJsonSpace(rest[0]))
    ensures TrimLeft(lead + rest) == rest
  {
    if lead == [] {
      assert lead + rest == rest;
    } else {
      assert lead[0] in lead && forall c <- lead[1..] :: c in lead;
      assert (lead + rest)[1..] == lead[1..] + rest;
      TrimLeftOf(lead[1..], rest);
    }
  }

  lemma {:induction false} TrimRightOf(rest: string, trail: string)
    requires IsBlank(trail) && (rest != [] ==> !IsJsonSpace(rest[|rest| - 1]))
    ensures TrimRight(rest + trail) == rest
  {
    if trail == [] {
      assert rest + trail == rest;
    } else {
      var front, last := trail[..|trail| - 1], trail[|trail| - 1];
      assert last in trail && forall c <- front :: c in trail;
      assert (rest + trail)[..|rest + trail| - 1] == rest + front;
      TrimRightOf(rest, front);
    }
  }

  /**
   The number is written out: in decimal digits without leading zeros; a negative one
   no further than -2^63 stands for itself plus 2^64, and -0 for 0.
  */
  predicate Spells(number: string, value: nat)
  {
    || (value < 0x1_0000_0000_0000_0000 && number == Dump(value))
    || (value == 0 && number == "-0")
    || (0x8000_0000_0000_0000 <= value < 0x1_0000_0000_0000_0000 && number == ['-'] + Dump(0x1_0000_0000_0000_0000 - value))
  }

  lemma TokenSpells(token: string, value: nat)
    ensures TokenValue(token) == Some(value) <==> Spells(token, value)
  {
    if TokenValue(token) == Some(value) {
      if IsUnsigned(token) {
        UnsignedIsDump(token);
      } else {
        UnsignedIsDump(token[1..]);
        assert token == ['-'] + token[1..];
        assert Dump(0) == "0";
      }
    }
    if Spells(token, value) {
      SpelledToken(token, value);
    }
  }

  lemma SpelledToken(token: string, value: nat)
    requires Spells(token, value)
    ensures TokenValue(token) == Some(value)
    ensures token != [] && !IsJsonSpace(token[0]) && !IsJsonSpace(token[|token| - 1]) && token[0] <= '9'
  {
    if value < U64 && token == Dump(value) {
      SpelledDigits(token, value);
    } else if token == "-0" && value == 0 {
      SpelledNegative(token, 0);
    } else {
      SpelledNegative(token, U64 - value);
    }
  }

  lemma SpelledNegative(token: string, n: nat)
    requires token == (if n == 0 then "-0" else ['-'] + Dump(n))
    ensures token != [] && token[0] == '-' && IsDigit(token[|token| - 1])
    ensures n <= U64 / 2 ==> TokenValue(token) == Some(if n == 0 then 0 else U64 - n)
  {
    if n == 0 {
      assert Dump(0) == "0";
      assert token == ['-'] + Dump(0);
    }
    SpelledDigits(Dump(n), n);
    NegativeToken(token, Dump(n), n);
  }

  lemma NegativeToken(token: string, digits: string, n: nat)
    requires token == ['-'] + digits && IsUnsigned(digits) && DigitsValue(digits) == n && IsDigit(digits[|digits| - 1])
    ensures token != [] && token[0] == '-' && IsDigit(token[|token| - 1])
    ensures n <= U64 / 2 ==> TokenValue(token) == Some(if n == 0 then 0 else U64 - n)
  {
    assert token[1..] == digits;
    assert token[0] in token && !IsDigit('-');
  }

  lemma SpelledDigits(token: string, value: nat)
    requires token == Dump(value)
    ensures value < U64 ==> TokenValue(token) == Some(value)
    ensures IsUnsigned(token) && DigitsValue(token) == value && IsDigit(token[0]) && IsDigit(token[|token| - 1])
  {
    DumpIsUnsigned(value);
    assert token[0] in token && token[|token| - 1] in token;
  }

  /** A text in which a number is written, with white space around it and perhaps a byte order mark in front. */
  ghost predicate Writes(text: string, value: nat)
  {
    exists marked: bool, lead, number, trail :: WritesWith(text, value, marked, lead, number, trail)
  }

  predicate WritesWith(text: string, value: nat, marked: bool, lead: string, number: string, trail: string)
  {
    && text == (if marked then ['\U{EF}', '\U{BB}', '\U{BF}'] else []) + lead + number + trail
    && IsBlank(lead) && IsBlank(trail) && Spells(number, value)
  }

  /**
   What the handler accepts, both ways: a text parses to a number exactly when that
   number is written in it, and nothing else but white space and a byte order mark.
  */
  lemma ParsedExactlyWhenWritten(text: string, value: nat)
    ensures ParseNumber(text) == Some(value) <==> Writes(text, value)
  {
    if ParseNumber(text) == Some(value) {
      ParsedIsWritten(text, value);
    }
    if Writes(text, value) {
      var marked: bool, lead, number, trail :| WritesWith(text, value, marked, lead, number, trail);
      WrittenParses(text, value, marked, lead, number, trail);
    }
  }

  lemma Regroup(a: string, b: string, c: string, d: string)
    ensures a + (b + (c + d)) == a + b + c + d
  {
  }

  lemma MarkSplits(text: string) returns (mark: string)
    ensures text == mark + SkipMark(text) && mark == if BYTE_ORDER_MARK <= text then ['\U{EF}', '\U{BB}', '\U{BF}'] else []
  {
    mark := if BYTE_ORDER_MARK <= text then BYTE_ORDER_MARK else [];
  }

  lemma ParsedIsWritten(text: string, value: nat)
    requires ParseNumber(text) == Some(value)
    ensures Writes(text, value)
  {
    var rest := SkipMark(text);
    var mark := MarkSplits(text);
    var lead := TrimLeftSplits(rest);
    var trail := TrimRightSplits(TrimLeft(rest));
    var token := TrimRight(TrimLeft(rest));
    TokenSpells(token, value);
    Regroup(mark, lead, token, trail);
    assert WritesWith(text, value, BYTE_ORDER_MARK <= text, lead, token, trail);
  }

  lemma MarkSkipped(marked: bool, rest: string)
    requires rest != [] && rest[0] <= '9'
    ensures SkipMark((if marked then ['\U{EF}', '\U{BB}', '\U{BF}'] else []) + rest) == rest
  {
    if marked {
      assert BYTE_ORDER_MARK <= BYTE_ORDER_MARK + rest;
    } else {
      assert [] + rest == rest;
      assert BYTE_ORDER_MARK[0] == '\U{EF}';
    }
  }

  lemma WrittenParses(text: string, value: nat, marked: bool, lead: string, number: string, trail: string)
    requires WritesWith(text, value, marked, lead, number, trail)
    ensures ParseNumber(text) == Some(value)
  {
    SpelledToken(number, value);
    Regroup(if marked then ['\U{EF}', '\U{BB}', '\U{BF}'] else [], lead, number, trail);
    assert lead != [] ==> lead[0] in lead;
    MarkSkipped(marked, lead + (number + trail));
    TrimLeftOf(lead, number + trail);
    TrimRightOf(number, trail);
  }

  /** Distinct sequence numbers erase distinct names of a node, whatever the text says of the rest. */
  lemma AcknowledgementErasesItsItem(node: Name, app: Name, n: nat, m: nat)
    requires n < U64 && m < U64
    ensures ParseNumber(Dump(n)).Some?
    ensures StoreName(node, app, ParseNumber(Dump(n)).value) == StoreName(node, app, m) <==> n == m
  {
    AcknowledgementRoundTrip(n);
    StoreNameInjective(node, app, n, m);
  }
}
