/** Message ids as text: how protocols write them (lib/src/ToolsMessage.cpp,
    demo/cc_plugin/DemoMessage.cpp) and how the message factory reads them back
    (lib/src/ToolsMsgFactory.cpp). */
module IdText {
  import opened Wrappers
  import opened HexCodec

  /** The largest value of a 64-bit signed integer. */
  const LONG_MAX: int := 0x7fff_ffff_ffff_ffff

  type Base = b: nat | b == 10 || b == 16 witness 10

  predicate IsDigit(c: char, base: Base) {
    IsHex(c) && DigitValue(c) < base
  }

  predicate AllDigits(d: string, base: Base) {
    forall k :: 0 <= k < |d| ==> IsDigit(d[k], base)
  }

  function Value(d: string, base: Base): nat
    requires AllDigits(d, base)
  {
    if d == "" then 0 else Shifted(Value(d[..|d| - 1], base), base) + DigitValue(d[|d| - 1])
  }

  function Shifted(v: nat, base: Base): nat {
    if base == 10 then 10 * v else 16 * v
  }

  function Unsigned(text: string, base: Base): Option<nat> {
    var d := if base == 16 && 2 <= |text| && text[0] == '0' && text[1] in "xX" then text[2..] else text;
    if d == "" || !AllDigits(d, base) then None else Some(Value(d, base))
  }

  /** A text as a 64-bit signed integer; in base 16 it may have the prefix 0x. */
  function ToLongLong(text: string, base: Base): Option<int> {
    var body := if text != "" && text[0] in "+-" then text[1..] else text;
    match Unsigned(body, base)
    case None => None
    case Some(v) =>
      var n: int := if text[..|text| - |body|] == "-" then 0 - v else v;
      if -LONG_MAX - 1 <= n <= LONG_MAX then Some(n) else None
  }

  /** The factory tries decimal first and then hexadecimal. */
  function ParseId(text: string): Option<int> {
    var n := ToLongLong(text, 10);
    if n.Some? then n else ToLongLong(text, 16)
  }

  function Digits(v: nat, base: Base): (d: string)
    ensures d != "" && AllDigits(d, base)
  {
    if v < base then [HexDigit(v)] else Digits(v / base, base) + [HexDigit(v % base)]
  }

  /** The text of an id unless the protocol's messages say otherwise. */
  function DecimalText(id: int): string {
    if id < 0 then "-" + Digits(-id, 10) else Digits(id, 10)
  }

  /** The text of an id in the demo protocol: at least two hexadecimal digits. */
  function DemoText(id: nat): string {
    "0x" + (if id < 16 then "0" else "") + Digits(id, 16)
  }

  lemma {:induction false} DigitsValue(v: nat, base: Base)
    ensures Value(Digits(v, base), base) == v
  {
    if v < base {
      assert [HexDigit(v)][..0] == "";
    } else {
      DigitsValue(v / base, base);
      ValueBehind(Digits(v / base, base), HexDigit(v % base), base);
    }
  }

  lemma {:induction false} ValueBehind(d: string, c: char, base: Base)
    requires AllDigits(d, base) && IsDigit(c, base)
    ensures AllDigits(d + [c], base) && Value(d + [c], base) == Shifted(Value(d, base), base) + DigitValue(c)
  {
    assert (d + [c])[..|d|] == d;
  }

  lemma {:induction false} DigitsUnsigned(v: nat)
    ensures Unsigned(Digits(v, 10), 10) == Some(v)
  {
    DigitsValue(v, 10);
  }

  /** Every id in range reads back from its decimal text. */
  lemma {:induction false} DecimalReadsBack(id: int)
    requires -0x8000_0000_0000_0000 <= id <= 0x7fff_ffff_ffff_ffff
    ensures ParseId(DecimalText(id)) == Some(id)
  {
    var text := DecimalText(id);
    if id < 0 {
      DigitsUnsigned(-id);
      assert text[1..] == Digits(-id, 10) && text[..1] == "-";
    } else {
      DigitsUnsigned(id);
      assert IsDigit(text[0], 10);
    }
  }

  /** Every id reads back from the demo protocol's text. */
  lemma {:induction false} DemoReadsBack(id: nat)
    requires id <= 0x7fff_ffff_ffff_ffff
    ensures ParseId(DemoText(id)) == Some(id)
  {
    var d := (if id < 16 then "0" else "") + Digits(id, 16);
    var text := "0x" + d;
    assert DemoText(id) == text;
    assert AllDigits(d, 16) && Value(d, 16) == id by {
      DigitsValue(id, 16);
      LeadingZeroValue(Digits(id, 16), 16);
      assert "" + Digits(id, 16) == Digits(id, 16);
    }
    Prefixed(d);
  }

  lemma {:induction false} Prefixed(d: string)
    requires d != "" && AllDigits(d, 16) && Value(d, 16) <= LONG_MAX
    ensures ParseId("0x" + d) == Some(Value(d, 16))
  {
    var text := "0x" + d;
    assert text[0] == '0' && text[1] == 'x' && text[2..] == d;
    assert !AllDigits(text, 10) by {
      assert !IsDigit(text[1], 10);
    }
    assert text[..0] == "";
  }

  lemma {:induction false} LeadingZeroValue(d: string, base: Base)
    requires AllDigits(d, base)
    ensures AllDigits("0" + d, base) && Value("0" + d, base) == Value(d, base)
  {
    var z := "0" + d;
    if d == "" {
      assert z[..0] == "";
    } else {
      LeadingZeroValue(d[..|d| - 1], base);
      assert z[..|z| - 1] == "0" + d[..|d| - 1];
    }
  }

  /** No text without digits is an id; neither the empty one nor the dash of the raw data protocol. */
  lemma {:induction false} NoDigitsNoId()
    ensures ParseId("") == None && ParseId("-") == None
  {
    assert "-"[1..] == "";
  }

  /** A sign and either form of the prefix are read, and digits without a prefix that are no decimal
      number are hexadecimal ones. */
  lemma {:induction false} FormsReadBack(v: nat)
    requires v <= 0x7fff_ffff_ffff_ffff
    ensures ParseId("+" + Digits(v, 10)) == Some(v)
    ensures ParseId("0X" + Digits(v, 16)) == Some(v)
    ensures var r := ParseId("-0x" + Digits(v, 16)); r.Some? && r.value + v == 0
    ensures !AllDigits(Digits(v, 16), 10) ==> ParseId(Digits(v, 16)) == Some(v)
  {
    DigitsUnsigned(v);
    DigitsValue(v, 16);
    SignedDecimal(v);
    UpperPrefix(Digits(v, 16));
    SignedPrefix(Digits(v, 16));
    if !AllDigits(Digits(v, 16), 10) {
      BareHex(Digits(v, 16));
    }
  }

  lemma {:induction false} SignedDecimal(v: nat)
    requires v <= LONG_MAX && Unsigned(Digits(v, 10), 10) == Some(v)
    ensures ParseId("+" + Digits(v, 10)) == Some(v)
  {
    var text := "+" + Digits(v, 10);
    assert text[1..] == Digits(v, 10) && text[..1] == "+";
  }

  lemma {:induction false} UpperPrefix(d: string)
    requires d != "" && AllDigits(d, 16) && Value(d, 16) <= LONG_MAX
    ensures ParseId("0X" + d) == Some(Value(d, 16))
  {
    var text := "0X" + d;
    assert text[0] == '0' && text[1] == 'X' && text[2..] == d;
    assert !AllDigits(text, 10) by {
      assert !IsDigit(text[1], 10);
    }
    assert text[..0] == "";
  }

  lemma {:induction false} SignedPrefix(d: string)
    requires d != "" && AllDigits(d, 16) && Value(d, 16) <= LONG_MAX
    ensures var r := ParseId("-0x" + d); r.Some? && r.value + Value(d, 16) == 0
  {
    var text := "-0x" + d;
    var body := text[1..];
    assert body[0] == '0' && body[1] == 'x' && body[2..] == d && text[..1] == "-";
    assert !AllDigits(body, 10) by {
      assert !IsDigit(body[1], 10);
    }
  }

  lemma {:induction false} BareHex(d: string)
    requires d != "" && AllDigits(d, 16) && !AllDigits(d, 10) && Value(d, 16) <= LONG_MAX
    ensures ParseId(d) == Some(Value(d, 16))
  {
    assert IsDigit(d[0], 16);
    assert d[..0] == "";
    if 2 <= |d| {
      assert IsDigit(d[1], 16);
    }
  }

  lemma {:induction false} DecimalIsLess(d: string)
    requires AllDigits(d, 10)
    ensures AllDigits(d, 16) && Value(d, 10) <= Value(d, 16)
  {
    if d != "" {
      DecimalIsLess(d[..|d| - 1]);
    }
  }

  /** A decimal number out of the 64-bit range is no id. */
  lemma {:induction false} TooLargeNoId(v: nat)
    requires 0x7fff_ffff_ffff_ffff < v
    ensures ParseId(Digits(v, 10)) == None
  {
    var d := Digits(v, 10);
    DigitsValue(v, 10);
    DecimalIsLess(d);
    assert IsDigit(d[0], 10) && d[..0] == "";
    if 2 <= |d| {
      assert IsDigit(d[1], 10);
    }
  }

  /** Numbers are written without leading zeros and in small digits. */
  lemma {:induction false} DigitsPlain(v: nat, base: Base, k: nat)
    requires k < |Digits(v, base)|
    ensures var d := Digits(v, base);
            && d[k] in "0123456789abcdef"[..base]
            && (1 < |d| ==> d[0] != '0')
            && (|d| == 1 <==> v < base)
  {
    if v < base {
      HexValues(v);
    } else {
      var front := Digits(v / base, base);
      HexValues(v % base);
      DigitsPlain(v / base, base, if k < |front| then k else 0);
      if |front| == 1 {
        assert front[0] == HexDigit(v / base);
        HexValues(v / base);
      }
    }
  }

  /** The texts: a decimal number with a minus sign if it is negative; the prefix 0x and at least two
      hexadecimal digits in the demo protocol. */
  lemma {:induction false} TextForms(id: nat)
    ensures DecimalText(id) == Digits(id, 10)
    ensures var n: int := id; n != 0 ==> DecimalText(-n) == "-" + Digits(id, 10)
    ensures DemoText(id)[..2] == "0x"
    ensures DemoText(id)[2..] == if id < 16 then ['0', "0123456789abcdef"[id]] else Digits(id, 16)
    ensures 4 <= |DemoText(id)|
  {
    if id < 16 {
      HexValues(id);
    } else {
      DigitsPlain(id, 16, 0);
      assert "" + Digits(id, 16) == Digits(id, 16);
    }
  }
}
