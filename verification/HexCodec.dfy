/** The text form of message data in files (lib/src/ToolsMsgFileMgr.cpp): two hexadecimal digits
    an octet, separated by blanks; reading back ignores everything but digits. */
module HexCodec {
  import opened Bytes
  import opened Seqs

  predicate IsHex(c: char) {
    '0' <= c <= '9' || 'A' <= c <= 'F' || 'a' <= c <= 'f'
  }

  predicate AllHex(d: string) {
    forall k :: 0 <= k < |d| ==> IsHex(d[k])
  }

  function DigitValue(c: char): (v: nat)
    requires IsHex(c)
    ensures v < 16
  {
    if c <= '9' then (c - '0') as nat
    else if c <= 'F' then (c - 'A') as nat + 10
    else (c - 'a') as nat + 10
  }

  /** A lower-case digit. */
  function HexDigit(v: nat): (c: char)
    requires v < 16
    ensures IsHex(c) && DigitValue(c) == v
  {
    if v < 10 then '0' + v as char else 'a' + (v - 10) as char
  }

  /** An octet as two lower-case digits. */
  function Pair(b: byte): (s: string)
    ensures |s| == 2 && IsHex(s[0]) && IsHex(s[1])
    ensures DigitValue(s[0]) * 16 + DigitValue(s[1]) == b as nat
  {
    [HexDigit(b as nat / 16), HexDigit(b as nat % 16)]
  }

  function Encode(data: Data): string {
    if data == [] then ""
    else
      var front := Encode(data[..|data| - 1]);
      (if front == "" then "" else front + " ") + Pair(data[|data| - 1])
  }

  /** The hexadecimal digits of a text, in order. */
  function Strip(s: string): (d: string)
    ensures AllHex(d)
  {
    if s == "" then "" else (if IsHex(s[0]) then [s[0]] else "") + Strip(s[1..])
  }

  /** An octet from two digits. */
  function Octet(d: string): byte
    requires |d| == 2 && AllHex(d)
  {
    (DigitValue(d[0]) * 16 + DigitValue(d[1])) as byte
  }

  /** Octets from an even number of digits. */
  function Octets(d: string): (data: Data)
    requires |d| % 2 == 0 && AllHex(d)
    ensures |data| == |d| / 2
  {
    if d == "" then []
    else
      var n := |d| - 2;
      Octets(d[..n]) + [Octet(d[n..])]
  }

  /** An odd number of digits gets a zero in front. */
  function Decode(s: string): Data {
    var d := Strip(s);
    Octets(if |d| % 2 != 0 then "0" + d else d)
  }

  // ---------------------------------------------------------------------------
  // Round trip

  lemma {:induction false} StripConcat(a: string, b: string)
    ensures Strip(a + b) == Strip(a) + Strip(b)
  {
    var ab := a + b;
    if a == "" {
      assert ab == b;
    } else {
      var head := if IsHex(a[0]) then [a[0]] else "";
      assert ab[0] == a[0] && ab[1..] == a[1..] + b;
      StripConcat(a[1..], b);
      Assoc(head, Strip(a[1..]), Strip(b));
    }
  }

  lemma {:induction false} StripDigits(d: string)
    requires AllHex(d)
    ensures Strip(d) == d
  {
    if d != "" {
      StripDigits(d[1..]);
    }
  }

  /** The digits of all octets, without blanks. */
  function Pairs(data: Data): (d: string)
    ensures |d| == 2 * |data| && AllHex(d)
  {
    if data == [] then "" else Pairs(data[..|data| - 1]) + Pair(data[|data| - 1])
  }

  /** The digits of an encoded text are exactly those of its octets. */
  lemma {:induction false} StripEncoded(data: Data)
    ensures Strip(Encode(data)) == Pairs(data)
  {
    if data != [] {
      var n := |data| - 1;
      var front, last := Encode(data[..n]), Pair(data[n]);
      StripEncoded(data[..n]);
      StripDigits(last);
      if front == "" {
        assert Encode(data) == "" + last == last;
        assert Pairs(data[..n]) == "";
        assert "" + last == last;
      } else {
        StripConcat(front + " ", last);
        StripConcat(front, " ");
        assert Strip(" ") == "" by {
          assert " "[1..] == "";
        }
        assert Strip(front) + "" == Strip(front);
      }
    }
  }

  lemma {:induction false} OctetsBehind(d: string, x: string)
    requires |d| % 2 == 0 && AllHex(d) && |x| == 2 && AllHex(x)
    ensures AllHex(d + x) && Octets(d + x) == Octets(d) + [Octet(x)]
  {
    var all := d + x;
    assert all[..|all| - 2] == d && all[|all| - 2..] == x;
  }

  lemma {:induction false} OctetOfPair(b: byte)
    ensures Octet(Pair(b)) == b
  {
  }

  lemma {:induction false} OctetsOfPairs(data: Data, d: string)
    requires d == Pairs(data)
    ensures Octets(d) == data
    decreases |data|
  {
    if data != [] {
      var front, last := data[..|data| - 1], data[|data| - 1];
      OctetsOfPairs(front, Pairs(front));
      OctetOfPair(last);
      OctetsBehind(Pairs(front), Pair(last));
      assert data == front + [last];
    }
  }

  /** Decoding what was encoded gives it back. */
  lemma {:induction false} HexRoundTrip(data: Data)
    ensures Decode(Encode(data)) == data
  {
    StripEncoded(data);
    OctetsOfPairs(data, Pairs(data));
  }

  // ---------------------------------------------------------------------------
  // Any text

  /** The number a text of digits stands for, most significant first. */
  function DigitsNumber(d: string): nat
    requires AllHex(d)
  {
    if d == "" then 0 else DigitsNumber(d[..|d| - 1]) * 16 + DigitValue(d[|d| - 1])
  }

  /** The number octets stand for, most significant first. */
  function OctetsNumber(data: Data): nat {
    if data == [] then 0 else OctetsNumber(data[..|data| - 1]) * 0x100 + data[|data| - 1] as nat
  }

  lemma {:induction false} OctetBehind(data: Data, b: byte)
    ensures OctetsNumber(data + [b]) == OctetsNumber(data) * 0x100 + b as nat
  {
    assert (data + [b])[..|data|] == data;
  }

  lemma {:induction false} TwoDigitsBehind(d: string)
    requires 2 <= |d| && AllHex(d)
    ensures var n := |d| - 2;
            DigitsNumber(d) == DigitsNumber(d[..n]) * 0x100 + DigitValue(d[n]) * 16 + DigitValue(d[n + 1])
  {
    assert d[..|d| - 1][..|d| - 2] == d[..|d| - 2];
  }

  lemma {:induction false} OctetsNumberOfDigits(d: string)
    requires |d| % 2 == 0 && AllHex(d)
    ensures OctetsNumber(Octets(d)) == DigitsNumber(d)
  {
    if d != "" {
      var n := |d| - 2;
      OctetsNumberOfDigits(d[..n]);
      OctetBehind(Octets(d[..n]), Octet(d[n..]));
      TwoDigitsBehind(d);
    }
  }

  lemma {:induction false} LeadingZero(d: string)
    requires AllHex(d)
    ensures DigitsNumber("0" + d) == DigitsNumber(d)
  {
    var z := "0" + d;
    if d == "" {
      assert z[..0] == "";
    } else {
      LeadingZero(d[..|d| - 1]);
      assert z[..|z| - 1] == "0" + d[..|d| - 1];
    }
  }

  /** Decoding any text keeps the number its hexadecimal digits stand for, in as few octets as
      hold those digits; whatever else is in the text makes no difference. */
  lemma {:induction false} DecodeKeepsNumber(s: string)
    ensures OctetsNumber(Decode(s)) == DigitsNumber(Strip(s))
    ensures |Decode(s)| == (|Strip(s)| + 1) / 2
  {
    var d := Strip(s);
    if |d| % 2 != 0 {
      LeadingZero(d);
      OctetsNumberOfDigits("0" + d);
    } else {
      OctetsNumberOfDigits(d);
    }
  }

  /** Number and length determine the octets. */
  lemma {:induction false} OctetsUnique(a: Data, b: Data)
    requires |a| == |b| && OctetsNumber(a) == OctetsNumber(b)
    ensures a == b
  {
    if a != [] {
      var n := |a| - 1;
      OctetsUnique(a[..n], b[..n]);
      assert a == a[..n] + [a[n]] && b == b[..n] + [b[n]];
    }
  }

  /** Two texts with the same digits, in upper or lower case, with anything in between, decode to
      the same data. */
  lemma {:induction false} DecodeDependsOnDigits(s: string, t: string)
    requires |Strip(s)| == |Strip(t)| && DigitsNumber(Strip(s)) == DigitsNumber(Strip(t))
    ensures Decode(s) == Decode(t)
  {
    DecodeKeepsNumber(s);
    DecodeKeepsNumber(t);
    OctetsUnique(Decode(s), Decode(t));
  }

  // ---------------------------------------------------------------------------
  // The loops

  method EncodeMsgData(msgData: Data) returns (text: string)
    ensures text == Encode(msgData)
  {
    text := "";
    for k := 0 to |msgData|
      invariant text == Encode(msgData[..k])
    {
      assert msgData[..k + 1][..k] == msgData[..k];
      if text != "" {
        text := text + " ";
      }
      text := text + Pair(msgData[k]);
    }
    assert msgData[..|msgData|] == msgData;
  }

  method DecodeMsgData(text: string) returns (data: Data)
    ensures data == Decode(text)
  {
    var digits := Strip(text);
    if |digits| % 2 != 0 {
      digits := "0" + digits;
    }
    data := [];
    var num := "";
    for k := 0 to |digits|
      invariant Reading(digits, k, num, data)
    {
      if num == "" {
        FirstDigit(digits, k, data);
      } else {
        SecondDigit(digits, k, num, data);
      }
      num := num + [digits[k]];
      if |num| == 1 {
        continue;
      }
      data := data + [Octet(num)];
      num := "";
    }
    ReadingEnds(digits, num, data);
  }

  lemma {:induction false} ReadingEnds(digits: string, num: string, data: Data)
    requires Reading(digits, |digits|, num, data) && |digits| % 2 == 0
    ensures data == Octets(digits)
  {
    assert digits[..|digits|] == digits;
  }

  /** Before digit `k`: all digits are in `data`, but for the one that may wait in `num`. */
  ghost predicate Reading(digits: string, k: nat, num: string, data: Data) {
    && AllHex(digits) && |num| < 2
    && 2 * |data| + |num| == k <= |digits|
    && num == digits[2 * |data|..k]
    && data == Octets(digits[..2 * |data|])
  }

  lemma {:induction false} FirstDigit(digits: string, k: nat, data: Data)
    requires Reading(digits, k, "", data) && k < |digits|
    ensures "" + [digits[k]] == [digits[k]]
    ensures Reading(digits, k + 1, [digits[k]], data)
  {
  }

  lemma {:induction false} SecondDigit(digits: string, k: nat, num: string, data: Data)
    requires Reading(digits, k, num, data) && k < |digits| && num != ""
    ensures |num + [digits[k]]| == 2 && AllHex(num + [digits[k]])
    ensures Reading(digits, k + 1, "", data + [Octet(num + [digits[k]])])
  {
    var n := 2 * |data|;
    var e := digits[..n + 2];
    assert num == [digits[n]];
    assert e[..n] == digits[..n] && e[n..] == num + [digits[k]];
  }

  // ---------------------------------------------------------------------------
  // The characters

  /** The hexadecimal digits are these, in either case. */
  lemma {:induction false} HexCharacters(c: char)
    ensures IsHex(c) <==> c in "0123456789abcdefABCDEF"
  {
    var all := "0123456789abcdefABCDEF";
    if '0' <= c <= '9' {
      assert all[(c - '0') as int] == c;
    } else if 'a' <= c <= 'f' {
      assert all[(c - 'a') as int + 10] == c;
    } else if 'A' <= c <= 'F' {
      assert all[(c - 'A') as int + 16] == c;
    }
  }

  /** These are their values; an octet is written with the small ones. */
  lemma {:induction false} HexValues(v: nat)
    requires v < 16
    ensures HexDigit(v) == "0123456789abcdef"[v]
    ensures IsHex("0123456789abcdef"[v]) && DigitValue("0123456789abcdef"[v]) == v
    ensures IsHex("0123456789ABCDEF"[v]) && DigitValue("0123456789ABCDEF"[v]) == v
  {
  }

  /** Stripping keeps every digit where it stands and drops everything else. */
  lemma {:induction false} StripParts(s: string, t: string, c: char)
    ensures Strip(s + t) == Strip(s) + Strip(t)
    ensures Strip([c]) == if c in "0123456789abcdefABCDEF" then [c] else ""
  {
    HexCharacters(c);
    assert [c][1..] == "";
    if s == "" {
      assert s + t == t;
    } else {
      assert (s + t)[1..] == s[1..] + t;
      StripParts(s[1..], t, c);
      Assoc(if IsHex(s[0]) then [s[0]] else "", Strip(s[1..]), Strip(t));
    }
  }

  /** The text of octets: two small digits for each, the more significant one first, and a blank
      between one octet and the next. */
  lemma {:induction false} EncodedAt(data: Data, k: nat)
    requires k < |data|
    ensures var text := Encode(data);
            && |text| == 3 * |data| - 1
            && text[3 * k] == "0123456789abcdef"[data[k] as nat / 16]
            && text[3 * k + 1] == "0123456789abcdef"[data[k] as nat % 16]
            && (k + 1 < |data| ==> text[3 * k + 2] == ' ')
  {
    var n := |data| - 1;
    var front := Encode(data[..n]);
    if n == 0 {
      HexValues(data[k] as nat / 16);
      HexValues(data[k] as nat % 16);
    } else if k == n {
      EncodedAt(data[..n], n - 1);
      HexValues(data[k] as nat / 16);
      HexValues(data[k] as nat % 16);
    } else {
      EncodedAt(data[..n], k);
    }
  }
}
