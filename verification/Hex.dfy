/** Hexadecimal text as Python writes it (bytes.hex) and reads it (bytes.fromhex). */
module Hex {
  import opened Bytes
  import opened Wrappers

  function Digit(v: nat): char
    requires v < 16
  {
    if v < 10 then '0' + v as char else 'a' + (v - 10) as char
  }

  function ToHex(octets: seq<byte>): (text: string)
    ensures |text| == 2 * |octets|
  {
    if octets == [] then "" else [Digit(octets[0] / 16), Digit(octets[0] % 16)] + ToHex(octets[1..])
  }

  function DigitValue(c: char): Option<nat> {
    if '0' <= c <= '9' then Some((c - '0') as nat)
    else if 'a' <= c <= 'f' then Some((c - 'a') as nat + 10)
    else if 'A' <= c <= 'F' then Some((c - 'A') as nat + 10)
    else None
  }

  predicate IsSpace(c: char) {
    c == ' ' || '\t' <= c <= '\r'
  }

  /** Both cases of letter are read, and white space between octets is skipped. */
  function FromHex(text: string): Option<seq<byte>> {
    if text == "" then Some([])
    else if IsSpace(text[0]) then FromHex(text[1..])
    else if |text| == 1 then None
    else
      var high, low, rest := DigitValue(text[0]), DigitValue(text[1]), FromHex(text[2..]);
      if high.None? || low.None? || rest.None? then None
      else Some([(high.value * 16 + low.value) as byte] + rest.value)
  }

  predicate LowerHex(text: string) {
    forall i | 0 <= i < |text| :: '0' <= text[i] <= '9' || 'a' <= text[i] <= 'f'
  }

  lemma {:induction false} DigitRoundTrip(v: nat)
    requires v < 16
    ensures DigitValue(Digit(v)) == Some(v) && !IsSpace(Digit(v))
    ensures '0' <= Digit(v) <= '9' || 'a' <= Digit(v) <= 'f'
  {
  }

  lemma {:induction false} DigitOfValue(c: char)
    requires '0' <= c <= '9' || 'a' <= c <= 'f'
    ensures DigitValue(c).Some? && DigitValue(c).value < 16 && Digit(DigitValue(c).value) == c && !IsSpace(c)
  {
  }

  lemma {:induction false} FromHexStep(text: string)
    requires |text| >= 2 && !IsSpace(text[0]) && DigitValue(text[0]).Some? && DigitValue(text[1]).Some?
    requires FromHex(text[2..]).Some?
    ensures FromHex(text) == Some(
      [(DigitValue(text[0]).value * 16 + DigitValue(text[1]).value) as byte] + FromHex(text[2..]).value)
  {
  }

  lemma {:induction false} ToHexIsLower(octets: seq<byte>)
    ensures LowerHex(ToHex(octets))
  {
    if octets != [] {
      var text := ToHex(octets);
      var rest := ToHex(octets[1..]);
      assert text == [Digit(octets[0] / 16), Digit(octets[0] % 16)] + rest;
      hide ToHex, Digit, DigitValue;
      DigitRoundTrip(octets[0] / 16);
      DigitRoundTrip(octets[0] % 16);
      ToHexIsLower(octets[1..]);
      forall i | 0 <= i < |text| ensures '0' <= text[i] <= '9' || 'a' <= text[i] <= 'f' {
        assert i >= 2 ==> text[i] == rest[i - 2];
      }
    }
  }

  lemma {:induction false} HexRoundTrip(octets: seq<byte>)
    ensures FromHex(ToHex(octets)) == Some(octets) && LowerHex(ToHex(octets))
  {
    ToHexIsLower(octets);
    if octets != [] {
      var text := ToHex(octets);
      assert text[0] == Digit(octets[0] / 16) && text[1] == Digit(octets[0] % 16);
      assert text[2..] == ToHex(octets[1..]);
      hide ToHex, Digit, DigitValue, FromHex, LowerHex;
      DigitRoundTrip(octets[0] / 16);
      DigitRoundTrip(octets[0] % 16);
      HexRoundTrip(octets[1..]);
      FromHexStep(text);
      assert octets == [octets[0]] + octets[1..];
    }
  }

  /** Two digits for each octet, the more significant first: ten is a, fifteen is f. Capitals and blanks are read. */
  lemma {:induction false} KnownHex()
    ensures ToHex([18, 160, 255, 201]) == "12a0ffc9"
    ensures FromHex("A0 fF") == Some([160, 255]) && FromHex("1 2") == None
  {
    assert ToHex([255, 201]) == "ffc9";
    assert "fF"[2..] == "" && " fF"[1..] == "fF" && "A0 fF"[2..] == " fF";
    assert FromHex("") == Some([]);
    FromHexStep("fF");
    assert FromHex(" fF") == FromHex("fF");
    FromHexStep("A0 fF");
    assert FromHex("fF").value == [255] && FromHex("A0 fF").value == [160, 255];
  }

  lemma {:induction false} Nibbles(high: nat, low: nat)
    requires high < 16 && low < 16
    ensures (high * 16 + low) / 16 == high && (high * 16 + low) % 16 == low
  {
  }

  /** Without capitals and white space there is one spelling only. */
  lemma {:induction false} LowerHexIsCanonical(text: string)
    requires LowerHex(text) && |text| % 2 == 0
    ensures FromHex(text).Some? && text == ToHex(FromHex(text).value)
  {
    if text != "" {
      LowerHexIsCanonical(text[2..]);
      DigitOfValue(text[0]);
      DigitOfValue(text[1]);
      hide Digit, DigitValue, FromHex, LowerHex, IsSpace;
      FromHexStep(text);
      Nibbles(DigitValue(text[0]).value, DigitValue(text[1]).value);
      assert text == [text[0], text[1]] + text[2..];
    }
  }

  lemma {:induction false} HexInjective(a: seq<byte>, b: seq<byte>)
    requires ToHex(a) == ToHex(b)
    ensures a == b
  {
    HexRoundTrip(a);
    HexRoundTrip(b);
  }
}
