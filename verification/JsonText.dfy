/** Text as the source's strings, a sequence of UTF-16 units, and its length inside a JSON string. */
module JsonText {
  import opened Common

  type Unit = u: int | 0 <= u < 0x1_0000
  type Text = seq<Unit>

  predicate HighSurrogate(u: Unit) { 0xd800 <= u <= 0xdbff }

  predicate LowSurrogate(u: Unit) { 0xdc00 <= u <= 0xdfff }

  predicate Surrogate(u: Unit) { HighSurrogate(u) || LowSurrogate(u) }

  /** Characters of one unit inside a JSON string; half a surrogate pair is written as an escape. */
  function UnitLength(u: Unit): nat {
    if u in [0x22, 0x5c, 0x08, 0x09, 0x0a, 0x0c, 0x0d] then 2 else if u < 0x20 || Surrogate(u) then 6 else 1
  }

  function PrintedLength(text: Text): nat {
    if text == [] then 0
    else if |text| > 1 && HighSurrogate(text[0]) && LowSurrogate(text[1]) then 2 + PrintedLength(text[2..])
    else UnitLength(text[0]) + PrintedLength(text[1..])
  }

  // ---------- the printed text itself ----------

  /** The digits 0 to 9 and a to f. */
  const HEX_DIGITS: Text := [0x30, 0x31, 0x32, 0x33, 0x34, 0x35, 0x36, 0x37, 0x38, 0x39, 0x61, 0x62, 0x63, 0x64, 0x65, 0x66]

  function Escape(u: Unit): Text {
    [0x5c, 0x75, HEX_DIGITS[u / 0x1000], HEX_DIGITS[u / 0x100 % 0x10], HEX_DIGITS[u / 0x10 % 0x10], HEX_DIGITS[u % 0x10]]
  }

  function PrintedUnit(u: Unit): Text {
    if u == 0x22 || u == 0x5c then [0x5c, u]
    else if u == 0x08 then [0x5c, 0x62]
    else if u == 0x09 then [0x5c, 0x74]
    else if u == 0x0a then [0x5c, 0x6e]
    else if u == 0x0c then [0x5c, 0x66]
    else if u == 0x0d then [0x5c, 0x72]
    else if u < 0x20 || 0xd800 <= u < 0xe000 then Escape(u)
    else [u]
  }

  /** QuoteJSONString of ECMA-262, section 25.5.2.3, without the quotes: only whole surrogate pairs stay as they are. */
  function Printed(text: Text): Text {
    if text == [] then []
    else if |text| > 1 && 0xd800 <= text[0] < 0xdc00 && 0xdc00 <= text[1] < 0xe000 then text[..2] + Printed(text[2..])
    else PrintedUnit(text[0]) + Printed(text[1..])
  }

  lemma {:induction false} PrintedLengthIsLength(text: Text)
    ensures |Printed(text)| == PrintedLength(text)
  {
    if text != [] {
      PrintedLengthIsLength(text[1..]);
      if |text| > 1 {
        PrintedLengthIsLength(text[2..]);
      }
    }
  }

  function Repeat(u: Unit, n: nat): (text: Text)
    ensures |text| == n && forall i :: 0 <= i < n ==> text[i] == u
  {
    seq(n, _ => u)
  }

  lemma {:induction false} PrintedRun(u: Unit, n: nat, rest: Text)
    requires !Surrogate(u)
    ensures PrintedLength(Repeat(u, n) + rest) == n * UnitLength(u) + PrintedLength(rest)
  {
    var text := Repeat(u, n) + rest;
    if n == 0 {
      assert text == rest;
    } else {
      PrintedRun(u, n - 1, rest);
      assert text[1..] == Repeat(u, n - 1) + rest;
      assert text[0] == u;
      assert n * UnitLength(u) == (n - 1) * UnitLength(u) + UnitLength(u);
    }
  }
}
