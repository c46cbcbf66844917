/**
 * `hexToRgb`, which turns a colour written "#rrggbb" into the text
 * "r, g, b" used inside a CSS `rgba(...)`. Both games carry an identical
 * copy. The model follows the JavaScript built-ins the function leans on:
 * `String.prototype.replace` with a string pattern (first occurrence only),
 * `substring` (indices clamped to the length), `parseInt(_, 16)` (leading
 * white space, an optional sign, an optional "0x", then the longest run of
 * hexadecimal digits, NaN when that run is empty) and the conversion of a
 * number to text.
 */
module Color {
  import opened Util

  /** The position of the first occurrence of `c` in `s`. */
  function FirstIndex(s: string, c: char): (k: nat)
    requires c in s
    ensures k < |s| && s[k] == c && c !in s[..k]
  {
    if s[0] == c then 0
    else
      var k := FirstIndex(s[1..], c) + 1;
      assert s[..k] == [s[0]] + s[1..][..k - 1];
      k
  }

  /** `s.replace(c, '')`: the text without the first occurrence of `c`, if any. */
  function DropFirst(s: string, c: char): (r: string)
    ensures c !in s ==> r == s
    ensures c in s ==> |r| == |s| - 1
  {
    if s == [] then []
    else if s[0] == c then s[1..]
    else [s[0]] + DropFirst(s[1..], c)
  }

  /** `replace` cuts out exactly the first `c` and keeps the rest in order. */
  lemma {:induction false} DropFirstRemovesFirst(s: string, c: char)
    requires c in s
    ensures var k := FirstIndex(s, c); DropFirst(s, c) == s[..k] + s[k + 1..]
  {
    if s[0] != c {
      var k := FirstIndex(s[1..], c);
      DropFirstRemovesFirst(s[1..], c);
      assert s[..k + 1] == [s[0]] + s[1..][..k];
      assert s[k + 2..] == s[1..][k + 1..];
    }
  }

  /** `s.substring(start, end)` for `0 <= start <= end`: both ends clamp to the length. */
  function Substring(s: string, start: nat, end: nat): (r: string)
    requires start <= end
    ensures |r| <= end - start
    ensures end <= |s| ==> r == s[start..end]
  {
    var a := if start <= |s| then start else |s|;
    var b := if end <= |s| then end else |s|;
    s[a..b]
  }

  /** The white space and line terminators `parseInt` skips at the front. */
  predicate IsWhiteSpace(c: char)
  {
    var n := c as int;
    n == 0x09 || n == 0x0A || n == 0x0B || n == 0x0C || n == 0x0D || n == 0x20
    || n == 0xA0 || n == 0x1680 || (0x2000 <= n <= 0x200A) || n == 0x2028
    || n == 0x2029 || n == 0x202F || n == 0x205F || n == 0x3000 || n == 0xFEFF
  }

  /** The text `parseInt` goes on with once the leading white space is skipped. */
  function TrimStart(s: string): (r: string)
    ensures |r| <= |s| && r == s[|s| - |r|..]
    ensures r == [] || !IsWhiteSpace(r[0])
  {
    if s != [] && IsWhiteSpace(s[0]) then TrimStart(s[1..]) else s
  }

  /** Everything `TrimStart` drops is white space. */
  lemma {:induction false} TrimStartDropsWhiteSpace(s: string)
    ensures forall i :: 0 <= i < |s| - |TrimStart(s)| ==> IsWhiteSpace(s[i])
  {
    if s != [] && IsWhiteSpace(s[0]) {
      TrimStartDropsWhiteSpace(s[1..]);
      assert forall i :: 1 <= i < |s| - |TrimStart(s)| ==> s[i] == s[1..][i - 1];
    }
  }

  /** The value of a hexadecimal digit, either case. */
  function DigitValue(c: char): Option<nat>
  {
    if '0' <= c <= '9' then Some(c as int - '0' as int)
    else if 'a' <= c <= 'f' then Some(c as int - 'a' as int + 10)
    else if 'A' <= c <= 'F' then Some(c as int - 'A' as int + 10)
    else None
  }

  predicate IsHexDigit(c: char) { DigitValue(c).Some? }

  /** The longest prefix of `s` made of hexadecimal digits. */
  function DigitRun(s: string): (r: string)
    ensures |r| <= |s| && r == s[..|r|]
    ensures forall i :: 0 <= i < |r| ==> IsHexDigit(r[i])
    ensures |r| == |s| || !IsHexDigit(s[|r|])
  {
    if s != [] && IsHexDigit(s[0]) then [s[0]] + DigitRun(s[1..]) else []
  }

  /** The number a run of hexadecimal digits denotes, most significant first. */
  function HexValue(digits: string): nat
    requires forall i :: 0 <= i < |digits| ==> IsHexDigit(digits[i])
  {
    if digits == [] then 0
    else
      var last := digits[|digits| - 1];
      assert IsHexDigit(last);
      HexValue(digits[..|digits| - 1]) * 16 + DigitValue(last).value
  }

  /** `parseInt(s, 16)`; `None` stands for NaN. */
  function ParseIntHex(s: string): Option<int>
  {
    var t := TrimStart(s);
    var sign := if t != [] && t[0] == '-' then -1 else 1;
    var u := if t != [] && (t[0] == '-' || t[0] == '+') then t[1..] else t;
    var v := if |u| >= 2 && u[0] == '0' && (u[1] == 'x' || u[1] == 'X') then u[2..] else u;
    var digits := DigitRun(v);
    if digits == [] then None else Some(sign * HexValue(digits))
  }

  function DecimalDigit(d: nat): char
    requires d < 10
  {
    ('0' as int + d) as char
  }

  /** The decimal text of a natural number, without leading zeros. */
  function NatText(n: nat): (r: string)
    ensures |r| >= 1
    ensures forall i :: 0 <= i < |r| ==> '0' <= r[i] <= '9'
    ensures |r| > 1 ==> r[0] != '0'
  {
    if n < 10 then [DecimalDigit(n)] else NatText(n / 10) + [DecimalDigit(n % 10)]
  }

  /** The text a template literal gives an integral number or NaN. */
  function NumberText(n: Option<int>): string
  {
    match n
    case None => "NaN"
    case Some(i) => if i < 0 then "-" + NatText(-i) else NatText(i)
  }

  /** `hexToRgb(hex)`. */
  function HexToRgb(hex: string): string
  {
    var h := DropFirst(hex, '#');
    NumberText(ParseIntHex(Substring(h, 0, 2))) + ", "
      + NumberText(ParseIntHex(Substring(h, 2, 4))) + ", "
      + NumberText(ParseIntHex(Substring(h, 4, 6)))
  }

  // ---------------------------------------------------------------------
  // Partners: the encoders the colour constants of the games are written
  // with, and the round trips through the parser.

  function HexChar(d: nat): (c: char)
    requires d < 16
    ensures DigitValue(c) == Some(d)
  {
    if d < 10 then ('0' as int + d) as char else ('a' as int + d - 10) as char
  }

  /** Two lower-case hexadecimal digits for a colour channel. */
  function HexByte(n: nat): string
    requires n < 256
  {
    [HexChar(n / 16), HexChar(n % 16)]
  }

  /** The value a string of decimal digits denotes. */
  function DecimalValue(s: string): nat
    requires forall i :: 0 <= i < |s| ==> '0' <= s[i] <= '9'
  {
    if s == [] then 0 else DecimalValue(s[..|s| - 1]) * 10 + (s[|s| - 1] as int - '0' as int)
  }

  /** Reading back the decimal text of `n` gives `n`. */
  lemma {:induction false} NatTextRoundTrip(n: nat)
    ensures DecimalValue(NatText(n)) == n
  {
    if n >= 10 {
      NatTextRoundTrip(n / 10);
      var t := NatText(n);
      assert t[..|t| - 1] == NatText(n / 10);
    }
  }

  /** The channel value two hexadecimal digits of either case denote. */
  function PairValue(a: char, b: char): (v: nat)
    requires IsHexDigit(a) && IsHexDigit(b)
    ensures v < 256
  {
    DigitValue(a).value * 16 + DigitValue(b).value
  }

  /** `parseInt(_, 16)` of any two hexadecimal digits, upper or lower case, gives their value. */
  lemma ParseHexPair(a: char, b: char)
    requires IsHexDigit(a) && IsHexDigit(b)
    ensures ParseIntHex([a, b]) == Some(PairValue(a, b))
  {
    var s := [a, b];
    assert !IsWhiteSpace(s[0]);
    assert TrimStart(s) == s;
    assert s[1] != 'x' && s[1] != 'X';
    assert DigitRun(s[1..]) == s[1..];
    assert DigitRun(s) == s;
    assert s[..1] == [a];
    assert HexValue(s[..1]) == DigitValue(a).value by {
      assert s[..1][..0] == [];
    }
  }

  /** `parseInt(_, 16)` reads a channel written by `HexByte` back exactly. */
  lemma ParseHexByte(n: nat)
    requires n < 256
    ensures ParseIntHex(HexByte(n)) == Some(n)
  {
    var hi, lo := HexChar(n / 16), HexChar(n % 16);
    assert PairValue(hi, lo) == n;
    assert HexByte(n) == [hi, lo];
    ParseHexPair(hi, lo);
  }

  /**
   * A colour written "#" and six hexadecimal digits, in either case, comes
   * out as the decimal values of its three digit pairs.
   */
  lemma HexToRgbOfHexDigits(a: char, b: char, c: char, d: char, e: char, f: char)
    requires IsHexDigit(a) && IsHexDigit(b) && IsHexDigit(c)
    requires IsHexDigit(d) && IsHexDigit(e) && IsHexDigit(f)
    ensures HexToRgb(['#', a, b, c, d, e, f])
         == NatText(PairValue(a, b)) + ", " + NatText(PairValue(c, d)) + ", " + NatText(PairValue(e, f))
  {
    var body := [a, b, c, d, e, f];
    assert ['#', a, b, c, d, e, f] == ['#'] + body;
    DropLeading('#', body);
    assert Substring(body, 0, 2) == [a, b];
    assert Substring(body, 2, 4) == [c, d];
    assert Substring(body, 4, 6) == [e, f];
    ParseHexPair(a, b);
    ParseHexPair(c, d);
    ParseHexPair(e, f);
  }

  /** `replace` removes a leading occurrence and nothing else. */
  lemma DropLeading(c: char, d: string)
    ensures DropFirst([c] + d, c) == d
  {
    assert ([c] + d)[1..] == d;
  }

  /** A colour written "#rrggbb" with `HexByte` comes out as its three channels in decimal. */
  lemma HexToRgbOfHexColor(r: nat, g: nat, b: nat)
    requires r < 256 && g < 256 && b < 256
    ensures HexToRgb("#" + HexByte(r) + HexByte(g) + HexByte(b))
         == NatText(r) + ", " + NatText(g) + ", " + NatText(b)
  {
    var r1, r2 := HexChar(r / 16), HexChar(r % 16);
    var g1, g2 := HexChar(g / 16), HexChar(g % 16);
    var b1, b2 := HexChar(b / 16), HexChar(b % 16);
    assert "#" + HexByte(r) + HexByte(g) + HexByte(b) == ['#', r1, r2, g1, g2, b1, b2];
    assert PairValue(r1, r2) == r && PairValue(g1, g2) == g && PairValue(b1, b2) == b;
    HexToRgbOfHexDigits(r1, r2, g1, g2, b1, b2);
  }

  /** The upper-case gold and orange of the level-up burst come out as their channels. */
  lemma LevelUpColours()
    ensures HexToRgb("#FFD700") == "255, 215, 0"
    ensures HexToRgb("#FFA500") == "255, 165, 0"
  {
    LevelUpChannels();
    LevelUpTexts();
    LevelUpJoined();
  }

  lemma LevelUpChannels()
    ensures HexToRgb("#FFD700") == NatText(255) + ", " + NatText(215) + ", " + NatText(0)
    ensures HexToRgb("#FFA500") == NatText(255) + ", " + NatText(165) + ", " + NatText(0)
  {
    HexToRgbOfHexDigits('F', 'F', 'D', '7', '0', '0');
    HexToRgbOfHexDigits('F', 'F', 'A', '5', '0', '0');
  }

  lemma LevelUpJoined()
    ensures "255" + ", " + "215" + ", " + "0" == "255, 215, 0"
    ensures "255" + ", " + "165" + ", " + "0" == "255, 165, 0"
  {
  }

  lemma LevelUpTexts()
    ensures NatText(255) == "255" && NatText(215) == "215"
    ensures NatText(165) == "165" && NatText(0) == "0"
  {
    assert NatText(25) == "25" by { assert NatText(2) == "2"; }
    assert NatText(21) == "21" by { assert NatText(2) == "2"; }
    assert NatText(16) == "16" by { assert NatText(1) == "1"; }
  }

  /** Text that starts with a character `parseInt` can neither skip nor read parses to NaN. */
  lemma ParseIntHexOfNonDigit(s: string)
    requires s != [] && !IsWhiteSpace(s[0]) && !IsHexDigit(s[0]) && s[0] != '-' && s[0] != '+'
    ensures ParseIntHex(s) == None
  {
    assert TrimStart(s) == s;
  }

  /**
   * The `hsl(...)` colours of the death and collision bursts are not hex:
   * the first two channels are NaN, and the third is read from the first
   * two characters of the hue.
   */
  lemma HslIsNotParsed(hue: string)
    requires '#' !in hue
    ensures HexToRgb("hsl(" + hue) == "NaN, NaN, " + NumberText(ParseIntHex(Substring(hue, 0, 2)))
  {
    var x := NumberText(ParseIntHex(Substring(hue, 0, 2)));
    assert "NaN" + ", " + "NaN" + ", " + x == "NaN, NaN, " + x;
    HslPrefixIsNaN();
    HslChannels(hue);
  }

  lemma HslPrefixIsNaN()
    ensures ParseIntHex("hs") == None && ParseIntHex("l(") == None
  {
    ParseIntHexOfNonDigit("hs");
    ParseIntHexOfNonDigit("l(");
  }

  lemma HslChannels(hue: string)
    requires '#' !in hue
    ensures HexToRgb("hsl(" + hue) == NumberText(ParseIntHex("hs")) + ", "
      + NumberText(ParseIntHex("l(")) + ", " + NumberText(ParseIntHex(Substring(hue, 0, 2)))
  {
    var t := "hsl(" + hue;
    assert DropFirst(t, '#') == t by {
      assert '#' !in t;
    }
    assert Substring(t, 0, 2) == "hs";
    assert Substring(t, 2, 4) == "l(";
    assert Substring(t, 4, 6) == Substring(hue, 0, 2);
  }

  /** The three-digit CSS shorthand is not expanded: "#fff" reads as 255, 15 and NaN. */
  lemma ShortHexIsNotExpanded()
    ensures HexToRgb("#fff") == "255, 15, NaN"
  {
    ShortHexChannels();
    ShortHexValues();
    ShortHexText();
  }

  lemma ShortHexChannels()
    ensures HexToRgb("#fff") == NumberText(ParseIntHex("ff")) + ", "
      + NumberText(ParseIntHex("f")) + ", " + NumberText(ParseIntHex(""))
  {
    assert DropFirst("#fff", '#') == "fff";
    assert Substring("fff", 0, 2) == "ff";
    assert Substring("fff", 2, 4) == "f";
    assert Substring("fff", 4, 6) == "";
  }

  lemma ShortHexValues()
    ensures ParseIntHex("ff") == Some(255) && ParseIntHex("f") == Some(15)
    ensures ParseIntHex("") == None
  {
    assert TrimStart("ff") == "ff";
    assert TrimStart("f") == "f";
    assert DigitRun("f") == "f";
    assert DigitRun("ff") == "ff";
    assert "ff"[..1] == "f";
    assert HexValue("f") == 15 by { assert "f"[..0] == ""; }
  }

  lemma ShortHexText()
    ensures NumberText(Some(255)) + ", " + NumberText(Some(15)) + ", " + NumberText(None)
         == "255, 15, NaN"
  {
    assert NatText(255) == "255" by {
      assert NatText(2) == "2";
      assert NatText(25) == "25";
    }
    assert NatText(15) == "15" by { assert NatText(1) == "1"; }
  }
}
