/**
 * Hex colour codec and the two input guards of the colour picker:
 * `hexToRgb`, `rgbToHex`, `isValidHex`, the hex-field sanitiser, the
 * RGB-field range guard and the base-colour hex-field guard.
 */
module HexCodec {
  import opened Wrappers

  /** One 8-bit channel, as the canvas byte buffers and the RGB fields hold it. */
  type Byte = x: int | 0 <= x < 256

  /** The `{r, g, b}` record of the source. */
  datatype Rgb = Rgb(r: Byte, g: Byte, b: Byte)

  // ---------------------------------------------------------------------------
  // Hex digits

  /** `[0-9A-Fa-f]`, the class the source's case-insensitive regular expressions accept. */
  predicate IsHexDigit(ch: char) {
    '0' <= ch <= '9' || 'a' <= ch <= 'f' || 'A' <= ch <= 'F'
  }

  /** The digits `Number.prototype.toString(16)` produces. */
  predicate IsLowerHexDigit(ch: char) {
    '0' <= ch <= '9' || 'a' <= ch <= 'f'
  }

  predicate AllHexDigits(s: string) {
    forall i :: 0 <= i < |s| ==> IsHexDigit(s[i])
  }

  predicate AllLowerHexDigits(s: string) {
    forall i :: 0 <= i < |s| ==> IsLowerHexDigit(s[i])
  }

  /** The value of one digit, as `parseInt(…, 16)` reads it. */
  function DigitValue(ch: char): (v: nat)
    requires IsHexDigit(ch)
    ensures v < 16
  {
    if '0' <= ch <= '9' then ch as int - '0' as int
    else if 'a' <= ch <= 'f' then ch as int - 'a' as int + 10
    else ch as int - 'A' as int + 10
  }

  /** The lower-case digit for a value below 16. */
  function Digit(v: nat): (ch: char)
    requires v < 16
    ensures IsLowerHexDigit(ch) && DigitValue(ch) == v
  {
    if v < 10 then ('0' as int + v) as char else ('a' as int + v - 10) as char
  }

  /** Lower-cases `A`..`F`; every other character is left alone. */
  function LowerDigit(ch: char): char {
    if 'A' <= ch <= 'F' then (ch as int - 'A' as int + 'a' as int) as char else ch
  }

  function LowerDigits(s: string): (t: string)
    ensures |t| == |s| && forall i :: 0 <= i < |s| ==> t[i] == LowerDigit(s[i])
  {
    seq(|s|, i requires 0 <= i < |s| => LowerDigit(s[i]))
  }

  lemma DigitOfValue(ch: char)
    requires IsHexDigit(ch)
    ensures Digit(DigitValue(ch)) == LowerDigit(ch)
  {
  }

  /** `parseInt(pair, 16)` on two hex digits. */
  function PairValue(hi: char, lo: char): (v: Byte)
    requires IsHexDigit(hi) && IsHexDigit(lo)
  {
    16 * DigitValue(hi) + DigitValue(lo)
  }

  // ---------------------------------------------------------------------------
  // hexToRgb and isValidHex

  /** `isValidHex`: exactly six hex digits of either case, nothing else. */
  predicate IsValidHex(s: string) {
    |s| == 6 && AllHexDigits(s)
  }

  /**
   * `hexToRgb`: the pattern `^#?([a-f\d]{2})([a-f\d]{2})([a-f\d]{2})$` with the
   * `i` flag, each pair read in base 16; `None` is the source's `null`.
   */
  function HexToRgb(s: string): (c: Option<Rgb>)
    ensures c.Some? <==> IsValidHex(s) || (|s| == 7 && s[0] == '#' && IsValidHex(s[1..]))
  {
    var digits := if |s| > 0 && s[0] == '#' then s[1..] else s;
    if IsValidHex(digits) then
      Some(Rgb(PairValue(digits[0], digits[1]), PairValue(digits[2], digits[3]), PairValue(digits[4], digits[5])))
    else
      None
  }

  // ---------------------------------------------------------------------------
  // rgbToHex

  /** `Number.prototype.toString(16)` on a non-negative integer. */
  function ToBase16(n: nat): (s: string)
    ensures |s| >= 1
    decreases n
  {
    if n < 16 then [Digit(n)] else ToBase16(n / 16) + [Digit(n % 16)]
  }

  /** The `width` low-order base-16 digits of `v`, most significant first. */
  function Pad(v: nat, width: nat): (s: string)
    ensures |s| == width
  {
    if width == 0 then [] else Pad(v / 16, width - 1) + [Digit(v % 16)]
  }

  function Pow16(k: nat): (p: nat)
    ensures p >= 1
  {
    if k == 0 then 1 else 16 * Pow16(k - 1)
  }

  /**
   * `rgbToHex`: `"#" + ((1 << 24) + (r << 16) + (g << 8) + b).toString(16).slice(1)`.
   * The shifts stay far inside 32 bits for channels below 256, so they are
   * multiplications here.
   */
  function RgbToHex(c: Rgb): (s: string)
    ensures |s| == 7 && s[0] == '#'
  {
    PackChannels(c);
    ToBase16Leading(6, (c.r * 256 + c.g) * 256 + c.b);
    "#" + ToBase16(0x100_0000 + c.r * 0x1_0000 + c.g * 0x100 + c.b)[1..]
  }

  /** A hex string in the form `rgbToHex` produces. */
  predicate IsCanonicalHex(s: string) {
    |s| == 7 && s[0] == '#' && AllLowerHexDigits(s[1..])
  }

  lemma DivMod16(p: nat, v: nat)
    ensures (16 * p + v) / 16 == p + v / 16
    ensures (16 * p + v) % 16 == v % 16
  {
    assert 16 * p + v == 16 * (p + v / 16) + v % 16;
  }

  lemma DivMod256(a: nat, b: nat)
    requires b < 256
    ensures (a * 256 + b) / 16 == a * 16 + b / 16
    ensures (a * 256 + b) % 16 == b % 16
  {
    DivMod16(a * 16, b);
  }

  /** Why `.slice(1)` works: the leading `1` of `2^(4k) + v` stands alone in front of `v`'s k digits. */
  lemma {:induction false} ToBase16Leading(k: nat, v: nat)
    requires v < Pow16(k)
    ensures ToBase16(Pow16(k) + v) == "1" + Pad(v, k)
  {
    if k == 0 {
    } else {
      var n := Pow16(k) + v;
      DivMod16(Pow16(k - 1), v);
      assert n / 16 == Pow16(k - 1) + v / 16 && n % 16 == v % 16;
      assert v / 16 < Pow16(k - 1);
      ToBase16Leading(k - 1, v / 16);
    }
  }

  /** The digits of `a * 256 + b` are those of `a` followed by the two of `b`. */
  lemma PadSplit(a: nat, b: nat, k: nat)
    requires b < 256
    ensures Pad(a * 256 + b, k + 2) == Pad(a, k) + Pad(b, 2)
  {
    var n := a * 256 + b;
    DivMod256(a, b);
    DivMod16(a, b / 16);
    assert n / 16 / 16 == a;
    assert (n / 16) % 16 == b / 16;
  }

  lemma PadPair(v: nat)
    requires v < 256
    ensures Pad(v, 2) == [Digit(v / 16), Digit(v % 16)]
  {
    assert v / 16 / 16 == 0;
  }

  /** The number `rgbToHex` writes out is `2^24` plus the channels packed base 256. */
  lemma PackChannels(c: Rgb)
    ensures 0x100_0000 + c.r * 0x1_0000 + c.g * 0x100 + c.b == Pow16(6) + ((c.r * 256 + c.g) * 256 + c.b)
    ensures (c.r * 256 + c.g) * 256 + c.b < Pow16(6)
  {
    assert Pow16(6) == 0x100_0000;
  }

  lemma PadChannels(c: Rgb)
    ensures Pad((c.r * 256 + c.g) * 256 + c.b, 6) == Pad(c.r, 2) + Pad(c.g, 2) + Pad(c.b, 2)
  {
    var two := 2;
    var four := two + 2;
    var hi := c.r * 256 + c.g;
    PadSplit(hi, c.b, four);
    PadSplit(c.r, c.g, two);
    assert Pad(hi, four) == Pad(c.r, two) + Pad(c.g, two);
    assert Pad(hi * 256 + c.b, four + 2) == Pad(hi, four) + Pad(c.b, two);
  }

  /** `rgbToHex` is `#` followed by the two-digit forms of r, g and b. */
  lemma RgbToHexDigits(c: Rgb)
    ensures RgbToHex(c) == "#" + (Pad(c.r, 2) + Pad(c.g, 2) + Pad(c.b, 2))
  {
    var v := (c.r * 256 + c.g) * 256 + c.b;
    var n := 0x100_0000 + c.r * 0x1_0000 + c.g * 0x100 + c.b;
    PackChannels(c);
    ToBase16Leading(6, v);
    assert ToBase16(n)[1..] == Pad(v, 6);
    PadChannels(c);
  }

  lemma {:induction false} PadIsLowerHex(v: nat, width: nat)
    ensures AllLowerHexDigits(Pad(v, width))
  {
    if width > 0 {
      PadIsLowerHex(v / 16, width - 1);
    }
  }

  /** `rgbToHex` always yields `#` and six lower-case hex digits. */
  lemma RgbToHexIsCanonical(c: Rgb)
    ensures IsCanonicalHex(RgbToHex(c))
  {
    RgbToHexDigits(c);
    PadIsLowerHex(c.r, 2);
    PadIsLowerHex(c.g, 2);
    PadIsLowerHex(c.b, 2);
    assert RgbToHex(c)[1..] == Pad(c.r, 2) + Pad(c.g, 2) + Pad(c.b, 2);
  }

  lemma PairOfPad(v: Byte)
    ensures var p := Pad(v, 2); IsHexDigit(p[0]) && IsHexDigit(p[1]) && PairValue(p[0], p[1]) == v
  {
    PadPair(v);
  }

  /** Encoding then decoding gives back the channels exactly. */
  lemma HexToRgbOfRgbToHex(c: Rgb)
    ensures HexToRgb(RgbToHex(c)) == Some(c)
  {
    RgbToHexDigits(c);
    var s := RgbToHex(c);
    PairOfPad(c.r);
    PairOfPad(c.g);
    PairOfPad(c.b);
    assert s[1..] == Pad(c.r, 2) + Pad(c.g, 2) + Pad(c.b, 2);
  }

  lemma PadOfPair(hi: char, lo: char)
    requires IsHexDigit(hi) && IsHexDigit(lo)
    ensures Pad(PairValue(hi, lo), 2) == [LowerDigit(hi), LowerDigit(lo)]
  {
    var dh, dl := DigitValue(hi), DigitValue(lo);
    var v := PairValue(hi, lo);
    assert v == 16 * dh + dl;
    PadPair(v);
    DivMod16(dh, dl);
    assert v / 16 == dh && v % 16 == dl;
    DigitOfValue(hi);
    DigitOfValue(lo);
  }

  /** Decoding then encoding gives `#` and the input's digits in lower case. */
  lemma RgbToHexOfHexToRgb(s: string)
    requires HexToRgb(s).Some?
    ensures var digits := if s[0] == '#' then s[1..] else s;
            RgbToHex(HexToRgb(s).value) == "#" + LowerDigits(digits)
  {
    var digits := if s[0] == '#' then s[1..] else s;
    var c := HexToRgb(s).value;
    RgbToHexDigits(c);
    PadOfPair(digits[0], digits[1]);
    PadOfPair(digits[2], digits[3]);
    PadOfPair(digits[4], digits[5]);
    assert LowerDigits(digits) == Pad(c.r, 2) + Pad(c.g, 2) + Pad(c.b, 2);
  }

  /** `isValidHex` accepts exactly the strings `hexToRgb` reads without a `#`, and never one with a leading `#`. */
  lemma IsValidHexAgreesWithHexToRgb(s: string)
    ensures IsValidHex(s) ==> HexToRgb(s).Some? && HexToRgb("#" + s) == HexToRgb(s)
    ensures !IsValidHex("#" + s)
  {
    if IsValidHex(s) {
      assert ("#" + s)[1..] == s;
    }
    assert ("#" + s)[0] == '#';
  }

  // ---------------------------------------------------------------------------
  // The hex field: `value.replace(/[^0-9A-F]/gi, '')`, then `slice(0, 6)`

  /** `replace(/[^0-9A-F]/gi, '')`: the hex digits of `s`, in order. */
  function KeepHexDigits(s: string): (t: string)
    ensures |t| <= |s| && AllHexDigits(t)
  {
    if s == [] then [] else (if IsHexDigit(s[0]) then [s[0]] else []) + KeepHexDigits(s[1..])
  }

  /** Filtering splits over concatenation, so it keeps each character on its own merit. */
  lemma {:induction false} KeepHexDigitsAppend(s: string, t: string)
    ensures KeepHexDigits(s + t) == KeepHexDigits(s) + KeepHexDigits(t)
  {
    if s == [] {
      assert s + t == t;
    } else {
      var head := if IsHexDigit(s[0]) then [s[0]] else [];
      assert (s + t)[0] == s[0];
      assert (s + t)[1..] == s[1..] + t;
      KeepHexDigitsAppend(s[1..], t);
      calc {
        KeepHexDigits(s + t);
        head + KeepHexDigits(s[1..] + t);
        head + (KeepHexDigits(s[1..]) + KeepHexDigits(t));
        (head + KeepHexDigits(s[1..])) + KeepHexDigits(t);
      }
    }
  }

  /** The filter drops a non-hex character rather than replacing it. */
  lemma KeepHexDigitsDrops(c: char)
    ensures !IsHexDigit(c) ==> KeepHexDigits([c]) == []
    ensures IsHexDigit(c) ==> KeepHexDigits([c]) == [c]
  {
  }

  /** A character survives the filter exactly when it occurs in the text and is a hex digit. */
  lemma {:induction false} KeepHexDigitsMembers(s: string, c: char)
    ensures c in KeepHexDigits(s) <==> c in s && IsHexDigit(c)
  {
    if s != [] {
      assert s == [s[0]] + s[1..];
      KeepHexDigitsMembers(s[1..], c);
    }
  }

  /** A string of hex digits passes through unchanged, and only such a string does. */
  lemma {:induction false} KeepHexDigitsFixed(s: string)
    ensures KeepHexDigits(s) == s <==> AllHexDigits(s)
  {
    if s != [] {
      KeepHexDigitsFixed(s[1..]);
      if !IsHexDigit(s[0]) {
        assert |KeepHexDigits(s)| < |s|;
      }
    }
  }

  /** What the hex field's input handler does: the field's new text, and the argument of `updateColor` if it is called. */
  datatype HexFieldUpdate = HexFieldUpdate(field: string, updateWith: Option<string>)

  function HexFieldInput(raw: string): (u: HexFieldUpdate)
    ensures |u.field| <= 6 && AllHexDigits(u.field)
    ensures |u.field| <= |KeepHexDigits(raw)| && u.field == KeepHexDigits(raw)[..|u.field|]
    ensures |u.field| < 6 ==> u.field == KeepHexDigits(raw)
    ensures u.updateWith.Some? <==> |u.field| == 6
    ensures u.updateWith.Some? ==> u.updateWith.value == "#" + u.field && HexToRgb(u.updateWith.value).Some?
  {
    var kept := KeepHexDigits(raw);
    var value := if |kept| > 6 then kept[..6] else kept;
    HexFieldUpdate(value, if |value| == 6 then Some("#" + value) else None)
  }

  /** Sanitising text the handler already sanitised changes nothing. */
  lemma HexFieldInputIdempotent(raw: string)
    ensures HexFieldInput(HexFieldInput(raw).field) == HexFieldInput(raw)
  {
    KeepHexDigitsFixed(HexFieldInput(raw).field);
  }

  // ---------------------------------------------------------------------------
  // The RGB fields: `parseInt(x.value) || 0`, then the 0..255 guard

  /** `parseInt(text) || 0`, given the parse: `None` is `NaN`. */
  function ParsedOrZero(parsed: Option<int>): int {
    if parsed.Some? then parsed.value else 0
  }

  predicate IsChannel(x: int) {
    0 <= x <= 255
  }

  /** `updateFromRgb`: the colour passed to `updateColor`, if the guard lets one through. */
  function RgbFieldInput(r: Option<int>, g: Option<int>, b: Option<int>): (u: Option<string>)
    ensures u.Some? <==> IsChannel(ParsedOrZero(r)) && IsChannel(ParsedOrZero(g)) && IsChannel(ParsedOrZero(b))
    ensures u.Some? ==> IsCanonicalHex(u.value)
    ensures u.Some? ==> HexToRgb(u.value) == Some(Rgb(ParsedOrZero(r), ParsedOrZero(g), ParsedOrZero(b)))
  {
    var rv, gv, bv := ParsedOrZero(r), ParsedOrZero(g), ParsedOrZero(b);
    if IsChannel(rv) && IsChannel(gv) && IsChannel(bv) then
      var c := Rgb(rv, gv, bv);
      RgbToHexIsCanonical(c);
      HexToRgbOfRgbToHex(c);
      Some(RgbToHex(c))
    else
      None
  }

  // ---------------------------------------------------------------------------
  // The base-colour hex field of the palette generator

  /** `s.replace("#", "")`: a string pattern removes only the first `#`. */
  function RemoveFirstHash(s: string): (t: string)
    ensures '#' !in s ==> t == s
    ensures '#' in s ==> |t| == |s| - 1
  {
    if s == [] then [] else if s[0] == '#' then s[1..] else [s[0]] + RemoveFirstHash(s[1..])
  }

  /**
   * The base-colour hex field's handler as written: the value it writes into the
   * colour input, if `isValidHex(hex.replace("#", ""))` lets one through.
   */
  function BaseHexFieldInput(hex: string): (u: Option<string>)
    ensures u.Some? <==> IsValidHex(RemoveFirstHash(hex))
    ensures u.Some? ==> u.value == if |hex| > 0 && hex[0] == '#' then hex else "#" + hex
  {
    if IsValidHex(RemoveFirstHash(hex)) then
      Some(if |hex| > 0 && hex[0] == '#' then hex else "#" + hex)
    else
      None
  }

  lemma {:induction false} RemoveFirstHashAt(a: string, b: string)
    requires '#' !in a
    ensures RemoveFirstHash(a + "#" + b) == a + b
  {
    if a != [] {
      assert (a + "#" + b)[1..] == a[1..] + "#" + b;
      RemoveFirstHashAt(a[1..], b);
    }
  }

  /**
   * A `#` inside the digits slips through the guard, and the value written then
   * is one `hexToRgb` rejects (for instance `abc#def` becomes `#abc#def`).
   */
  lemma BaseHexFieldInputAcceptsInnerHash(a: string, b: string)
    requires a != [] && '#' !in a && IsValidHex(a + b)
    ensures BaseHexFieldInput(a + "#" + b) == Some("#" + (a + "#" + b))
    ensures HexToRgb("#" + (a + "#" + b)) == None
  {
    RemoveFirstHashAt(a, b);
    assert (a + "#" + b)[0] == a[0];
  }

  /** The base-colour guard with only a leading `#` stripped, as the handler evidently means. */
  function BaseHexFieldInputFixed(hex: string): (u: Option<string>)
    ensures u.Some? <==> HexToRgb(hex).Some?
    ensures u.Some? ==> HexToRgb(u.value) == HexToRgb(hex)
    ensures u.Some? ==> u.value == if hex[0] == '#' then hex else "#" + hex
  {
    var digits := if |hex| > 0 && hex[0] == '#' then hex[1..] else hex;
    if IsValidHex(digits) then
      IsValidHexAgreesWithHexToRgb(digits);
      assert hex[0] == '#' ==> hex == "#" + digits;
      Some("#" + digits)
    else
      None
  }
}
