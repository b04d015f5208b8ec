/** The two text transformations of the PDF report: the ASCII filter its
    text goes through, and the parsing of the pie colours into RGB. */
module PdfText {
  import opened Values
  import opened PyText
  import opened GradeBins

  predicate IsAscii(c: char)
  {
    (c as int) < 128
  }

  /** `texto.encode('ascii', 'ignore').decode('ascii')`: every character
      from U+0080 up is dropped, the rest kept in order. */
  function AsciiOnly(s: string): (r: string)
    ensures |r| <= |s|
    ensures forall i :: 0 <= i < |r| ==> IsAscii(r[i])
  {
    if s == [] then []
    else AsciiOnly(s[..|s| - 1]) + (if IsAscii(s[|s| - 1]) then [s[|s| - 1]] else [])
  }

  /** The filter works character by character. */
  lemma {:induction false} AsciiOnlyConcat(a: string, b: string)
    ensures AsciiOnly(a + b) == AsciiOnly(a) + AsciiOnly(b)
    decreases |b|
  {
    if b == [] {
      assert a + b == a;
    } else {
      var init := b[..|b| - 1];
      assert (a + b)[..|a + b| - 1] == a + init;
      assert (a + b)[|a + b| - 1] == b[|b| - 1];
      AsciiOnlyConcat(a, init);
    }
  }

  /** A string already in ASCII passes unchanged, and only such a string. */
  lemma AsciiOnlyKeepsAscii(s: string)
    ensures AsciiOnly(s) == s <==> forall i :: 0 <= i < |s| ==> IsAscii(s[i])
  {
    if forall i :: 0 <= i < |s| ==> IsAscii(s[i]) {
      AllAsciiKept(s);
    }
  }

  lemma {:induction false} AllAsciiKept(s: string)
    requires forall i :: 0 <= i < |s| ==> IsAscii(s[i])
    ensures AsciiOnly(s) == s
    decreases |s|
  {
    if s != [] {
      var init := s[..|s| - 1];
      assert forall i :: 0 <= i < |init| ==> init[i] == s[i];
      AllAsciiKept(init);
      assert s == init + [s[|s| - 1]];
    }
  }

  /** Filtering twice is filtering once. */
  lemma AsciiOnlyIdempotent(s: string)
    ensures AsciiOnly(AsciiOnly(s)) == AsciiOnly(s)
  {
    AsciiOnlyKeepsAscii(AsciiOnly(s));
  }

  /** Every ASCII character is kept as often as it occurs, every other one
      is dropped. */
  lemma {:induction false} AsciiOnlyCounts(s: string, c: char)
    ensures multiset(AsciiOnly(s))[c] == if IsAscii(c) then multiset(s)[c] else 0
    decreases |s|
  {
    if s != [] {
      var init := s[..|s| - 1];
      AsciiOnlyCounts(init, c);
      assert s == init + [s[|s| - 1]];
    }
  }

  /** A non-ASCII character, such as an accented letter or an emoji, is
      cut out and its neighbours close up. */
  lemma AsciiOnlyDrops(a: string, c: char, b: string)
    requires !IsAscii(c)
    ensures AsciiOnly(a + [c] + b) == AsciiOnly(a) + AsciiOnly(b)
  {
    AsciiOnlyConcat(a + [c], b);
    AsciiOnlyConcat(a, [c]);
    assert AsciiOnly([c]) == [] by {
      assert [c][..0] == [];
    }
  }

  predicate IsHexDigit(c: char)
  {
    '0' <= c <= '9' || 'a' <= c <= 'f' || 'A' <= c <= 'F'
  }

  predicate AllHex(s: string)
  {
    forall i :: 0 <= i < |s| ==> IsHexDigit(s[i])
  }

  function HexValue(c: char): (r: nat)
    requires IsHexDigit(c)
    ensures r < 16
  {
    if c <= '9' then c as int - '0' as int
    else if c <= 'F' then c as int - 'A' as int + 10
    else c as int - 'a' as int + 10
  }

  function Pow16(n: nat): (r: nat)
    ensures r >= 1
  {
    if n == 0 then 1 else 16 * Pow16(n - 1)
  }

  /** The number a string of hex digits spells, most significant first. */
  function HexNumber(s: string): (r: nat)
    requires AllHex(s)
    ensures r < Pow16(|s|)
  {
    if s == [] then 0
    else HexNumber(s[..|s| - 1]) * 16 + HexValue(s[|s| - 1])
  }

  /** `int(s, 16)`: surrounding whitespace is ignored, one optional sign,
      then at least one hex digit; anything else is a ValueError (None). */
  function ParseInt16(s: string): (r: Option<int>)
    ensures r.Some? ==> |StripSpace(s)| <= 2 ==> -255 <= r.value <= 255
  {
    var t := StripSpace(s);
    if t == [] then None
    else
      var signed := t[0] == '+' || t[0] == '-';
      var digits := if signed then t[1..] else t;
      if digits == [] || !AllHex(digits) then None
      else
        var n: int := HexNumber(digits);
        if t[0] == '-' then Some(-n) else Some(n)
  }

  /** Hex digits are not whitespace, so two of them parse as the byte
      they spell. */
  lemma ParseTwo(s: string)
    requires |s| == 2 && AllHex(s)
    ensures ParseInt16(s) == Some(HexNumber(s))
    ensures HexNumber(s) == 16 * HexValue(s[0]) + HexValue(s[1]) <= 255
  {
    assert !IsSpace(s[0]) && !IsSpace(s[1]);
    assert StripSpace(s) == s;
    assert s[..1][..0] == [];
    assert HexNumber(s[..1]) == HexValue(s[0]);
  }

  /** `tuple(int(c.strip('#')[j:j+2], 16) for j in (0, 2, 4))`; a
      ValueError on any of the three slices is None. */
  function HexToRgb(c: string): (r: Option<(int, int, int)>)
    ensures r.Some? ==> -255 <= r.value.0 <= 255 && -255 <= r.value.1 <= 255 && -255 <= r.value.2 <= 255
  {
    var h := StripChar(c, '#');
    var red, green, blue := Field(h, 0), Field(h, 2), Field(h, 4);
    if red.Some? && green.Some? && blue.Some? then Some((red.value, green.value, blue.value))
    else None
  }

  /** `int(h[j:j+2], 16)`. */
  function Field(h: string, j: nat): (r: Option<int>)
    ensures r.Some? ==> -255 <= r.value <= 255
  {
    ParseInt16(Slice(h, j, j + 2))
  }

  /** Stripping '#' from "#" and a string whose first six characters are
      hex digits keeps those six characters at the front: trailing '#'s
      may go, but never a digit. */
  lemma StripHash(h: string)
    requires |h| >= 6 && AllHex(h[..6])
    ensures var r := StripChar("#" + h, '#'); |r| >= 6 && r[..6] == h[..6]
  {
    var s := "#" + h;
    var r := StripChar(s, '#');
    StripCharSpec(s, '#');
    var i, j :| Trims(s, '#', i, j) && r == s[i..j];
    assert s[1] == h[..6][0] && s[6] == h[..6][5];
    assert i <= 1 && j >= 7;
    assert s[i] == r[0];
    assert r[..6] == s[1..7] == h[..6];
  }

  /** One two-digit field of a colour. */
  lemma ParseField(h: string, j: nat)
    requires j + 2 <= |h| && AllHex(h[j..j + 2])
    ensures Field(h, j) == Some(HexNumber(h[j..j + 2]))
  {
    var s := Slice(h, j, j + 2);
    assert s == h[j..j + 2];
    ParseTwo(s);
  }

  /** A colour written "#" and at least six characters, the first six hex
      digits, gives the three bytes its first three digit pairs spell, each
      in 0..255; whatever follows (an alpha channel) is ignored. */
  lemma HexColor(h: string)
    requires |h| >= 6 && AllHex(h[..6])
    ensures HexToRgb("#" + h) == Some((HexNumber(h[0..2]), HexNumber(h[2..4]), HexNumber(h[4..6])))
    ensures HexNumber(h[0..2]) <= 255 && HexNumber(h[2..4]) <= 255 && HexNumber(h[4..6]) <= 255
  {
    HexColorFields(h);
    HexPairs(h);
    PairIsByte(h[0..2]);
    PairIsByte(h[2..4]);
    PairIsByte(h[4..6]);
  }

  lemma HexPairs(h: string)
    requires |h| >= 6 && AllHex(h[..6])
    ensures AllHex(h[0..2]) && AllHex(h[2..4]) && AllHex(h[4..6])
  {
    forall k | 0 <= k < 6 ensures IsHexDigit(h[k]) {
      assert h[k] == h[..6][k];
    }
  }

  lemma HexColorFields(h: string)
    requires |h| >= 6 && AllHex(h[..6])
    ensures HexToRgb("#" + h) == Some((HexNumber(h[0..2]), HexNumber(h[2..4]), HexNumber(h[4..6])))
  {
    StripHash(h);
    var r := StripChar("#" + h, '#');
    assert r[0..2] == h[0..2] && r[2..4] == h[2..4] && r[4..6] == h[4..6] by {
      assert r[..6] == h[..6];
    }
    ParseField(r, 0);
    ParseField(r, 2);
    ParseField(r, 4);
  }

  lemma PairIsByte(s: string)
    requires |s| == 2 && AllHex(s)
    ensures HexNumber(s) <= 255
  {
    assert Pow16(2) == 256;
  }

  /** A colour with fewer than six digits leaves the blue slice empty,
      and `int('', 16)` raises. */
  lemma ShortColorRaises(c: string)
    requires |StripChar(c, '#')| <= 4
    ensures HexToRgb(c).None?
  {
    var h := StripChar(c, '#');
    assert Slice(h, 4, 6) == [];
  }

  /** Every colour of the pie legend is "#" and six or eight hex digits. */
  lemma PaletteIsHex()
    ensures forall l :: l in Colors ==>
      |Colors[l]| >= 7 && Colors[l][0] == '#' && AllHex(Colors[l][1..])
  {
  }

  /** So painting the legend never raises: each colour gives three bytes. */
  lemma PaletteParses()
    ensures forall l :: l in Colors ==>
      && HexToRgb(Colors[l]).Some?
      && 0 <= HexToRgb(Colors[l]).value.0 <= 255
      && 0 <= HexToRgb(Colors[l]).value.1 <= 255
      && 0 <= HexToRgb(Colors[l]).value.2 <= 255
  {
    forall l | l in Colors
      ensures HexToRgb(Colors[l]).Some?
      ensures 0 <= HexToRgb(Colors[l]).value.0 <= 255
      ensures 0 <= HexToRgb(Colors[l]).value.1 <= 255
      ensures 0 <= HexToRgb(Colors[l]).value.2 <= 255
    {
      PaletteIsHex();
      var c := Colors[l];
      var h := c[1..];
      assert c == "#" + h;
      HexColor(h);
    }
  }
}
