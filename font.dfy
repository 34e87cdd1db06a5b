/**
 * Bitmap fonts (class Font). A font is one dotmap strip holding every glyph side
 * by side plus a table of character records; a glyph is found by the first
 * record whose code matches, and it starts in the strip at the sum of the
 * widths of the records before it. `DmpFromString` lays a string out into a new
 * dotmap, advancing by width minus kerning per character.
 */
module Fonts {
  import opened Bits
  import opened Dotmaps
  import opened Wrappers

  /** One record of the character table (`FontCharInfo`). */
  datatype CharInfo = CharInfo(ascii: byte, width: u16, kerning: u16)

  /** Bytes per record: the struct is packed, so 1 + 2 + 2. */
  const RecordSize := 5

  /** The blanking character `'-'`. */
  const Dash: byte := 0x2D

  // ---------------------------------------------------------------------------
  // The character table
  // ---------------------------------------------------------------------------

  /** Index of the first record whose code is `c`, or `|t|` when there is none. */
  function FirstMatch(t: seq<CharInfo>, c: byte): (i: nat)
    ensures i <= |t|
    ensures i < |t| ==> t[i].ascii == c
    ensures forall j :: 0 <= j < i ==> t[j].ascii != c
  {
    if |t| == 0 || t[0].ascii == c then 0 else 1 + FirstMatch(t[1..], c)
  }

  /** Width of character `c`: that of its first record, 0 if it has none. */
  function CharWidth(t: seq<CharInfo>, c: byte): u16
  {
    var i := FirstMatch(t, c);
    if i < |t| then t[i].width else 0
  }

  /** Kerning of character `c`: that of its first record, 0 if it has none. */
  function CharKerning(t: seq<CharInfo>, c: byte): u16
  {
    var i := FirstMatch(t, c);
    if i < |t| then t[i].kerning else 0
  }

  /** Sum of the widths of the first `n` records. */
  function WidthsBefore(t: seq<CharInfo>, n: nat): nat
    requires n <= |t|
  {
    if n == 0 then 0 else WidthsBefore(t, n - 1) + t[n - 1].width
  }

  /** Column of character `c` in the font strip, accumulated in a 16-bit unsigned integer. */
  function CharOffset(t: seq<CharInfo>, c: byte): u16
  {
    WidthsBefore(t, FirstMatch(t, c)) % 0x1_0000
  }

  /**
   * The lookups are decided by the first matching record: when record `i` is the
   * first with code `c` (or no record has it, `i == |t|`), the width and kerning
   * are record `i`'s (0 when absent) and the offset is the 16-bit sum of the
   * widths before `i`, which for an absent character is the sum of all widths.
   */
  lemma CharLookup(t: seq<CharInfo>, c: byte, i: nat)
    requires i <= |t|
    requires i < |t| ==> t[i].ascii == c
    requires forall j :: 0 <= j < i ==> t[j].ascii != c
    ensures CharWidth(t, c) == if i < |t| then t[i].width else 0
    ensures CharKerning(t, c) == if i < |t| then t[i].kerning else 0
    ensures CharOffset(t, c) == WidthsBefore(t, i) % 0x1_0000
  {
  }

  /** Tables that agree on their first `n` records have the same width sum there. */
  lemma {:induction false} WidthsBeforePrefix(t: seq<CharInfo>, u: seq<CharInfo>, n: nat)
    requires n <= |t| && n <= |u|
    requires forall j :: 0 <= j < n ==> t[j] == u[j]
    ensures WidthsBefore(t, n) == WidthsBefore(u, n)
  {
    if n > 0 {
      WidthsBeforePrefix(t, u, n - 1);
    }
  }

  /**
   * Storing record `e` at `idx` makes it the one found for its code when no
   * earlier record has that code: its width and kerning are returned and its
   * glyph starts after the (unchanged) records before it.
   */
  lemma SetThenLookup(t: seq<CharInfo>, idx: nat, e: CharInfo)
    requires idx < |t|
    requires forall j :: 0 <= j < idx ==> t[j].ascii != e.ascii
    ensures CharWidth(t[idx := e], e.ascii) == e.width
    ensures CharKerning(t[idx := e], e.ascii) == e.kerning
    ensures CharOffset(t[idx := e], e.ascii) == WidthsBefore(t, idx) % 0x1_0000
  {
    var u := t[idx := e];
    CharLookup(u, e.ascii, idx);
    WidthsBeforePrefix(t, u, idx);
  }

  /** Adding a width to a 16-bit accumulator wraps like adding it to the full sum. */
  lemma AddWraps(a: nat, w: nat)
    ensures (a % 0x1_0000 + w) % 0x1_0000 == (a + w) % 0x1_0000
  {
    var q := a / 0x1_0000;
    assert a == q * 0x1_0000 + a % 0x1_0000;
    assert a + w == q * 0x1_0000 + (a % 0x1_0000 + w);
  }

  // ---------------------------------------------------------------------------
  // Raw records: five bytes each, the 16-bit fields little-endian
  // ---------------------------------------------------------------------------

  /** The record stored in five bytes. */
  function DecodeRecord(b: seq<byte>): CharInfo
    requires |b| == RecordSize
  {
    CharInfo(b[0], b[1] as int + 256 * (b[2] as int), b[3] as int + 256 * (b[4] as int))
  }

  /** The five bytes that store a record. */
  function EncodeRecord(e: CharInfo): (b: seq<byte>)
    ensures |b| == RecordSize
  {
    [e.ascii, ByteOf(e.width % 256), ByteOf(e.width / 256),
     ByteOf(e.kerning % 256), ByteOf(e.kerning / 256)]
  }

  /** Decoding the bytes of a record gives the record back. */
  lemma DecodeEncodeRecord(e: CharInfo)
    ensures DecodeRecord(EncodeRecord(e)) == e
  {
    ByteOfInt(e.width % 256);
    ByteOfInt(e.width / 256);
    ByteOfInt(e.kerning % 256);
    ByteOfInt(e.kerning / 256);
  }

  /** Encoding a decoded record gives the five bytes back. */
  lemma EncodeDecodeRecord(b: seq<byte>)
    requires |b| == RecordSize
    ensures EncodeRecord(DecodeRecord(b)) == b
  {
    var e := DecodeRecord(b);
    WordBytesSplit(e.width, b[1] as int, b[2] as int);
    WordBytesSplit(e.kerning, b[3] as int, b[4] as int);
    IntOfByte(b[1]);
    IntOfByte(b[2]);
    IntOfByte(b[3]);
    IntOfByte(b[4]);
  }

  /** A 16-bit value built from a low and a high byte splits back into them. */
  lemma WordBytesSplit(w: int, lo: int, hi: int)
    requires 0 <= lo < 256 && 0 <= hi < 256 && w == lo + 256 * hi
    ensures w % 256 == lo && w / 256 == hi
  {
  }

  /** The table stored in consecutive five-byte records. */
  function DecodeTable(data: seq<byte>): (t: seq<CharInfo>)
    requires |data| % RecordSize == 0
    ensures |t| == |data| / RecordSize
  {
    if |data| == 0 then [] else [DecodeRecord(data[..RecordSize])] + DecodeTable(data[RecordSize..])
  }

  /** The bytes that store a table. */
  function EncodeTable(t: seq<CharInfo>): (data: seq<byte>)
    ensures |data| == RecordSize * |t|
  {
    if |t| == 0 then [] else EncodeRecord(t[0]) + EncodeTable(t[1..])
  }

  /** Decoding the bytes of a table gives the table back. */
  lemma {:induction false} DecodeEncodeTable(t: seq<CharInfo>)
    ensures DecodeTable(EncodeTable(t)) == t
  {
    if |t| > 0 {
      var data := EncodeTable(t);
      assert data[..RecordSize] == EncodeRecord(t[0]);
      assert data[RecordSize..] == EncodeTable(t[1..]);
      DecodeEncodeRecord(t[0]);
      DecodeEncodeTable(t[1..]);
      assert t == [t[0]] + t[1..];
    }
  }

  /** Encoding a decoded table gives the bytes back. */
  lemma {:induction false} EncodeDecodeTable(data: seq<byte>)
    requires |data| % RecordSize == 0
    ensures EncodeTable(DecodeTable(data)) == data
  {
    if |data| > 0 {
      var t := DecodeTable(data);
      assert t[0] == DecodeRecord(data[..RecordSize]);
      assert t[1..] == DecodeTable(data[RecordSize..]);
      EncodeDecodeRecord(data[..RecordSize]);
      EncodeDecodeTable(data[RecordSize..]);
      assert data == data[..RecordSize] + data[RecordSize..];
    }
  }

  // ---------------------------------------------------------------------------
  // Laying out a string
  // ---------------------------------------------------------------------------

  /** How far the pen moves after drawing `c`: its width minus its kerning. */
  function Advance(t: seq<CharInfo>, c: byte): (dx: int)
  {
    CharWidth(t, c) - CharKerning(t, c)
  }

  /** Column at which character `i` of `s` is drawn: the advances of the characters before it. */
  function CharStart(t: seq<CharInfo>, s: seq<byte>, i: nat): (x: int)
    requires i <= |s|
  {
    if i == 0 then 0 else CharStart(t, s, i - 1) + Advance(t, s[i - 1])
  }

  /**
   * Width of the dotmap made for `s`: the advances of all characters but the last
   * plus the width of the last. For the empty string the source reads the
   * terminating NUL as the last character, so the width is that of code 0.
   */
  function StringWidth(t: seq<CharInfo>, s: seq<byte>): (w: int)
  {
    if |s| == 0 then CharWidth(t, 0) else CharStart(t, s, |s| - 1) + CharWidth(t, s[|s| - 1])
  }

  /** Whether character `i` is blanked: the blanking string is present and holds `'-'` there. */
  predicate Blanked(blanking: Option<seq<byte>>, i: nat)
  {
    blanking.Some? && i < |blanking.value| && blanking.value[i] == Dash
  }

  /** Whether column `x` lies in the glyph of character `i`. */
  predicate Covers(t: seq<CharInfo>, s: seq<byte>, i: nat, x: int)
    requires i < |s|
  {
    CharStart(t, s, i) <= x < CharStart(t, s, i) + CharWidth(t, s[i])
  }

  /** Dot that character `i` puts at (x, y): 0 when blanked, else the strip's dot at the same place in the glyph. */
  function GlyphDot(t: seq<CharInfo>, font: Dotmap, s: seq<byte>, blanking: Option<seq<byte>>, i: nat, x: int, y: int): byte
    reads font, font.dots
    requires font.Valid() && i < |s|
  {
    if Blanked(blanking, i) then 0 else font.GetDot(CharOffset(t, s[i]) + x - CharStart(t, s, i), y)
  }

  /** Mask bit that character `i` puts at (x, y): 1 when blanked, else the strip's mask bit. */
  function GlyphMask(t: seq<CharInfo>, font: Dotmap, s: seq<byte>, blanking: Option<seq<byte>>, i: nat, x: int, y: int): byte
    reads font, font.mask
    requires font.Valid() && i < |s|
  {
    if Blanked(blanking, i) then 1 else font.GetMask(CharOffset(t, s[i]) + x - CharStart(t, s, i), y)
  }

  /** Dot at (x, y) once the first `n` characters are drawn: the last of them covering it wins, else 0. */
  function PaintedDot(t: seq<CharInfo>, font: Dotmap, s: seq<byte>, blanking: Option<seq<byte>>, n: nat, x: int, y: int): byte
    reads font, font.dots
    requires font.Valid() && n <= |s|
  {
    if n == 0 then 0
    else if Covers(t, s, n - 1, x) && 0 <= y < font.height then GlyphDot(t, font, s, blanking, n - 1, x, y)
    else PaintedDot(t, font, s, blanking, n - 1, x, y)
  }

  /** Mask bit at (x, y) once the first `n` characters are drawn: the last of them covering it wins, else 0. */
  function PaintedMask(t: seq<CharInfo>, font: Dotmap, s: seq<byte>, blanking: Option<seq<byte>>, n: nat, x: int, y: int): byte
    reads font, font.mask
    requires font.Valid() && n <= |s|
  {
    if n == 0 then 0
    else if Covers(t, s, n - 1, x) && 0 <= y < font.height then GlyphMask(t, font, s, blanking, n - 1, x, y)
    else PaintedMask(t, font, s, blanking, n - 1, x, y)
  }

  /**
   * Where glyphs overlap, the later one wins: if character `i` covers column `x`
   * and none of the characters after it up to `n` does, pixel (x, y) holds
   * character `i`'s dot and mask bit.
   */
  lemma {:induction false} LastCoverWins(t: seq<CharInfo>, font: Dotmap, s: seq<byte>, blanking: Option<seq<byte>>,
                                         n: nat, i: nat, x: int, y: int)
    requires font.Valid() && i < n <= |s|
    requires Covers(t, s, i, x) && 0 <= y < font.height
    requires forall j :: i < j < n ==> !Covers(t, s, j, x)
    ensures PaintedDot(t, font, s, blanking, n, x, y) == GlyphDot(t, font, s, blanking, i, x, y)
    ensures PaintedMask(t, font, s, blanking, n, x, y) == GlyphMask(t, font, s, blanking, i, x, y)
  {
    if n - 1 != i {
      assert !Covers(t, s, n - 1, x);
      LastCoverWins(t, font, s, blanking, n - 1, i, x, y);
    }
  }

  /** A column that no character covers keeps dot 0 and mask bit 0. */
  lemma {:induction false} UncoveredIsClear(t: seq<CharInfo>, font: Dotmap, s: seq<byte>, blanking: Option<seq<byte>>,
                                            n: nat, x: int, y: int)
    requires font.Valid() && n <= |s|
    requires forall j :: 0 <= j < n ==> !Covers(t, s, j, x)
    ensures PaintedDot(t, font, s, blanking, n, x, y) == 0
    ensures PaintedMask(t, font, s, blanking, n, x, y) == 0
  {
    if n > 0 {
      assert !Covers(t, s, n - 1, x);
      UncoveredIsClear(t, font, s, blanking, n - 1, x, y);
    }
  }

  /** Storing a font dot (below 16) or mask bit (0 or 1) keeps its value. */
  lemma StoredUnchanged(d: byte, m: byte)
    requires d < 16 && m <= 1
    ensures d & 0x0F == d
    ensures (if m != 0 then 1 else 0) == m
  {
  }

  class Font {
    var dmpFont: Dotmap
    var charInfo: seq<CharInfo>
    /** Whether the table has been allocated (`charInfo != NULL`). */
    var hasTable: bool
    var chars: int

    /** The strip is a valid dotmap and the table holds `chars` records; without a table there are none. */
    ghost predicate Valid()
      reads this, dmpFont
    {
      && dmpFont.Valid()
      && 0 <= chars < 0x1_0000
      && |charInfo| == chars
      && (!hasTable ==> chars == 0)
    }

    /** A font with an empty strip and no table. */
    constructor ()
      ensures Valid() && fresh(dmpFont) && !hasTable && chars == 0
    {
      dmpFont := new Dotmap();
      charInfo := [];
      hasTable := false;
      chars := 0;
    }

    /**
     * Copies `font` into the strip and allocates a table of `chars` records. Given
     * the strip itself, the copy keeps its size and clears it, as a dotmap assigned
     * to itself does.
     */
    method Create(chars: int, font: Dotmap)
      requires Valid() && 0 <= chars < 0x1_0000
      requires font.Valid()
      modifies this, dmpFont
      ensures Valid() && hasTable && this.chars == chars && dmpFont == old(dmpFont)
      ensures dmpFont.width == old(font.width) && dmpFont.height == old(font.height)
      ensures font != dmpFont && font.dots.Length < 0x1_0000 ==> forall x, y :: dmpFont.GetDot(x, y) == font.GetDot(x, y)
      ensures font != dmpFont && font.mask.Length < 0x1_0000 ==> forall x, y :: dmpFont.GetMask(x, y) == font.GetMask(x, y)
      ensures font == dmpFont ==> forall x, y :: dmpFont.CheckRange(x, y) ==> dmpFont.GetDot(x, y) == 0 && dmpFont.GetMask(x, y) == 0
    {
      dmpFont.CopyFrom(font);
      this.chars := chars;
      charInfo := seq(chars, _ => CharInfo(0, 0, 0));
      hasTable := true;
    }

    /** Replaces the whole table by the records in `data[..len]`, provided `len` is exactly `chars` records. */
    method SetCharInfoFromRaw(data: seq<byte>, len: int) returns (ret: bool)
      requires Valid()
      requires 0 <= len < 0x1_0000 && len <= |data|
      modifies this
      ensures Valid()
      ensures dmpFont == old(dmpFont) && chars == old(chars) && hasTable == old(hasTable)
      ensures ret <==> len == chars * RecordSize
      ensures charInfo == if ret then DecodeTable(data[..len]) else old(charInfo)
    {
      ret := false;
      if len != chars * RecordSize {
        return;
      }
      charInfo := DecodeTable(data[..len]);
      ret := true;
    }

    /** Sets record `idx`; fails, changing nothing, when `idx` is out of range or there is no table. */
    method SetCharInfo(idx: int, ascii: byte, width: u16, kerning: u16) returns (ret: bool)
      requires Valid()
      modifies this
      ensures Valid()
      ensures dmpFont == old(dmpFont) && chars == old(chars) && hasTable == old(hasTable)
      ensures ret <==> 0 <= idx < chars && hasTable
      ensures charInfo == if ret then old(charInfo)[idx := CharInfo(ascii, width, kerning)] else old(charInfo)
    {
      ret := false;
      if idx < 0 || idx >= chars || !hasTable {
        return;
      }
      charInfo := charInfo[idx := CharInfo(ascii, width, kerning)];
      ret := true;
    }

    /** Width of `asciiGet` by a scan for its first record. */
    method GetCharWidth(asciiGet: byte) returns (ret: u16)
      requires Valid()
      ensures ret == CharWidth(charInfo, asciiGet)
    {
      ret := 0;
      var thisChar := 0;
      while thisChar < chars
        invariant 0 <= thisChar <= chars
        invariant forall j :: 0 <= j < thisChar ==> charInfo[j].ascii != asciiGet
      {
        if charInfo[thisChar].ascii == asciiGet {
          ret := charInfo[thisChar].width;
          CharLookup(charInfo, asciiGet, thisChar);
          return;
        }
        thisChar := thisChar + 1;
      }
      CharLookup(charInfo, asciiGet, thisChar);
    }

    /** Strip column of `asciiGet` by summing the widths of the records before its first one. */
    method GetCharOffset(asciiGet: byte) returns (ret: u16)
      requires Valid()
      ensures ret == CharOffset(charInfo, asciiGet)
    {
      ret := 0;
      var thisChar := 0;
      while thisChar < chars
        invariant 0 <= thisChar <= chars
        invariant forall j :: 0 <= j < thisChar ==> charInfo[j].ascii != asciiGet
        invariant ret == WidthsBefore(charInfo, thisChar) % 0x1_0000
      {
        if charInfo[thisChar].ascii == asciiGet {
          CharLookup(charInfo, asciiGet, thisChar);
          return;
        }
        AddWraps(WidthsBefore(charInfo, thisChar), charInfo[thisChar].width);
        ret := (ret + charInfo[thisChar].width) % 0x1_0000;
        thisChar := thisChar + 1;
      }
      CharLookup(charInfo, asciiGet, thisChar);
    }

    /** Kerning of `asciiGet` by a scan for its first record. */
    method GetCharKerning(asciiGet: byte) returns (ret: u16)
      requires Valid()
      ensures ret == CharKerning(charInfo, asciiGet)
    {
      ret := 0;
      var thisChar := 0;
      while thisChar < chars
        invariant 0 <= thisChar <= chars
        invariant forall j :: 0 <= j < thisChar ==> charInfo[j].ascii != asciiGet
      {
        if charInfo[thisChar].ascii == asciiGet {
          ret := charInfo[thisChar].kerning;
          CharLookup(charInfo, asciiGet, thisChar);
          return;
        }
        thisChar := thisChar + 1;
      }
      CharLookup(charInfo, asciiGet, thisChar);
    }

    /**
     * Re-creates `dmp` as the string `s` drawn in this font: `StringWidth` wide and
     * as tall as the strip, each pixel holding the dot and mask bit of the last
     * character covering it (dot 0 and mask 0 where none does).
     */
    method DmpFromString(dmp: Dotmap, s: seq<byte>, blanking: Option<seq<byte>>)
      requires Valid() && dmp != dmpFont
      requires 0 <= StringWidth(charInfo, s) < 0x1_0000
      modifies dmp
      ensures dmp.Valid() && fresh(dmp.dots) && fresh(dmp.mask)
      ensures dmp.width == StringWidth(charInfo, s) && dmp.height == dmpFont.height
      ensures forall x, y :: dmp.CheckRange(x, y) ==>
        && dmp.GetDot(x, y) == PaintedDot(charInfo, dmpFont, s, blanking, |s|, x, y)
        && dmp.GetMask(x, y) == PaintedMask(charInfo, dmpFont, s, blanking, |s|, x, y)
    {
      var widthString := MeasureString(s);
      dmp.Create(widthString, dmpFont.height);
      DrawString(dmp, s, blanking);
    }

    /** The second loop of `DmpFromString`: the characters of `s` drawn one after another into the blank dotmap `dmp`. */
    method DrawString(dmp: Dotmap, s: seq<byte>, blanking: Option<seq<byte>>)
      requires Valid() && dmp.Valid() && dmp != dmpFont
      requires dmp.dots != dmpFont.dots && dmp.dots != dmpFont.mask
      requires dmp.mask != dmpFont.dots && dmp.mask != dmpFont.mask
      requires dmp.height == dmpFont.height
      requires forall x, y :: dmp.CheckRange(x, y) ==> dmp.GetDot(x, y) == 0 && dmp.GetMask(x, y) == 0
      modifies dmp.dots, dmp.mask
      ensures forall x, y :: dmp.CheckRange(x, y) ==>
        && dmp.GetDot(x, y) == PaintedDot(charInfo, dmpFont, s, blanking, |s|, x, y)
        && dmp.GetMask(x, y) == PaintedMask(charInfo, dmpFont, s, blanking, |s|, x, y)
    {
      var destXOffset: int := 0;
      var thisChar := 0;
      while thisChar < |s|
        invariant 0 <= thisChar <= |s|
        invariant destXOffset == CharStart(charInfo, s, thisChar)
        invariant forall x, y :: dmp.CheckRange(x, y) ==>
          && dmp.GetDot(x, y) == PaintedDot(charInfo, dmpFont, s, blanking, thisChar, x, y)
          && dmp.GetMask(x, y) == PaintedMask(charInfo, dmpFont, s, blanking, thisChar, x, y)
      {
        destXOffset := DrawChar(dmp, s, blanking, thisChar, destXOffset);
        thisChar := thisChar + 1;
      }
    }

    /** The first loop of `DmpFromString`: the width of the dotmap for `s`. */
    method MeasureString(s: seq<byte>) returns (widthString: int)
      requires Valid()
      ensures widthString == StringWidth(charInfo, s)
    {
      widthString := 0;
      var thisChar := 0;
      while thisChar < |s| - 1
        invariant 0 <= thisChar && (thisChar < |s| || thisChar == 0)
        invariant widthString == CharStart(charInfo, s, thisChar)
      {
        var w := GetCharWidth(s[thisChar]);
        widthString := widthString + w;
        var k := GetCharKerning(s[thisChar]);
        widthString := widthString - k;
        thisChar := thisChar + 1;
      }
      // With an empty string the character read here is the terminating NUL.
      var last: byte := if thisChar < |s| then s[thisChar] else 0;
      var w := GetCharWidth(last);
      widthString := widthString + w;
    }

    /**
     * Draws character `i` of `s` at column `destXOffset` of `dmp`, so the first
     * `i + 1` characters are drawn, and returns the column of the next one.
     */
    method DrawChar(dmp: Dotmap, s: seq<byte>, blanking: Option<seq<byte>>, i: nat, destXOffset: int)
      returns (nextXOffset: int)
      requires Valid() && dmp.Valid() && dmp != dmpFont && i < |s|
      requires dmp.dots != dmpFont.dots && dmp.dots != dmpFont.mask
      requires dmp.mask != dmpFont.dots && dmp.mask != dmpFont.mask
      requires dmp.height == dmpFont.height
      requires destXOffset == CharStart(charInfo, s, i)
      requires forall x, y :: dmp.CheckRange(x, y) ==>
        && dmp.GetDot(x, y) == PaintedDot(charInfo, dmpFont, s, blanking, i, x, y)
        && dmp.GetMask(x, y) == PaintedMask(charInfo, dmpFont, s, blanking, i, x, y)
      modifies dmp.dots, dmp.mask
      ensures nextXOffset == CharStart(charInfo, s, i + 1)
      ensures forall x, y :: dmp.CheckRange(x, y) ==>
        && dmp.GetDot(x, y) == PaintedDot(charInfo, dmpFont, s, blanking, i + 1, x, y)
        && dmp.GetMask(x, y) == PaintedMask(charInfo, dmpFont, s, blanking, i + 1, x, y)
    {
      // The kerning is read here rather than after drawing; the lookups change nothing.
      var thisCharWidth := GetCharWidth(s[i]);
      var thisCharOffset := GetCharOffset(s[i]);
      var thisCharKerning := GetCharKerning(s[i]);
      DrawGlyph(dmp, s, blanking, i, thisCharOffset, thisCharWidth, destXOffset);
      nextXOffset := destXOffset + thisCharWidth - thisCharKerning;
    }

    /** The row loop of `DrawChar`: character `i` drawn at column `destXOffset`, every strip row. */
    method DrawGlyph(dmp: Dotmap, s: seq<byte>, blanking: Option<seq<byte>>, i: nat,
                     thisCharOffset: int, thisCharWidth: int, destXOffset: int)
      requires Valid() && dmp.Valid() && dmp != dmpFont && i < |s|
      requires dmp.dots != dmpFont.dots && dmp.dots != dmpFont.mask
      requires dmp.mask != dmpFont.dots && dmp.mask != dmpFont.mask
      requires thisCharOffset == CharOffset(charInfo, s[i]) && thisCharWidth == CharWidth(charInfo, s[i])
      requires destXOffset == CharStart(charInfo, s, i)
      modifies dmp.dots, dmp.mask
      ensures forall x, y ::
        && dmp.GetDot(x, y) == (
          if dmp.CheckRange(x, y) && Covers(charInfo, s, i, x) && 0 <= y < dmpFont.height
          then GlyphDot(charInfo, dmpFont, s, blanking, i, x, y) else old(dmp.GetDot(x, y)))
        && dmp.GetMask(x, y) == (
          if dmp.CheckRange(x, y) && Covers(charInfo, s, i, x) && 0 <= y < dmpFont.height
          then GlyphMask(charInfo, dmpFont, s, blanking, i, x, y) else old(dmp.GetMask(x, y)))
    {
      var srcY := 0;
      while srcY < dmpFont.height
        invariant 0 <= srcY <= dmpFont.height
        invariant forall x, y ::
          && dmp.GetDot(x, y) == (
            if dmp.CheckRange(x, y) && Covers(charInfo, s, i, x) && 0 <= y < srcY
            then GlyphDot(charInfo, dmpFont, s, blanking, i, x, y) else old(dmp.GetDot(x, y)))
          && dmp.GetMask(x, y) == (
            if dmp.CheckRange(x, y) && Covers(charInfo, s, i, x) && 0 <= y < srcY
            then GlyphMask(charInfo, dmpFont, s, blanking, i, x, y) else old(dmp.GetMask(x, y)))
      {
        DrawCharRow(dmp, s, blanking, i, thisCharOffset, thisCharWidth, destXOffset, srcY);
        srcY := srcY + 1;
      }
    }

    /** Draws row `srcY` of character `i`: strip columns from `thisCharOffset`, destination columns from `destXOffset`. */
    method DrawCharRow(dmp: Dotmap, s: seq<byte>, blanking: Option<seq<byte>>, i: nat,
                       thisCharOffset: int, thisCharWidth: int, destXOffset: int, srcY: int)
      requires Valid() && dmp.Valid() && dmp != dmpFont && i < |s|
      requires dmp.dots != dmpFont.dots && dmp.dots != dmpFont.mask
      requires dmp.mask != dmpFont.dots && dmp.mask != dmpFont.mask
      requires thisCharOffset == CharOffset(charInfo, s[i]) && thisCharWidth == CharWidth(charInfo, s[i])
      requires destXOffset == CharStart(charInfo, s, i)
      requires 0 <= srcY < dmpFont.height
      modifies dmp.dots, dmp.mask
      ensures forall x, y ::
        && dmp.GetDot(x, y) == (
          if dmp.CheckRange(x, y) && Covers(charInfo, s, i, x) && y == srcY
          then GlyphDot(charInfo, dmpFont, s, blanking, i, x, y) else old(dmp.GetDot(x, y)))
        && dmp.GetMask(x, y) == (
          if dmp.CheckRange(x, y) && Covers(charInfo, s, i, x) && y == srcY
          then GlyphMask(charInfo, dmpFont, s, blanking, i, x, y) else old(dmp.GetMask(x, y)))
    {
      var srcX, destX := thisCharOffset, destXOffset;
      while srcX < thisCharOffset + thisCharWidth
        invariant srcX - thisCharOffset == destX - destXOffset
        invariant thisCharOffset <= srcX <= thisCharOffset + thisCharWidth
        invariant forall x, y ::
          && dmp.GetDot(x, y) == (
            if dmp.CheckRange(x, y) && destXOffset <= x < destX && y == srcY
            then GlyphDot(charInfo, dmpFont, s, blanking, i, x, y) else old(dmp.GetDot(x, y)))
          && dmp.GetMask(x, y) == (
            if dmp.CheckRange(x, y) && destXOffset <= x < destX && y == srcY
            then GlyphMask(charInfo, dmpFont, s, blanking, i, x, y) else old(dmp.GetMask(x, y)))
      {
        DrawPixel(dmp, s, blanking, i, srcX, destX, srcY);
        srcX, destX := srcX + 1, destX + 1;
      }
    }

    /** The innermost step: pixel (destX, srcY) of `dmp` gets character `i`'s dot and mask bit. */
    method DrawPixel(dmp: Dotmap, s: seq<byte>, blanking: Option<seq<byte>>, i: nat, srcX: int, destX: int, srcY: int)
      requires Valid() && dmp.Valid() && dmp != dmpFont && i < |s|
      requires dmp.dots != dmpFont.dots && dmp.dots != dmpFont.mask
      requires dmp.mask != dmpFont.dots && dmp.mask != dmpFont.mask
      requires srcX == CharOffset(charInfo, s[i]) + destX - CharStart(charInfo, s, i)
      modifies dmp.dots, dmp.mask
      ensures dmp.CheckRange(destX, srcY) ==>
        && dmp.GetDot(destX, srcY) == GlyphDot(charInfo, dmpFont, s, blanking, i, destX, srcY)
        && dmp.GetMask(destX, srcY) == GlyphMask(charInfo, dmpFont, s, blanking, i, destX, srcY)
      ensures forall x, y :: (x != destX || y != srcY) ==>
        dmp.GetDot(x, y) == old(dmp.GetDot(x, y)) && dmp.GetMask(x, y) == old(dmp.GetMask(x, y))
    {
      if Blanked(blanking, i) {
        PutPixel(dmp, destX, srcY, 0x00, 0x01);
      } else {
        var d := dmpFont.GetDot(srcX, srcY);
        var m := dmpFont.GetMask(srcX, srcY);
        StoredUnchanged(d, m);
        PutPixel(dmp, destX, srcY, d, m);
      }
    }

    /** The `SetDot` and `SetMask` pair of `DrawPixel`: pixel (x, y) of `dmp` takes dot `d` and mask bit `m`, and no other pixel changes. */
    static method PutPixel(dmp: Dotmap, x: int, y: int, d: byte, m: byte)
      requires dmp.Valid()
      modifies dmp.dots, dmp.mask
      ensures dmp.CheckRange(x, y) ==> dmp.GetDot(x, y) == d & 0x0F && dmp.GetMask(x, y) == if m != 0 then 1 else 0
      ensures forall x', y' :: (x' != x || y' != y) ==>
        dmp.GetDot(x', y') == old(dmp.GetDot(x', y')) && dmp.GetMask(x', y') == old(dmp.GetMask(x', y'))
    {
      dmp.SetDot(x, y, d);
      dmp.SetMask(x, y, m);
    }
  }
}
