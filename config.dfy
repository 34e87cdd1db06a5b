/**
 * Persistent settings (class Config). The settings record is kept in EEPROM
 * behind a header holding the item count; a header other than 12 means there
 * are no stored settings. Both the header (`int`) and the record are copied to
 * and from the EEPROM byte by byte, as they lie in memory: the header is four
 * bytes, little-endian, and the record is `itemsSize` bytes.
 */
module Configs {
  import opened Bits

  /** Number of items in a settings record (`Config::CntItems`). */
  const CntItems := 12

  /** The header as stored: the `int` 12, four bytes little-endian. */
  const CntItemsBytes: seq<byte> := [12, 0, 0, 0]

  /** Bytes of the header. */
  const HeaderSize := 4

  /** Byte offset of `cfgBrightness` in the record (after two `int` fields). */
  const BrightnessOffset := 8
  /** Byte offset of `cfgClockFont` in the record (after four `int` fields). */
  const ClockFontOffset := 16
  /** The default brightness. */
  const DefaultBrightness: byte := 10
  /** The default clock font name, "STANDARD", without its terminating NUL. */
  const StandardFont: seq<byte> := [0x53, 0x54, 0x41, 0x4E, 0x44, 0x41, 0x52, 0x44]

  /** How many bytes a copy of `len` bytes at `address` moves within an EEPROM of `size` bytes. */
  function CopyCount(address: nat, len: nat, size: nat): (n: nat)
    ensures address + n <= size || n == 0
    ensures n <= len
  {
    if address >= size then 0 else if len < size - address then len else size - address
  }

  /** Buffer `buf` after `readBytes(address, buf, len)` from EEPROM contents `e`: the bytes read replace its first ones. */
  function ReadInto(e: seq<byte>, address: nat, buf: seq<byte>, len: nat): (r: seq<byte>)
    requires len <= |buf|
    ensures |r| == |buf|
  {
    var n := CopyCount(address, len, |e|);
    seq(|buf|, i requires 0 <= i < |buf| => if i < n then e[address + i] else buf[i])
  }

  /** EEPROM contents `e` after `writeBytes(address, data, len)`: the bytes written replace those from `address` on. */
  function WriteFrom(e: seq<byte>, address: nat, data: seq<byte>, len: nat): (r: seq<byte>)
    requires len <= |data|
    ensures |r| == |e|
  {
    var n := CopyCount(address, len, |e|);
    seq(|e|, j requires 0 <= j < |e| => if address <= j < address + n then data[j - address] else e[j])
  }

  /** The EEPROM after `writeEeprom` of record `items`: the header, then the record, as far as they fit. */
  function Written(e: seq<byte>, items: seq<byte>): (r: seq<byte>)
    ensures |r| == |e|
  {
    WriteFrom(WriteFrom(e, 0, CntItemsBytes, HeaderSize), CopyCount(0, HeaderSize, |e|), items, |items|)
  }

  /** The header after `readEeprom` with header buffer `cnt`. */
  function HeaderRead(e: seq<byte>, cnt: seq<byte>): (r: seq<byte>)
    requires |cnt| == HeaderSize
    ensures |r| == HeaderSize
  {
    ReadInto(e, 0, cnt, HeaderSize)
  }

  /** The record after `readEeprom`: read from behind the header when the header is valid, else unchanged. */
  function ItemsRead(e: seq<byte>, cnt: seq<byte>, items: seq<byte>): (r: seq<byte>)
    requires |cnt| == HeaderSize
    ensures |r| == |items|
  {
    if HeaderRead(e, cnt) == CntItemsBytes then ReadInto(e, CopyCount(0, HeaderSize, |e|), items, |items|) else items
  }

  /**
   * With room for the header and the record, `readEeprom` reads the header from
   * the first four bytes, succeeds exactly when they hold 12, and then reads the
   * record from the bytes right after them.
   */
  lemma ReadWithRoom(e: seq<byte>, cnt: seq<byte>, items: seq<byte>)
    requires |cnt| == HeaderSize && |e| >= HeaderSize + |items|
    ensures HeaderRead(e, cnt) == e[..HeaderSize]
    ensures ItemsRead(e, cnt, items) == if e[..HeaderSize] == CntItemsBytes then e[HeaderSize..HeaderSize + |items|] else items
  {
  }

  /**
   * Writing the settings and reading them back finds a valid header and leaves
   * the record as it was, whatever the EEPROM's size: bytes that did not fit
   * were neither written nor read, so the buffers keep their own values there.
   */
  lemma WriteThenRead(e: seq<byte>, items: seq<byte>)
    ensures HeaderRead(Written(e, items), CntItemsBytes) == CntItemsBytes
    ensures ItemsRead(Written(e, items), CntItemsBytes, items) == items
  {
    var n0 := CopyCount(0, HeaderSize, |e|);
    var e1 := WriteFrom(e, 0, CntItemsBytes, HeaderSize);
    var e2 := Written(e, items);
    forall i | 0 <= i < n0
      ensures e2[i] == CntItemsBytes[i]
    {
      assert e2[i] == e1[i];
    }
    var h := HeaderRead(e2, CntItemsBytes);
    assert h == CntItemsBytes;
    var r := ReadInto(e2, n0, items, |items|);
    forall i | 0 <= i < |items|
      ensures r[i] == items[i]
    {
      if i < CopyCount(n0, |items|, |e|) {
        assert r[i] == e2[n0 + i];
      }
    }
  }

  /** The record the constructor stores when there are no stored settings: all zero but brightness 10 and font "STANDARD". */
  function DefaultItems(itemsSize: nat): (d: seq<byte>)
    requires itemsSize > ClockFontOffset + |StandardFont|
    ensures |d| == itemsSize
  {
    seq(itemsSize, i requires 0 <= i < itemsSize =>
      if i == BrightnessOffset then DefaultBrightness
      else if ClockFontOffset <= i < ClockFontOffset + |StandardFont| then StandardFont[i - ClockFontOffset]
      else 0)
  }

  /** The defaults read back as the source sets them: DST off, 24-hour time, brightness 10, 5-second delay, font "STANDARD", colour red. */
  lemma DefaultsAsSet(itemsSize: nat)
    requires itemsSize > ClockFontOffset + |StandardFont|
    ensures var d := DefaultItems(itemsSize);
      && d[0..4] == [0, 0, 0, 0]
      && d[4..8] == [0, 0, 0, 0]
      && d[BrightnessOffset..BrightnessOffset + 4] == [DefaultBrightness, 0, 0, 0]
      && d[12..16] == [0, 0, 0, 0]
      && d[ClockFontOffset..ClockFontOffset + |StandardFont| + 1] == StandardFont + [0]
      && forall i :: ClockFontOffset + |StandardFont| < i < itemsSize ==> d[i] == 0
  {
    var d := DefaultItems(itemsSize);
    assert d[BrightnessOffset..BrightnessOffset + 4] == [DefaultBrightness, 0, 0, 0];
    assert d[ClockFontOffset..ClockFontOffset + |StandardFont| + 1] == StandardFont + [0];
  }

  class Config {
    /** The EEPROM. */
    const eeprom: array<byte>
    /** `sizeof(ConfigItems)`. */
    const itemsSize: nat
    /** The header in memory (`cfgCntItems`), as its four bytes. */
    var cfgCntItems: seq<byte>
    /** The record in memory (`cfgItems`), as its bytes. */
    var cfgItems: seq<byte>

    /** The header and record buffers have their sizes. */
    ghost predicate Valid()
      reads this
    {
      |cfgCntItems| == HeaderSize && |cfgItems| == itemsSize
    }

    /**
     * Loads the settings from `eeprom`; when it holds none, stores the defaults
     * and writes them back.
     */
    constructor (eeprom: array<byte>, itemsSize: nat)
      requires itemsSize > ClockFontOffset + |StandardFont|
      modifies eeprom
      ensures Valid() && this.eeprom == eeprom && this.itemsSize == itemsSize
      ensures cfgCntItems == CntItemsBytes
      ensures var zero := seq(itemsSize, _ => 0);
        var ok := HeaderRead(old(eeprom[..]), [0, 0, 0, 0]) == CntItemsBytes;
        && (ok ==> cfgItems == ItemsRead(old(eeprom[..]), [0, 0, 0, 0], zero) && eeprom[..] == old(eeprom[..]))
        && (!ok ==> cfgItems == DefaultItems(itemsSize) && eeprom[..] == Written(old(eeprom[..]), cfgItems))
    {
      this.eeprom := eeprom;
      this.itemsSize := itemsSize;
      cfgCntItems := [0, 0, 0, 0];
      cfgItems := seq(itemsSize, _ => 0);
      new;
      var ok := ReadEeprom();
      if !ok {
        cfgItems := DefaultItems(itemsSize);
        ok := WriteEeprom();
      }
    }

    /** The record, re-read from EEPROM first when the header in memory is not valid. */
    method GetCfgItems() returns (items: seq<byte>)
      requires Valid()
      modifies this
      ensures Valid()
      ensures old(cfgCntItems) == CntItemsBytes ==> cfgCntItems == old(cfgCntItems) && cfgItems == old(cfgItems)
      ensures old(cfgCntItems) != CntItemsBytes ==>
        cfgCntItems == HeaderRead(eeprom[..], old(cfgCntItems))
        && cfgItems == ItemsRead(eeprom[..], old(cfgCntItems), old(cfgItems))
      ensures items == cfgItems
    {
      if cfgCntItems != CntItemsBytes {
        var _ := ReadEeprom();
      }
      items := cfgItems;
    }

    /** Replaces the record and, when `write` is set, writes the settings to EEPROM. */
    method SetCfgItems(items: seq<byte>, write: bool) returns (ret: bool)
      requires Valid() && |items| == itemsSize
      modifies this, eeprom
      ensures Valid() && ret && cfgItems == items
      ensures write ==> cfgCntItems == CntItemsBytes && eeprom[..] == Written(old(eeprom[..]), items)
      ensures !write ==> cfgCntItems == old(cfgCntItems) && eeprom[..] == old(eeprom[..])
    {
      ret := true;
      cfgItems := items;
      if write {
        ret := WriteEeprom();
      }
    }

    /** Reads the header and, when it is valid, the record; succeeds exactly when the header read is 12. */
    method ReadEeprom() returns (ret: bool)
      requires Valid()
      modifies this
      ensures Valid()
      ensures cfgCntItems == HeaderRead(eeprom[..], old(cfgCntItems))
      ensures ret <==> cfgCntItems == CntItemsBytes
      ensures cfgItems == ItemsRead(eeprom[..], old(cfgCntItems), old(cfgItems))
    {
      var address := 0;
      var count;
      cfgCntItems, count := ReadBytes(address, cfgCntItems, HeaderSize);
      address := address + count;
      if cfgCntItems == CntItemsBytes {
        cfgItems, count := ReadBytes(address, cfgItems, |cfgItems|);
        ret := true;
      } else {
        ret := false;
      }
    }

    /** Sets the header to 12 and writes it and the record to EEPROM; always succeeds. */
    method WriteEeprom() returns (ret: bool)
      requires Valid()
      modifies this, eeprom
      ensures Valid() && ret && cfgItems == old(cfgItems)
      ensures cfgCntItems == CntItemsBytes
      ensures eeprom[..] == Written(old(eeprom[..]), cfgItems)
    {
      ret := true;
      var address := 0;
      cfgCntItems := CntItemsBytes;
      var count := WriteBytes(address, cfgCntItems, HeaderSize);
      address := address + count;
      count := WriteBytes(address, cfgItems, |cfgItems|);
    }

    /**
     * Copies up to `len` EEPROM bytes from `address` into the front of `data`,
     * stopping at the end of the EEPROM, and returns how many it copied.
     */
    method ReadBytes(address: nat, data: seq<byte>, len: nat) returns (out: seq<byte>, count: nat)
      requires len <= |data|
      ensures count == CopyCount(address, len, eeprom.Length)
      ensures out == ReadInto(eeprom[..], address, data, len)
    {
      out := data;
      count := 0;
      var addr := address;
      while count < len && addr < eeprom.Length
        invariant count <= len && addr == address + count
        invariant count == 0 || addr <= eeprom.Length
        invariant |out| == |data|
        invariant forall i :: 0 <= i < count ==> out[i] == eeprom[address + i]
        invariant forall i :: count <= i < |data| ==> out[i] == data[i]
      {
        out := out[count := eeprom[addr]];
        count, addr := count + 1, addr + 1;
      }
    }

    /**
     * Copies up to `len` bytes of `data` into the EEPROM from `address` on,
     * stopping at its end; changes no other EEPROM byte and returns how many it copied.
     */
    method WriteBytes(address: nat, data: seq<byte>, len: nat) returns (count: nat)
      requires len <= |data|
      modifies eeprom
      ensures count == CopyCount(address, len, eeprom.Length)
      ensures eeprom[..] == WriteFrom(old(eeprom[..]), address, data, len)
    {
      count := 0;
      var addr := address;
      while count < len && addr < eeprom.Length
        invariant count <= len && addr == address + count
        invariant count == 0 || addr <= eeprom.Length
        invariant forall j :: 0 <= j < eeprom.Length ==>
          eeprom[j] == if address <= j < addr then data[j - address] else old(eeprom[j])
      {
        eeprom[addr] := data[count];
        count, addr := count + 1, addr + 1;
      }
    }
  }
}
