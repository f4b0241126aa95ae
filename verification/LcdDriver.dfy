/** lcd_driver.c: ordered port writes with an error carried along. */
module LcdDriver {
  import opened Basics
  import opened Hd44780
  import opened LcdWire
  import opened LcdStartup
  import opened LcdScreen

  /** Since `sent`, the bytes of `stream` were acknowledged up to the first failure; `ok` iff all were. */
  ghost predicate Delivered(wire: seq<byte>, sent: seq<byte>, stream: seq<byte>, ok: bool) {
    sent <= wire <= sent + stream && (ok <==> wire == sent + stream)
  }

  /** A second delivery after a complete first one is a delivery of the concatenation. */
  lemma Chain(wire: seq<byte>, sent: seq<byte>, first: seq<byte>, second: seq<byte>, ok: bool)
    requires Delivered(wire, sent + first, second, ok)
    ensures Delivered(wire, sent, first + second, ok)
  {
    assert sent + first + second == sent + (first + second);
  }

  /** A delivery that stopped inside `first` stopped inside `first + second`. */
  lemma Stopped(wire: seq<byte>, sent: seq<byte>, first: seq<byte>, second: seq<byte>)
    requires Delivered(wire, sent, first, false)
    ensures Delivered(wire, sent, first + second, false)
  {
    assert sent + first + second == sent + (first + second);
    assert |wire| < |sent + first|;
  }

  class Lcd {
    var display: Display
    ghost var wire: seq<byte>      // every byte the port has acknowledged
    ghost const start: Display     // the display before the first of them
    const healthy: bool            // an error-free bus

    constructor (d: Display, healthy: bool)
      requires d.chip.Valid()
      ensures Valid() && display == d && wire == [] && this.healthy == healthy
    {
      display, wire, start, this.healthy := d, [], d, healthy;
    }

    /** The display has seen the acknowledged bytes, and every one of them kept the backlight on. */
    ghost predicate Valid()
      reads this
    {
      start.chip.Valid() && display == Feed(start, wire) && AllBacklit(wire)
    }

    /** A complete delivery moves the display by exactly the delivered stream. */
    lemma Moved(before: Display, sent: seq<byte>, stream: seq<byte>)
      requires Valid() && before == Feed(start, sent) && wire == sent + stream
      ensures display == Feed(before, stream)
    {
      FeedConcat(start, sent, stream);
    }

    /** i2c_bus_pcf8574_write_byte: a failed write does not reach the port. */
    method BusWrite(b: byte) returns (ok: bool)
      requires Valid() && Backlit(b)
      modifies this
      ensures Valid() && Delivered(wire, old(wire), [b], ok)
      ensures healthy ==> ok
    {
      ok := true;
      if !healthy { ok := *; }
      if ok {
        FeedConcat(start, wire, [b]);
        assert [b][1..] == [];
        assert Feed(display, [b]) == Feed(Write(display, b), []);
        display := Write(display, b);
        wire := wire + [b];
      }
    }

    method WriteNibble(n: byte, mode: byte) returns (ok: bool)
      requires Valid() && mode <= RS_BIT
      modifies this
      ensures Valid() && Delivered(wire, old(wire), NibbleWrites(n / 16, mode == RS_BIT), ok)
      ensures healthy ==> ok
    {
      var data: byte := n / 16 * 16 + mode + BL_BIT;   // (nibble & 0xF0) | mode | LCD_BL_BIT
      ghost var w, high := wire, [data, data + EN_BIT];
      HalfBacklit(n / 16, mode == RS_BIT);
      assert NibbleWrites(n / 16, mode == RS_BIT) == high + [data] && high == [data] + [data + EN_BIT];
      ok := true;
      if !healthy { ok := *; }                         // i2c_bus_lock
      if !ok {
        return;
      }
      ok := BusWrite(data);
      if !ok {
        Stopped(wire, w, [data], [data + EN_BIT]);
        Stopped(wire, w, high, [data]);
        return;
      }
      ok := BusWrite(data + EN_BIT);
      Chain(wire, w, [data], [data + EN_BIT], ok);
      if !ok {
        Stopped(wire, w, high, [data]);
        return;
      }
      ok := BusWrite(data);
      Chain(wire, w, high, [data], ok);
    }

    method SendByte(val: byte, mode: byte) returns (ok: bool)
      requires Valid() && mode <= RS_BIT
      modifies this
      ensures Valid() && Delivered(wire, old(wire), SendWrites(Send(val, mode == RS_BIT)), ok)
      ensures healthy ==> ok
    {
      Halves(val);
      ghost var w, hi, lo := wire, NibbleWrites(val / 16, mode == RS_BIT), NibbleWrites(val % 16, mode == RS_BIT);
      ok := WriteNibble(val / 16 * 16, mode);          // val & 0xF0
      if !ok {
        Stopped(wire, w, hi, lo);
        return;
      }
      ok := WriteNibble(val * 16 % 256, mode);         // (val << 4) & 0xF0
      Chain(wire, w, hi, lo, ok);
    }

    method Cmd(cmd: byte) returns (ok: bool)
      requires Valid()
      modifies this
      ensures Valid() && Delivered(wire, old(wire), Encode([Send(cmd, false)]), ok)
      ensures healthy ==> ok
    {
      EncodeOne(Send(cmd, false));
      ok := SendByte(cmd, 0);
    }

    method Print(str: cstring) returns (ok: bool)
      requires Valid()
      modifies this
      ensures Valid() && Delivered(wire, old(wire), Encode(Texts(str)), ok)
      ensures healthy ==> ok
    {
      ok := true;
      ghost var w := wire;
      var i := 0;
      while i < |str|
        invariant 0 <= i <= |str| && ok
        invariant Valid() && Delivered(wire, w, Encode(Texts(str[..i])), true)
      {
        ghost var done := Encode(Texts(str[..i]));
        ghost var now := SendWrites(Send(str[i], true));
        ok := SendByte(str[i], RS_BIT);
        Chain(wire, w, done, now, ok);
        TextsStep(str, i);
        if !ok {
          Stopped(wire, w, done + now, Encode(Texts(str[i + 1..])));
          return;
        }
        i := i + 1;
      }
      assert str[..i] == str;
    }

    method Clear() returns (ok: bool)
      requires Valid()
      modifies this
      ensures Valid() && Delivered(wire, old(wire), Encode([CLEAR]), ok)
      ensures healthy ==> ok
    {
      ok := Cmd(0x01);
    }

    method SetCursor(col: byte, row: byte) returns (ok: bool)
      requires Valid()
      modifies this
      ensures Valid() && Delivered(wire, old(wire), Encode([CursorCommand(col, row)]), ok)
      ensures healthy ==> ok
    {
      var rowOffsets := [0x00, 0x40, 0x14, 0x54];
      var r := if row > 1 then 1 else row;
      ok := Cmd(0x80 + (col + rowOffsets[r]) % 0x80);
    }

    method CreateChar(location: byte, charmap: seq<byte>) returns (ok: bool)
      requires Valid() && |charmap| == 8
      modifies this
      ensures Valid() && Delivered(wire, old(wire), Encode(GlyphSends(location, charmap)), ok)
      ensures healthy ==> ok
    {
      var slot := location % 8;
      ghost var w, address := wire, Encode([Send(0x40 + slot * 8, false)]);
      EncodeConcat([Send(0x40 + slot * 8, false)], Texts(charmap));
      ok := Cmd(0x40 + slot * 8);
      if !ok {
        Stopped(wire, w, address, Encode(Texts(charmap)));
        return;
      }
      ok := SendRows(charmap);
      Chain(wire, w, address, Encode(Texts(charmap)), ok);
    }

    /** The loop over the eight glyph rows; the bytes are raw, so zero rows are sent too. */
    method SendRows(rows: seq<byte>) returns (ok: bool)
      requires Valid()
      modifies this
      ensures Valid() && Delivered(wire, old(wire), Encode(Texts(rows)), ok)
      ensures healthy ==> ok
    {
      ok := true;
      ghost var w := wire;
      var i := 0;
      while i < |rows|
        invariant 0 <= i <= |rows| && ok
        invariant Valid() && Delivered(wire, w, Encode(Texts(rows[..i])), true)
      {
        ghost var done, now := Encode(Texts(rows[..i])), SendWrites(Send(rows[i], true));
        ok := SendByte(rows[i], RS_BIT);
        Chain(wire, w, done, now, ok);
        TextsStep(rows, i);
        if !ok {
          Stopped(wire, w, done + now, Encode(Texts(rows[i + 1..])));
          return;
        }
        i := i + 1;
      }
      assert rows[..i] == rows;
    }

    /** The three checked nibbles of lcd_driver_init. */
    method Reset() returns (ok: bool)
      requires Valid()
      modifies this
      ensures Valid() && Delivered(wire, old(wire), ResetWrites(), ok)
      ensures healthy ==> ok
    {
      ghost var w, three := wire, NibbleWrites(3, false);
      ok := WriteNibble(0x30, 0);
      if !ok {
        Stopped(wire, w, three, three);
        Stopped(wire, w, three + three, three);
        return;
      }
      ok := WriteNibble(0x30, 0);
      Chain(wire, w, three, three, ok);
      if !ok {
        Stopped(wire, w, three + three, three);
        return;
      }
      ok := WriteNibble(0x30, 0);
      Chain(wire, w, three + three, three, ok);
    }

    /** lcd_driver_init: past the first three nibbles no result is checked. */
    method Init() returns (ok: bool)
      requires Valid()
      modifies this
      ensures Valid() && old(wire) <= wire
      ensures if ok then old(wire) + ResetWrites() <= wire else Delivered(wire, old(wire), ResetWrites(), false)
      ensures healthy ==> ok && wire == old(wire) + InitWrites()
    {
      ghost var w := wire;
      ok := Reset();
      if !ok { return; }
      ghost var w3 := wire;
      SwitchToFourBit();
      ghost var w4 := wire;
      Configure();
      assert w <= w3 <= w4 <= wire;
      Joined(w, ResetWrites(), NibbleWrites(2, false), Encode(CONFIGURATION));
    }

    method SwitchToFourBit()
      requires Valid()
      modifies this
      ensures Valid() && old(wire) <= wire
      ensures healthy ==> wire == old(wire) + NibbleWrites(2, false)
    {
      var ignored := WriteNibble(0x20, 0);
    }

    /** The five configuration commands of lcd_driver_init, each sent whether or not the last one failed. */
    method Configure()
      requires Valid()
      modifies this
      ensures Valid() && old(wire) <= wire
      ensures healthy ==> wire == old(wire) + Encode(CONFIGURATION)
    {
      ghost var w0 := wire;
      var ignored := Cmd(0x28);
      ghost var w1 := wire;
      ignored := Cmd(0x08);
      ghost var w2 := wire;
      ignored := Clear();
      ghost var w3 := wire;
      ignored := Cmd(0x06);
      ghost var w4 := wire;
      ignored := Cmd(0x0C);
      assert w0 <= w1 <= w2 <= w3 <= w4 <= wire;
      ConfigurationWrites(w0);
    }
  }

  lemma EncodeNext(w: seq<byte>, s: Send, rest: seq<Send>)
    ensures w + Encode([s] + rest) == w + Encode([s]) + Encode(rest)
  {
    EncodeConcat([s], rest);
    Assoc(w, Encode([s]), Encode(rest));
  }

  lemma ConfigurationWrites(w: seq<byte>)
    ensures w + Encode(CONFIGURATION) == w + Encode([Send(0x28, false)]) + Encode([Send(0x08, false)])
                                         + Encode([CLEAR]) + Encode([Send(0x06, false)]) + Encode([Send(0x0C, false)])
  {
    var d := [Send(0x06, false)] + [Send(0x0C, false)];
    var c := [CLEAR] + d;
    var b := [Send(0x08, false)] + c;
    assert CONFIGURATION == [Send(0x28, false)] + b;
    var w1 := w + Encode([Send(0x28, false)]);
    var w2 := w1 + Encode([Send(0x08, false)]);
    var w3 := w2 + Encode([CLEAR]);
    EncodeNext(w, Send(0x28, false), b);
    EncodeNext(w1, Send(0x08, false), c);
    EncodeNext(w2, CLEAR, d);
    EncodeNext(w3, Send(0x06, false), [Send(0x0C, false)]);
  }

  lemma Joined(w: seq<byte>, a: seq<byte>, b: seq<byte>, c: seq<byte>)
    ensures w + a + b + c == w + ((a + b) + c)
  {
  }

  lemma Halves(val: byte)
    ensures val / 16 * 16 < 256 && val / 16 * 16 / 16 == val / 16
    ensures val * 16 % 256 / 16 == val % 16
  {
    var hi, lo := val as int / 16, val as int % 16;
    assert val as int * 16 == 256 * hi + 16 * lo;
  }

  lemma EncodeOne(s: Send)
    ensures Encode([s]) == SendWrites(s)
  {
    assert [s][1..] == [];
  }

  lemma TextsStep(str: seq<byte>, i: int)
    requires 0 <= i < |str|
    ensures Encode(Texts(str[..i + 1])) == Encode(Texts(str[..i])) + SendWrites(Send(str[i], true))
    ensures Encode(Texts(str)) == Encode(Texts(str[..i + 1])) + Encode(Texts(str[i + 1..]))
  {
    assert Texts(str[..i + 1]) == Texts(str[..i]) + [Send(str[i], true)];
    EncodeConcat(Texts(str[..i]), [Send(str[i], true)]);
    EncodeOne(Send(str[i], true));
    assert Texts(str) == Texts(str[..i + 1]) + Texts(str[i + 1..]);
    EncodeConcat(Texts(str[..i + 1]), Texts(str[i + 1..]));
  }
}
