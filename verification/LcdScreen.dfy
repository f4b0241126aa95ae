/** What driver transfers do to the two visible rows. */
module LcdScreen {
  import opened Basics
  import opened Hd44780
  import opened LcdWire

  function CursorCommand(col: byte, row: byte): Send {
    Send(0x80 + (col + ROW_BASE[if row > 1 then 1 else row]) % 0x80, false)
  }

  const CLEAR := Send(0x01, false)

  function DrawSends(row: byte, text: seq<byte>): seq<Send> { [CursorCommand(0, row)] + Texts(text) }

  function Splice(mem: seq<byte>, at: int, text: seq<byte>): seq<byte>
    requires 0 <= at && at + |text| <= |mem|
  {
    mem[..at] + text + mem[at + |text|..]
  }

  lemma SpliceStep(mem: seq<byte>, at: int, text: seq<byte>)
    requires 0 <= at && at + |text| <= |mem| && text != []
    ensures Splice(mem[at := text[0]], at + 1, text[1..]) == Splice(mem, at, text)
  {
  }

  lemma SpliceOne(mem: seq<byte>, at: int, b: byte)
    requires 0 <= at < |mem|
    ensures mem[at := b] == Splice(mem, at, [b])
  {
  }

  lemma WriteCell(c: Chip, b: byte)
    requires c.Ready() && !c.toCgram
    ensures var r := WriteData(c, b);
            && r.Ready() && !r.toCgram && r.cgram == c.cgram && r.ddram == c.ddram[c.ac := b]
            && (c.ac != 0x27 && c.ac < 0x67 ==> r.ac == c.ac + 1)
  {
  }

  /** Text that stays on its line lands in consecutive DDRAM cells and touches nothing else. */
  lemma {:induction false} PrintText(c: Chip, text: seq<byte>)
    requires c.Ready() && !c.toCgram
    requires c.ac + |text| <= 0x28 || (0x40 <= c.ac && c.ac + |text| <= 0x68)
    ensures var r := TransmitAll(c, Texts(text));
            r.Ready() && !r.toCgram && r.cgram == c.cgram && r.ddram == Splice(c.ddram, c.ac, text)
    decreases |text|
  {
    if text != [] {
      var rest := text[1..];
      assert Texts(text)[1..] == Texts(rest);
      WriteCell(c, text[0]);
      var c1 := WriteData(c, text[0]);
      assert TransmitAll(c, Texts(text)) == TransmitAll(c1, Texts(rest));
      if rest != [] {
        PrintText(c1, rest);
        SpliceStep(c.ddram, c.ac, text);
      } else {
        assert Texts(rest) == [];
        assert text == [text[0]];
        SpliceOne(c.ddram, c.ac, text[0]);
      }
    }
  }

  lemma DrawKeepsFourBit(row: byte, text: seq<byte>)
    ensures AllKeepFourBit(DrawSends(row, text))
  {
  }

  lemma SplicedRow(c: Chip, r: Chip, line: nat, col: nat, text: seq<byte>)
    requires c.Ready() && r.Ready() && line < 2 && col + |text| <= 16
    requires r.ddram == Splice(c.ddram, ROW_BASE[line] + col, text)
    ensures r.Visible(line) == c.Visible(line)[..col] + text + c.Visible(line)[col + |text|..]
    ensures r.Visible(1 - line) == c.Visible(1 - line)
  {
  }

  /** From any column on: the text replaces the columns it covers, on the row asked for or, beyond the
      second, on the second; the other row and the glyph memory stay. */
  lemma DrawAtShows(c: Chip, col: byte, row: byte, text: seq<byte>)
    requires c.Ready() && col + |text| <= 16
    ensures var r := TransmitAll(c, [CursorCommand(col, row)] + Texts(text));
            var line := if row == 0 then 0 else 1;
            && r.Ready() && !r.toCgram && r.cgram == c.cgram
            && r.Visible(line) == c.Visible(line)[..col] + text + c.Visible(line)[col + |text|..]
            && r.Visible(1 - line) == c.Visible(1 - line)
  {
    var c1 := Command(c, CursorCommand(col, row).value);
    var line := if row == 0 then 0 else 1;
    assert c1 == c.(toCgram := false, ac := ROW_BASE[line] + col);
    assert ([CursorCommand(col, row)] + Texts(text))[1..] == Texts(text);
    PrintText(c1, text);
    SplicedRow(c, TransmitAll(c1, Texts(text)), line, col, text);
  }

  /** Setting the cursor to a row start and printing at most 16 characters replaces exactly the
      first columns of that row; the other row and the glyph memory stay. */
  lemma DrawShows(c: Chip, row: byte, text: seq<byte>)
    requires c.Ready() && row < 2 && |text| <= COLUMNS
    ensures var r := TransmitAll(c, DrawSends(row, text));
            && r.Ready() && !r.toCgram && r.cgram == c.cgram
            && r.Visible(row) == text + c.Visible(row)[|text|..]
            && r.Visible(1 - row) == c.Visible(1 - row)
  {
    DrawAtShows(c, 0, row, text);
    assert c.Visible(row)[..0] + text == text;
  }

  lemma ClearShows(c: Chip)
    requires c.Ready()
    ensures var r := TransmitAll(c, [CLEAR]);
            && r.Ready() && !r.toCgram && r.cgram == c.cgram
            && r.Visible(0) == seq(COLUMNS, i => BLANK) == r.Visible(1)
  {
    assert [CLEAR][1..] == [];
    assert TransmitAll(c, [CLEAR]) == Command(c, 0x01);
  }

  function GlyphSends(slot: byte, glyph: seq<byte>): seq<Send> { [Send(0x40 + slot % 8 * 8, false)] + Texts(glyph) }

  lemma GlyphKeepsFourBit(slot: byte, glyph: seq<byte>)
    ensures AllKeepFourBit(GlyphSends(slot, glyph))
  {
  }

  lemma WriteGlyphRow(c: Chip, b: byte)
    requires c.Ready() && c.toCgram
    ensures var r := WriteData(c, b);
            && r.Ready() && r.toCgram && r.ddram == c.ddram && r.cgram == c.cgram[c.ac := b]
            && (c.ac < 63 ==> r.ac == c.ac + 1)
  {
  }

  lemma {:induction false} PrintGlyphRows(c: Chip, rows: seq<byte>)
    requires c.Ready() && c.toCgram && c.ac + |rows| <= 64
    ensures var r := TransmitAll(c, Texts(rows));
            && r.Ready() && r.toCgram && r.ddram == c.ddram && r.cgram == Splice(c.cgram, c.ac, rows)
    decreases |rows|
  {
    if rows != [] {
      var rest := rows[1..];
      assert Texts(rows)[1..] == Texts(rest);
      WriteGlyphRow(c, rows[0]);
      var c1 := WriteData(c, rows[0]);
      assert TransmitAll(c, Texts(rows)) == TransmitAll(c1, Texts(rest));
      if rest != [] {
        PrintGlyphRows(c1, rest);
        SpliceStep(c.cgram, c.ac, rows);
      } else {
        assert Texts(rest) == [];
        assert rows == [rows[0]];
        SpliceOne(c.cgram, c.ac, rows[0]);
      }
    }
  }

  /** Defining a glyph fills exactly its own eight CGRAM cells and leaves the display memory. */
  lemma GlyphStored(c: Chip, slot: byte, glyph: seq<byte>)
    requires c.Ready() && |glyph| == 8
    ensures var r := TransmitAll(c, GlyphSends(slot, glyph));
            && r.Ready() && r.ddram == c.ddram
            && r.cgram == Splice(c.cgram, slot % 8 * 8, glyph)
  {
    var c1 := Command(c, 0x40 + slot % 8 * 8);
    assert c1 == c.(toCgram := true, ac := slot % 8 * 8);
    assert GlyphSends(slot, glyph)[1..] == Texts(glyph);
    PrintGlyphRows(c1, glyph);
  }
}
