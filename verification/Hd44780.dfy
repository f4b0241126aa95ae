/** The HD44780U display controller as the reader of the bytes written to its PCF8574 port.
    Instruction set, address counter and reset rules follow the Hitachi HD44780U datasheet
    (tables 6 and 7, figure 24); execution times are not modelled. */
module Hd44780 {
  import opened Basics

  type nibble = n: int | 0 <= n < 16

  // Port bits: P0 = RS, P1 = RW, P2 = EN, P3 = backlight, P4..P7 = DB4..DB7.
  const RS_BIT: byte := 1
  const EN_BIT: byte := 4
  const BL_BIT: byte := 8

  predicate Rs(b: byte) { b % 2 == 1 }
  predicate Rw(b: byte) { b / 2 % 2 == 1 }
  predicate En(b: byte) { b / 4 % 2 == 1 }
  function Data(b: byte): nibble { b / 16 }

  const BLANK: byte := 0x20
  const LINE_LENGTH := 40
  const ROW_BASE := [0x00, 0x40]
  const COLUMNS := 16

  datatype Pending = NoNibble | HighNibble(n: nibble)

  datatype Chip = Chip(
    fourBit: bool,        // interface width
    pending: Pending,     // first half of a byte in 4-bit mode
    floating: nibble,     // what the unconnected DB0..DB3 read as in 8-bit mode
    twoLine: bool,
    displayOn: bool,
    increment: bool,      // entry mode I/D
    shiftOnWrite: bool,   // entry mode S
    toCgram: bool,        // address counter points into CGRAM
    ac: int,
    shift: int,           // display shift, counted leftwards
    ddram: seq<byte>,
    cgram: seq<byte>)
  {
    ghost predicate Valid() {
      && |ddram| == 128 && |cgram| == 64
      && 0 <= ac < 128 && (toCgram ==> ac < 64)
      && 0 <= shift < 80
      && (!fourBit ==> pending.NoNibble?)
    }

    /** 4-bit mode at a byte boundary: the next two strobes form one byte. */
    predicate Aligned() { fourBit && pending.NoNibble? }

    /** What the start-up sequence establishes and every later driver call keeps. */
    ghost predicate Ready() {
      Valid() && Aligned() && twoLine && displayOn && increment && !shiftOnWrite && shift == 0
    }

    /** The 16 visible columns of one of the two rows. */
    function Visible(row: nat): seq<byte>
      requires row < 2 && |ddram| == 128
    {
      if displayOn
      then seq(COLUMNS, j requires 0 <= j < COLUMNS => ddram[ROW_BASE[row] + (j + shift) % LINE_LENGTH])
      else seq(COLUMNS, j => BLANK)
    }
  }

  /** The address counter after one access. */
  function NextAddress(c: Chip, up: bool): (a: int)
    requires c.Valid()
    ensures 0 <= a < 128 && (c.toCgram ==> a < 64)
  {
    if c.toCgram then (if up then (c.ac + 1) % 64 else (c.ac + 63) % 64)
    else if up then
      if c.twoLine && c.ac == 0x27 then 0x40
      else if c.twoLine && c.ac == 0x67 then 0x00
      else if !c.twoLine && c.ac == 0x4F then 0x00
      else (c.ac + 1) % 128
    else
    if c.twoLine && c.ac == 0x40 then 0x27
    else if c.twoLine && c.ac == 0x00 then 0x67
    else if !c.twoLine && c.ac == 0x00 then 0x4F
    else (c.ac + 127) % 128
  }

  function Shifted(c: Chip, left: bool): Chip {
    c.(shift := if left then (c.shift + 1) % 80 else (c.shift + 79) % 80)
  }

  /** Register select low: an instruction. The highest set bit picks it. */
  function Command(c: Chip, b: byte): (r: Chip)
    requires c.Valid()
    ensures r.Valid() && r.cgram == c.cgram && (c.pending.NoNibble? ==> r.pending.NoNibble?)
    ensures c.fourBit && !(0x30 <= b < 0x40) ==> r.fourBit
  {
    if b >= 0x80 then c.(toCgram := false, ac := b % 0x80)
    else if b >= 0x40 then c.(toCgram := true, ac := b % 0x40)
    else if b >= 0x20 then c.(fourBit := b / 16 % 2 == 0, twoLine := b / 8 % 2 == 1, pending := NoNibble)
    else if b >= 0x10 then
      if b / 8 % 2 == 1 then Shifted(c, b / 4 % 2 == 0)
      else c.(ac := NextAddress(c, b / 4 % 2 == 1))
    else if b >= 0x08 then c.(displayOn := b / 4 % 2 == 1)
    else if b >= 0x04 then c.(increment := b / 2 % 2 == 1, shiftOnWrite := b % 2 == 1)
    else if b >= 0x02 then c.(toCgram := false, ac := 0, shift := 0)
    else if b == 0x01 then
      c.(ddram := seq(128, i => BLANK), toCgram := false, ac := 0, shift := 0, increment := true)
    else c
  }

  /** Register select high: a write to the memory the address counter points into. */
  function WriteData(c: Chip, b: byte): (r: Chip)
    requires c.Valid()
    ensures r.Valid() && r.fourBit == c.fourBit && r.pending == c.pending
  {
    if c.toCgram then c.(cgram := c.cgram[c.ac := b], ac := NextAddress(c, c.increment))
    else
      var written := c.(ddram := c.ddram[c.ac := b], ac := NextAddress(c, c.increment));
      if c.shiftOnWrite then Shifted(written, c.increment) else written
  }

  function Execute(c: Chip, b: byte, data: bool): (r: Chip)
    requires c.Valid()
    ensures r.Valid()
    ensures c.Aligned() && (data || !(0x30 <= b < 0x40)) ==> r.Aligned()
  {
    if data then WriteData(c, b) else Command(c, b)
  }

  /** One falling edge of EN. A read cycle only moves the nibble phase and the address counter. */
  function Latch(c: Chip, n: nibble, rs: bool, rw: bool): (r: Chip)
    requires c.Valid()
    ensures r.Valid()
  {
    if rw then
      if c.fourBit && c.pending.NoNibble? then c.(pending := HighNibble(0))
      else (if rs then c.(ac := NextAddress(c, c.increment)) else c).(pending := NoNibble)
    else if c.fourBit then
      match c.pending
      case NoNibble => c.(pending := HighNibble(n))
      case HighNibble(h) => Execute(c.(pending := NoNibble), h * 16 + n, rs)
    else Execute(c, n * 16 + c.floating, rs)
  }

  /** Two strobes from a byte boundary execute the byte they carry. */
  lemma LatchPair(c: Chip, hi: nibble, lo: nibble, rs: bool)
    requires c.Valid() && c.Aligned()
    ensures Latch(Latch(c, hi, rs, false), lo, rs, false) == Execute(c, hi * 16 + lo, rs)
  {
    assert c.(pending := HighNibble(hi)).(pending := NoNibble) == c;
  }

  /** The controller together with the byte its port is driving. */
  datatype Display = Display(line: byte, chip: Chip)

  /** One byte written to the port; what was on the lines while EN was high is latched as it falls. */
  function Write(d: Display, b: byte): (r: Display)
    requires d.chip.Valid()
    ensures r.chip.Valid() && r.line == b
  {
    Display(b, if En(d.line) && !En(b) then Latch(d.chip, Data(d.line), Rs(d.line), Rw(d.line)) else d.chip)
  }

  function Feed(d: Display, wire: seq<byte>): (r: Display)
    requires d.chip.Valid()
    ensures r.chip.Valid()
    decreases |wire|
  {
    if wire == [] then d else Feed(Write(d, wire[0]), wire[1..])
  }

  lemma {:induction false} FeedConcat(d: Display, a: seq<byte>, b: seq<byte>)
    requires d.chip.Valid()
    ensures Feed(d, a + b) == Feed(Feed(d, a), b)
    decreases |a|
  {
    if a == [] {
      assert a + b == b;
    } else {
      assert (a + b)[1..] == a[1..] + b;
      FeedConcat(Write(d, a[0]), a[1..], b);
    }
  }
}
