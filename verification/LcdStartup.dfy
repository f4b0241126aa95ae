/** The start-up sequence: from an unknown controller to a blank, addressed, 4-bit display. */
module LcdStartup {
  import opened Basics
  import opened Hd44780
  import opened LcdWire

  const CONFIGURATION := [Send(0x28, false), Send(0x08, false), Send(0x01, false), Send(0x06, false), Send(0x0C, false)]

  function ResetWrites(): seq<byte> {
    NibbleWrites(3, false) + NibbleWrites(3, false) + NibbleWrites(3, false)
  }

  function WakeWrites(): seq<byte> { ResetWrites() + NibbleWrites(2, false) }

  function InitWrites(): seq<byte> { WakeWrites() + Encode(CONFIGURATION) }

  /** Blank 2x16 display, 4-bit interface at a byte boundary, next character at DDRAM 0. */
  ghost predicate Fresh(c: Chip) {
    c.Ready() && !c.toCgram && c.ac == 0 && forall i :: 0 <= i < 128 ==> c.ddram[i] == BLANK
  }

  /** One 3 strobe: 8-bit mode absorbs it, a byte boundary starts 0x3_, a half byte is completed. */
  lemma StrobeThree(c: Chip)
    requires c.Valid()
    ensures var r := Latch(c, 3, false, false);
            && (!c.fourBit ==> !r.fourBit)
            && (c.Aligned() ==> r.fourBit && r.pending == HighNibble(3))
            && (c.fourBit && c.pending == HighNibble(3) ==> !r.fourBit)
            && (c.fourBit && c.pending.HighNibble? ==> r.pending.NoNibble?)
  {
    if c.fourBit {
      match c.pending {
        case NoNibble =>
        case HighNibble(h) =>
          var d := c.(pending := NoNibble);
          assert Latch(c, 3, false, false) == Command(d, h * 16 + 3);
      }
    }
  }

  lemma ThreeThrees(c: Chip)
    requires c.Valid()
    ensures !Latch(Latch(Latch(c, 3, false, false), 3, false, false), 3, false, false).fourBit
  {
    var c1 := Latch(c, 3, false, false);
    var c2 := Latch(c1, 3, false, false);
    StrobeThree(c);
    StrobeThree(c1);
    StrobeThree(c2);
  }

  lemma TwoAfterThrees(c: Chip)
    requires c.Valid() && !c.fourBit
    ensures Latch(c, 2, false, false).Aligned()
  {
    assert Latch(c, 2, false, false) == Command(c, 32 + c.floating);
  }

  /** With EN low to begin with, one command nibble is exactly one strobe. */
  lemma QuietNibble(d: Display, n: nibble)
    requires d.chip.Valid() && !En(d.line)
    ensures var r := Feed(d, NibbleWrites(n, false));
            r.chip == Latch(d.chip, n, false, false) && !En(r.line)
  {
    HalfLines(n, false);
    FeedNibble(d, n, false);
  }

  /** The three checked nibbles alone leave 8-bit mode, from every prior state. That is all a display has
      seen when the bus fails right after them, and the start-up reports success all the same. */
  lemma ResetLeavesEightBit(d: Display)
    requires d.chip.Valid()
    ensures var r := Feed(d, ResetWrites()); !r.chip.fourBit && !En(r.line)
  {
    var three := NibbleWrites(3, false);
    FeedConcat(d, three, three);
    FeedConcat(d, three + three, three);
    HalfLines(3, false);
    FeedNibble(d, 3, false);
    var d1 := Feed(d, three);
    QuietNibble(d1, 3);
    QuietNibble(Feed(d1, three), 3);
    ThreeThrees(Write(d, Half(3, false)).chip);
  }

  /** The nibbles 3, 3, 3, 2 reach a 4-bit byte boundary from every prior state of chip and port:
      8-bit, 4-bit at a boundary, 4-bit with any half byte pending, EN high or low. */
  lemma WakesFromAnyState(d: Display)
    requires d.chip.Valid()
    ensures var r := Feed(d, WakeWrites()); r.chip.Aligned() && !En(r.line)
  {
    FeedConcat(d, ResetWrites(), NibbleWrites(2, false));
    ResetLeavesEightBit(d);
    var d3 := Feed(d, ResetWrites());
    QuietNibble(d3, 2);
    TwoAfterThrees(d3.chip);
  }

  lemma ConfigurationCommands(c: Chip)
    requires c.Valid() && c.Aligned()
    ensures Fresh(TransmitAll(c, CONFIGURATION))
  {
    var s := CONFIGURATION;
    var c1 := Command(c, 0x28);
    var c2 := Command(c1, 0x08);
    var c3 := Command(c2, 0x01);
    var c4 := Command(c3, 0x06);
    var c5 := Command(c4, 0x0C);
    assert s[1..][1..][1..][1..][1..] == [];
    assert TransmitAll(c4, s[1..][1..][1..][1..]) == c5;
    assert TransmitAll(c2, s[1..][1..]) == TransmitAll(c4, s[1..][1..][1..][1..]);
    assert TransmitAll(c, s) == TransmitAll(c2, s[1..][1..]);
  }

  /** What was on the display before is never shown: it is off from the second command until the last. */
  lemma ConfigurationStaysDark(c: Chip, k: nat)
    requires c.Valid() && c.Aligned() && 2 <= k <= 5
    ensures TransmitAll(c, [Send(0x28, false), Send(0x08, false), Send(0x01, false), Send(0x06, false),
                            Send(0x0C, false)][..k]).displayOn == (k == 5)
    ensures CONFIGURATION == [Send(0x28, false), Send(0x08, false), Send(0x01, false), Send(0x06, false),
                              Send(0x0C, false)]
  {
    var s := CONFIGURATION[..k];
    var c2 := Command(Command(c, 0x28), 0x08);
    assert TransmitAll(c, s) == TransmitAll(c2, s[1..][1..]);
    var rest := s[1..][1..];
    if k > 2 {
      var c3 := Command(c2, 0x01);
      assert TransmitAll(c2, rest) == TransmitAll(c3, rest[1..]);
      if k > 3 {
        var c4 := Command(c3, 0x06);
        assert TransmitAll(c3, rest[1..]) == TransmitAll(c4, rest[1..][1..]);
        if k > 4 {
          assert rest[1..][1..][1..] == [];
          assert TransmitAll(c4, rest[1..][1..]) == Command(c4, 0x0C);
        }
      }
    }
  }

  lemma ConfigurationKeepsFourBit()
    ensures AllKeepFourBit(CONFIGURATION)
  {
  }

  lemma Configured(d: Display)
    requires d.chip.Valid() && d.chip.Aligned() && !En(d.line)
    ensures var r := Feed(d, Encode(CONFIGURATION)); Fresh(r.chip) && !En(r.line)
  {
    ConfigurationKeepsFourBit();
    FeedEncode(d, CONFIGURATION);
    ConfigurationCommands(d.chip);
  }

  /** After the whole sequence the display is fresh, whatever the controller was doing before. */
  lemma InitFromAnyState(d: Display)
    requires d.chip.Valid()
    ensures var r := Feed(d, InitWrites()); Fresh(r.chip) && !En(r.line)
  {
    WakesFromAnyState(d);
    FeedConcat(d, WakeWrites(), Encode(CONFIGURATION));
    Configured(Feed(d, WakeWrites()));
  }
}
