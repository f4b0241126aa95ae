/** The byte-to-port encoding of the LCD driver and what a reader of the port gets back. */
module LcdWire {
  import opened Basics
  import opened Hd44780

  /** One transfer the driver makes: a byte with the register select it is sent under. */
  datatype Send = Send(value: byte, data: bool)

  /** The characters of a C string, without its terminator. */
  type cstring = s: seq<byte> | 0 !in s

  function Mode(data: bool): byte { if data then RS_BIT else 0 }

  /** Port byte for one half: data lines, register select, backlight, EN low. */
  function Half(n: nibble, data: bool): byte { n * 16 + Mode(data) + BL_BIT }

  function NibbleWrites(n: nibble, data: bool): seq<byte> {
    [Half(n, data), Half(n, data) + EN_BIT, Half(n, data)]
  }

  function SendWrites(s: Send): seq<byte> {
    NibbleWrites(s.value / 16, s.data) + NibbleWrites(s.value % 16, s.data)
  }

  function Encode(sends: seq<Send>): seq<byte> {
    if sends == [] then [] else SendWrites(sends[0]) + Encode(sends[1..])
  }

  function Texts(text: seq<byte>): seq<Send> { seq(|text|, i requires 0 <= i < |text| => Send(text[i], true)) }

  lemma {:induction false} EncodeConcat(a: seq<Send>, b: seq<Send>)
    ensures Encode(a + b) == Encode(a) + Encode(b)
  {
    if a == [] {
      assert a + b == b;
    } else {
      assert (a + b)[1..] == a[1..] + b;
      EncodeConcat(a[1..], b);
      Assoc(SendWrites(a[0]), Encode(a[1..]), Encode(b));
    }
  }

  /** The line of the backlight is high. */
  predicate Backlit(b: byte) { b / 8 % 2 == 1 }

  ghost predicate AllBacklit(wire: seq<byte>) { forall i :: 0 <= i < |wire| ==> Backlit(wire[i]) }

  lemma HalfBacklit(n: nibble, data: bool)
    ensures AllBacklit(NibbleWrites(n, data))
  {
  }

  lemma {:induction false} EncodeBacklit(sends: seq<Send>)
    ensures AllBacklit(Encode(sends))
    decreases |sends|
  {
    if sends != [] {
      EncodeBacklit(sends[1..]);
      HalfBacklit(sends[0].value / 16, sends[0].data);
      HalfBacklit(sends[0].value % 16, sends[0].data);
    }
  }

  /** The letter A: high half, low half, each set up, strobed and released, with the backlight on. */
  lemma LetterOnTheWire()
    ensures Encode([Send(0x41, true)]) == [0x49, 0x4D, 0x49, 0x19, 0x1D, 0x19]
  {
    assert [Send(0x41, true)][1..] == [];
  }

  // ---- reading the port without knowing the controller ----------------------------------------

  /** What is on the lines when EN falls. */
  datatype Strobe = Strobe(n: nibble, rs: bool, rw: bool)

  function Strobes(line: byte, wire: seq<byte>): seq<Strobe>
    decreases |wire|
  {
    if wire == [] then []
    else
      (if En(line) && !En(wire[0]) then [Strobe(Data(line), Rs(line), Rw(line))] else [])
      + Strobes(wire[0], wire[1..])
  }

  /** Strobes taken two by two, high half first; both halves must agree on the register. */
  function Paired(st: seq<Strobe>): seq<Send> {
    if |st| < 2 then [] else [Send(st[0].n * 16 + st[1].n, st[1].rs)] + Paired(st[2..])
  }

  ghost predicate WriteOnly(st: seq<Strobe>) { forall i :: 0 <= i < |st| ==> !st[i].rw }

  lemma {:induction false} StrobesConcat(line: byte, a: seq<byte>, b: seq<byte>)
    ensures Strobes(line, a + b) == Strobes(line, a) + Strobes(if a == [] then line else a[|a| - 1], b)
    decreases |a|
  {
    if a == [] {
      assert a + b == b;
    } else {
      assert (a + b)[1..] == a[1..] + b;
      StrobesConcat(a[0], a[1..], b);
    }
  }

  lemma HalfLines(n: nibble, data: bool)
    ensures var h := Half(n, data);
            && Data(h) == n && Rs(h) == data && !Rw(h) && !En(h)
            && Data(h + EN_BIT) == n && Rs(h + EN_BIT) == data && !Rw(h + EN_BIT) && En(h + EN_BIT)
  {
  }

  lemma NibbleStrobes(line: byte, n: nibble, data: bool)
    requires !En(line)
    ensures Strobes(line, NibbleWrites(n, data)) == [Strobe(n, data, false)]
  {
    HalfLines(n, data);
    var h := Half(n, data);
    var w := NibbleWrites(n, data);
    assert w[1..] == [h + EN_BIT, h] && w[1..][1..] == [h] && w[1..][1..][1..] == [];
    assert Strobes(h, []) == [];
    assert Strobes(h + EN_BIT, [h]) == [Strobe(n, data, false)] + Strobes(h, []);
    assert Strobes(h, [h + EN_BIT, h]) == Strobes(h + EN_BIT, [h]);
  }

  lemma SendStrobes(line: byte, s: Send)
    requires !En(line)
    ensures Strobes(line, SendWrites(s)) == [Strobe(s.value / 16, s.data, false), Strobe(s.value % 16, s.data, false)]
  {
    HalfLines(s.value / 16, s.data);
    NibbleStrobes(line, s.value / 16, s.data);
    NibbleStrobes(Half(s.value / 16, s.data), s.value % 16, s.data);
    StrobesConcat(line, NibbleWrites(s.value / 16, s.data), NibbleWrites(s.value % 16, s.data));
  }

  /** Decoding what the driver puts on the port gives back exactly what was sent, as writes only. */
  lemma {:induction false} DecodeEncode(line: byte, sends: seq<Send>)
    requires !En(line)
    ensures Paired(Strobes(line, Encode(sends))) == sends
    ensures |Strobes(line, Encode(sends))| == 2 * |sends|
    ensures WriteOnly(Strobes(line, Encode(sends)))
    decreases |sends|
  {
    if sends != [] {
      var s, rest := sends[0], sends[1..];
      var head := SendWrites(s);
      var next := Half(s.value % 16, s.data);
      HalfLines(s.value % 16, s.data);
      SendStrobes(line, s);
      StrobesConcat(line, head, Encode(rest));
      DecodeEncode(next, rest);
      var tail := Strobes(next, Encode(rest));
      var all := Strobes(line, Encode(sends));
      assert head[|head| - 1] == next;
      assert all == Strobes(line, head) + tail;
      assert all[2..] == tail;
      assert s.value / 16 * 16 + s.value % 16 == s.value;
      assert Paired(all) == [s] + Paired(tail);
    }
  }

  // ---- reading the port as the controller -----------------------------------------------------

  function TransmitAll(c: Chip, sends: seq<Send>): (r: Chip)
    requires c.Valid()
    ensures r.Valid()
    decreases |sends|
  {
    if sends == [] then c else TransmitAll(Execute(c, sends[0].value, sends[0].data), sends[1..])
  }

  /** Every byte except a function set that asks for the 8-bit interface. */
  predicate KeepsFourBit(s: Send) { s.data || !(0x30 <= s.value < 0x40) }

  ghost predicate AllKeepFourBit(sends: seq<Send>) { forall i :: 0 <= i < |sends| ==> KeepsFourBit(sends[i]) }

  /** Three port writes are one strobe, whatever the port was driving before them. */
  lemma FeedNibble(d: Display, n: nibble, data: bool)
    requires d.chip.Valid()
    ensures Feed(d, NibbleWrites(n, data))
         == Display(Half(n, data), Latch(Write(d, Half(n, data)).chip, n, data, false))
  {
    HalfLines(n, data);
    var h := Half(n, data);
    var w := NibbleWrites(n, data);
    assert w[1..] == [h + EN_BIT, h] && w[1..][1..] == [h] && w[1..][1..][1..] == [];
    var d1 := Write(d, h);
    var d2 := Write(d1, h + EN_BIT);
    assert Feed(Write(d2, h), []) == Write(d2, h);
    assert Feed(d2, [h]) == Write(d2, h);
    assert Feed(d1, [h + EN_BIT, h]) == Feed(d2, [h]);
  }

  lemma FeedSend(d: Display, s: Send)
    requires d.chip.Valid() && d.chip.Aligned() && !En(d.line)
    ensures Feed(d, SendWrites(s)) == Display(Half(s.value % 16, s.data), Execute(d.chip, s.value, s.data))
    ensures KeepsFourBit(s) ==> Execute(d.chip, s.value, s.data).Aligned()
  {
    var hi, lo := s.value / 16, s.value % 16;
    HalfLines(hi, s.data);
    HalfLines(lo, s.data);
    FeedConcat(d, NibbleWrites(hi, s.data), NibbleWrites(lo, s.data));
    FeedNibble(d, hi, s.data);
    FeedNibble(Feed(d, NibbleWrites(hi, s.data)), lo, s.data);
    LatchPair(d.chip, hi, lo, s.data);
    assert hi * 16 + lo == s.value;
  }

  /** The controller, fed the encoded stream, executes exactly the transfers that were sent. */
  lemma {:induction false} FeedEncode(d: Display, sends: seq<Send>)
    requires d.chip.Valid() && d.chip.Aligned() && !En(d.line)
    requires AllKeepFourBit(sends)
    ensures Feed(d, Encode(sends)).chip == TransmitAll(d.chip, sends)
    ensures TransmitAll(d.chip, sends).Aligned() && !En(Feed(d, Encode(sends)).line)
    decreases |sends|
  {
    if sends != [] {
      var s, rest := sends[0], sends[1..];
      FeedSend(d, s);
      FeedConcat(d, SendWrites(s), Encode(rest));
      HalfLines(s.value % 16, s.data);
      assert forall i :: 0 <= i < |rest| ==> rest[i] == sends[i + 1];
      FeedEncode(Feed(d, SendWrites(s)), rest);
    }
  }

  /** Why display claims need the error-free bus: a transfer cut off after `k` of its six port writes
      leaves the controller at a byte boundary iff it was cut off before the first strobe ended. */
  lemma PhaseAfterPartialSend(d: Display, s: Send, k: nat)
    requires d.chip.Valid() && d.chip.Aligned() && !En(d.line) && k < 6
    ensures Feed(d, SendWrites(s)[..k]).chip.Aligned() <==> k < 3
  {
    var hi, lo := NibbleWrites(s.value / 16, s.data), NibbleWrites(s.value % 16, s.data);
    HalfLines(s.value / 16, s.data);
    HalfLines(s.value % 16, s.data);
    if k < 3 {
      assert SendWrites(s)[..k] == hi[..k];
      QuietPrefix(d, s.value / 16, s.data, k);
    } else {
      assert SendWrites(s)[..k] == hi + lo[..k - 3];
      FeedConcat(d, hi, lo[..k - 3]);
      FeedNibble(d, s.value / 16, s.data);
      var mid := Feed(d, hi);
      assert mid.chip.pending.HighNibble?;
      QuietPrefix(mid, s.value % 16, s.data, k - 3);
    }
  }

  lemma QuietPrefix(d: Display, n: nibble, data: bool, k: nat)
    requires d.chip.Valid() && !En(d.line) && k < 3
    ensures Feed(d, NibbleWrites(n, data)[..k]).chip == d.chip
  {
    HalfLines(n, data);
    var w := NibbleWrites(n, data);
    var h := Half(n, data);
    if k == 1 {
      assert w[..1] == [h] && [h][1..] == [];
      assert Feed(d, [h]) == Feed(Write(d, h), []);
    } else if k == 2 {
      assert w[..2] == [h, h + EN_BIT] && [h, h + EN_BIT][1..] == [h + EN_BIT] && [h + EN_BIT][1..] == [];
      var d1 := Write(d, h);
      assert Feed(d1, [h + EN_BIT]) == Feed(Write(d1, h + EN_BIT), []);
      assert Feed(d, [h, h + EN_BIT]) == Feed(d1, [h + EN_BIT]);
    }
  }
}
