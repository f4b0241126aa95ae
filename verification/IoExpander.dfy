/** io_expander.c: the shadow register of the PCF8574 behind a bus that may lose any write. */
module IoExpander {

  const INPUT_MASK: bv8 := 0xE0          // EXPANDER_INIT_PINS_MASK: pins 5, 6, 7 are inputs

  /** A pin number, 0 to 7. */
  type pin = p: bv8 | p < 8

  function Bit(port: bv8, p: pin): bool { (port >> p) & 1 == 1 }

  function WithBit(port: bv8, p: pin, level: bool): bv8 {
    if level then port | (1 << p) else port & !(1 << p)
  }

  lemma WithBitSets(port: bv8, p: pin, level: bool, q: pin)
    ensures Bit(WithBit(port, p, level), q) == if q == p then level else Bit(port, q)
  {
  }

  lemma MaskBits(port: bv8, p: pin)
    ensures Bit(port | INPUT_MASK, p) == (p >= 5 || Bit(port, p))
  {
  }

  datatype Call = Call(p: pin, level: bool)

  /** The level a pin was last asked for, successful call or not; every pin starts high. */
  function LastLevel(calls: seq<Call>, p: pin): bool {
    if calls == [] then true
    else if calls[|calls| - 1].p == p then calls[|calls| - 1].level
    else LastLevel(calls[..|calls| - 1], p)
  }

  lemma LastLevelSnoc(calls: seq<Call>, call: Call, p: pin)
    ensures LastLevel(calls + [call], p) == if call.p == p then call.level else LastLevel(calls, p)
  {
    assert (calls + [call])[..|calls|] == calls;
  }

  /** Setting the bit of a call keeps the shadow the per-pin fold of all calls. */
  lemma ShadowFollows(calls: seq<Call>, shadow: bv8, call: Call)
    requires forall q: pin :: Bit(shadow, q) == LastLevel(calls, q)
    ensures forall q: pin :: Bit(WithBit(shadow, call.p, call.level), q) == LastLevel(calls + [call], q)
  {
    forall q: pin ensures Bit(WithBit(shadow, call.p, call.level), q) == LastLevel(calls + [call], q) {
      WithBitSets(shadow, call.p, call.level, q);
      LastLevelSnoc(calls, call, q);
    }
  }

  class Expander {
    var portShadow: bv8
    var ready: bool                // io_mutex != NULL
    var hardware: bv8              // output latch of the chip; all high at power-on
    ghost var calls: seq<Call>     // every set_level since initialisation

    constructor ()
      ensures portShadow == hardware == 0xFF && !ready && calls == []
    {
      portShadow, ready, hardware, calls := 0xFF, false, 0xFF, [];
    }

    /** The shadow is the per-pin fold of all calls; the input pins of the latch are high. */
    ghost predicate Valid()
      reads this
    {
      && (forall p: pin :: p >= 5 ==> Bit(hardware, p))
      && (ready ==> forall p: pin :: Bit(portShadow, p) == LastLevel(calls, p))
    }

    /** The latch shows on every output pin the level last asked for. */
    ghost predicate UpToDate()
      reads this
    {
      forall p: pin :: Bit(hardware, p) == (p >= 5 || LastLevel(calls, p))
    }

    /** commit_to_hardware; `bus` is whether the write gets through. */
    method Commit(bus: bool) returns (ok: bool)
      requires ready && Valid()
      modifies this`hardware
      ensures ok == bus && Valid()
      ensures if ok then UpToDate() else hardware == old(hardware)
    {
      ok := bus;
      if ok {
        hardware := portShadow | INPUT_MASK;
        forall p: pin ensures Bit(hardware, p) == (p >= 5 || Bit(portShadow, p)) { MaskBits(portShadow, p); }
      }
    }

    method Init(mutex: bool, bus: bool) returns (ok: bool)
      requires Valid()
      modifies this
      ensures Valid() && ok == (mutex && bus) && ready == ok
      ensures ok ==> calls == [] && UpToDate()
      ensures !ok ==> hardware == old(hardware)
    {
      if !mutex {
        ready := false;
        return false;
      }
      ready, portShadow, calls := true, 0xFF, [];
      AllHigh();
      ok := Commit(bus);
      if !ok { ready := false; }
    }

    /** io_expander_set_level: a failed call still counts, and the next successful one makes it visible. */
    method SetLevel(p: pin, level: bool, bus: bool) returns (ok: bool)
      requires Valid()
      modifies this`portShadow, this`hardware, this`calls
      ensures Valid() && ok == (ready && bus)
      ensures calls == if ready then old(calls) + [Call(p, level)] else old(calls)
      ensures ok ==> UpToDate()
      ensures !ok ==> hardware == old(hardware)
    {
      if !ready { return false; }
      ShadowFollows(calls, portShadow, Call(p, level));
      portShadow := WithBit(portShadow, p, level);
      calls := calls + [Call(p, level)];
      ok := Commit(bus);
    }

    /** A read sees an input pin low only if something outside pulls it low: the latch never does. */
    method ReadPort(outside: bv8) returns (port: bv8)
      requires Valid()
      ensures forall p: pin :: p >= 5 ==> Bit(port, p) == Bit(outside, p)
      ensures forall p: pin :: p < 5 ==> Bit(port, p) == (Bit(hardware, p) && Bit(outside, p))
    {
      port := hardware & outside;
      forall p: pin ensures Bit(port, p) == (Bit(hardware, p) && Bit(outside, p)) { AndBits(hardware, outside, p); }
    }
  }

  lemma AndBits(a: bv8, b: bv8, p: pin)
    ensures Bit(a & b, p) == (Bit(a, p) && Bit(b, p))
  {
  }

  lemma AllHigh()
    ensures forall p: pin :: Bit(0xFF, p)
  {
  }

  /** One call and whether its bus write gets through. */
  datatype Attempt = Attempt(call: Call, bus: bool)

  function Calls(attempts: seq<Attempt>): seq<Call> {
    seq(|attempts|, i requires 0 <= i < |attempts| => attempts[i].call)
  }

  /** Any sequence of calls with any failures: each successful call leaves every output pin at the
      level last asked for, failed requests included, and in between the latch keeps its last value. */
  method Drive(e: Expander, attempts: seq<Attempt>) returns (last: nat)
    requires e.Valid() && e.ready && e.calls == [] && e.UpToDate()
    modifies e
    ensures e.Valid() && last <= |attempts|
    ensures last > 0 ==> attempts[last - 1].bus
    ensures forall i :: last <= i < |attempts| ==> !attempts[i].bus
    ensures forall p: pin :: Bit(e.hardware, p) == (p >= 5 || LastLevel(Calls(attempts[..last]), p))
  {
    last := 0;
    for i := 0 to |attempts|
      invariant last <= i && e.Valid() && e.ready && e.calls == Calls(attempts[..i])
      invariant last > 0 ==> attempts[last - 1].bus
      invariant forall j :: last <= j < i ==> !attempts[j].bus
      invariant forall p: pin :: Bit(e.hardware, p) == (p >= 5 || LastLevel(Calls(attempts[..last]), p))
    {
      var a := attempts[i];
      var ok := e.SetLevel(a.call.p, a.call.level, a.bus);
      assert Calls(attempts[..i + 1]) == Calls(attempts[..i]) + [a.call];
      if ok { last := i + 1; }
    }
  }
}
