/** What each micro operation does, in the values of the slots and of the drivers' answers, and
    which driver calls a sequence can ever make. */
module OperationMeanings {
  import opened Bytes
  import opened Interface
  import opened MicroOps

  // ---------------------------------------------------------------- variables

  /** Slot `i` holds `v` now, and nothing else has changed. */
  ghost predicate Stored(w: World, w': World, i: nat, v: int) {
    && i < |w.vars| == |w'.vars| && w'.vars[i] == v
    && (forall k :: 0 <= k < |w.vars| && k != i ==> w'.vars[k] == w.vars[k])
    && w'.log == w.log && w'.pauses == w.pauses && w'.moves == w.moves
  }

  /** Slot `i` holds a 64-bit number that differs from `v` by a multiple of 2^64. */
  ghost predicate StoredModulo(w: World, w': World, i: nat, v: int) {
    i < |w'.vars| && (w'.vars[i] - v) % TWO_64 == 0 && Stored(w, w', i, w'.vars[i])
  }

  predicate FitsSlot(v: int) {
    -0x8000_0000_0000_0000 <= v < 0x8000_0000_0000_0000
  }

  lemma VarSetStores(i: byte, value: int64, w: World, o: Oracle, wiring: Wiring)
    ensures var (s, w') := Board(o, wiring)(VarSet(i, value), w);
            if i < |w.vars| then s == Ok && Stored(w, w', i, value) else s == Error && w' == w
  {
  }

  /** A sum that fits is stored as it is, any other modulo 2^64. */
  lemma VarAddAdds(dest: byte, src: byte, addend: int, w: World, o: Oracle, wiring: Wiring)
    ensures var (s, w') := Board(o, wiring)(VarAdd(dest, src, addend), w);
            if dest < |w.vars| && src < |w.vars|
            then var sum := w.vars[src] + addend;
                 s == Ok && StoredModulo(w, w', dest, sum) && (FitsSlot(sum) ==> Stored(w, w', dest, sum))
            else s == Error && w' == w
  {
    if dest < |w.vars| && src < |w.vars| {
      SignedModulo(w.vars[src] + addend);
    }
  }

  lemma SignedModulo(u: int)
    ensures (Signed(u) - u) % TWO_64 == 0
  {
    assert u == u / TWO_64 * TWO_64 + u % TWO_64;
  }

  /** `q` is `n / d` with the fraction cut off: the remainder is smaller than the divisor and has
      the sign of `n`. */
  predicate IsQuotient(q: int, n: int, d: int) {
    var r := n - q * d;
    (-d < r < d || d < r < -d) && (r == 0 || (r < 0 <==> n < 0))
  }

  /** A product that fits is divided as in C; the one quotient that would not fit back, the
      smallest number divided by -1, is left out. */
  lemma VarMulScales(dest: byte, src: byte, numerator: int, d: int, w: World, o: Oracle, wiring: Wiring)
    ensures var (s, w') := Board(o, wiring)(VarMul(dest, src, numerator, d), w);
            if dest < |w.vars| && src < |w.vars| && d != 0
            then
              var n := w.vars[src] * numerator;
              && s == Ok && dest < |w'.vars| && Stored(w, w', dest, w'.vars[dest])
              && (FitsSlot(n) && !(d == -1 && !FitsSlot(-n)) ==> IsQuotient(w'.vars[dest], n, d))
            else s == Error && w' == w
  {
    if dest < |w.vars| && src < |w.vars| && d != 0 {
      var n := w.vars[src] * numerator;
      if FitsSlot(n) && !(d == -1 && !FitsSlot(-n)) {
        TruncDivIsQuotient(n, d);
        TruncDivFits(n, d);
      }
    }
  }

  lemma TruncDivIsQuotient(n: int, d: int)
    requires d != 0
    ensures IsQuotient(TruncDiv(n, d), n, d)
  {
    var x, y := if n < 0 then -n else n, if d < 0 then -d else d;
    assert x == x / y * y + x % y;
    assert TruncDiv(n, d) * d == if n < 0 then -(x / y * y) else x / y * y;
  }

  lemma TruncDivFits(n: int, d: int)
    requires d != 0 && FitsSlot(n) && !(d == -1 && !FitsSlot(-n))
    ensures FitsSlot(TruncDiv(n, d))
  {
    var x: nat, y: nat := if n < 0 then -n else n, if d < 0 then -d else d;
    QuotientAtMost(x, y);
    SignedFits(n, d, x / y, TruncDiv(n, d));
  }

  lemma SignedFits(n: int, d: int, q: int, r: int)
    requires d != 0 && FitsSlot(n) && !(d == -1 && !FitsSlot(-n)) && q >= 0
    requires var x := if n < 0 then -n else n; q <= x && (d == 1 || d == -1 || 2 * q <= x)
    requires r == if (n < 0) == (d < 0) then q else -q
    ensures FitsSlot(r)
  {
  }

  lemma QuotientAtMost(x: nat, y: nat)
    requires y > 0
    ensures 0 <= x / y <= x && (y > 1 ==> 2 * (x / y) <= x)
  {
    var q := x / y;
    NoNegativeQuotient(x, y);
    assert x == y * q + x % y;
    assert y * q == q + (y - 1) * q;
    Nonnegative(y - 1, q);
    if y > 1 {
      assert y * q == 2 * q + (y - 2) * q;
      Nonnegative(y - 2, q);
    }
  }

  lemma NoNegativeQuotient(x: nat, y: nat)
    requires y > 0
    ensures x / y >= 0
  {
  }

  lemma Nonnegative(a: nat, b: nat)
    ensures a * b >= 0
  {
  }

  lemma VarBytesAssignReplaces(dest: byte, src: byte, index: byte, count: byte, w: World, o: Oracle, wiring: Wiring)
    ensures var (s, w') := Board(o, wiring)(VarBytesAssign(dest, src, index, count), w);
            if dest < |w.vars| && src < |w.vars| && count > 0 && index + count <= 8
            then
              && s == Ok && dest < |w'.vars| && Stored(w, w', dest, w'.vars[dest])
              && var (was, now, from) := (SlotBytes(w.vars[dest]), SlotBytes(w'.vars[dest]), SlotBytes(w.vars[src]));
              forall k :: 0 <= k < 8 ==> now[k] == if index <= k < index + count then from[k - index] else was[k]
            else s == Error && w' == w
  {
    if dest < |w.vars| && src < |w.vars| && count > 0 && index + count <= 8 {
      SlotHoldsBytes(Splice(SlotBytes(w.vars[dest]), index, SlotBytes(w.vars[src])[..count]));
    }
  }

  // ---------------------------------------------------------------- pins and converters

  /** One driver call more, and at most slot writes besides. */
  ghost predicate Asked(w: World, w': World, call: Call, o: Oracle) {
    && w'.log == w.log + [Event(call, o(|w.log|))]
    && |w'.vars| == |w.vars| && w'.pauses == w.pauses && w'.moves == w.moves
  }

  /** The next answer is success, or not. */
  predicate Succeeds(w: World, o: Oracle) {
    o(|w.log|).status == Ok
  }

  /** Only slot `i` has changed among the slots, and now holds `v`. */
  ghost predicate SlotIs(w: World, w': World, i: nat, v: int) {
    && i < |w.vars| == |w'.vars| && w'.vars[i] == v
    && forall k :: 0 <= k < |w.vars| && k != i ==> w'.vars[k] == w.vars[k]
  }

  /** A pin is driven high iff the value is not 0; a safety pin is never driven. */
  lemma GpioWriteDrives(port: byte, pin: byte, value: byte, w: World, o: Oracle, wiring: Wiring)
    ensures var (s, w') := Board(o, wiring)(GpioWrite(port, pin, value), w);
            if (port, pin) in wiring.safetyPins then s == Error && w' == w
            else
              && Asked(w, w', WritePin(port, pin, value > 0), o) && w'.vars == w.vars
              && s == if Succeeds(w, o) then Ok else Error
  {
  }

  lemma GpioReadStores(port: byte, pin: byte, i: byte, w: World, o: Oracle, wiring: Wiring)
    ensures var (s, w') := Board(o, wiring)(GpioRead(port, pin, i), w);
            if i >= |w.vars| then s == Error && w' == w
            else
              && Asked(w, w', ReadPin(port, pin), o)
              && if !Succeeds(w, o) then s == Error && w'.vars == w.vars
                 else s == Ok && SlotIs(w, w', i, if o(|w.log|).value == 0 then 0 else 1)
  {
  }

  /** The low 12 or 16 bits of a number, as a number. */
  predicate LowPart(v: int, x: int, modulus: int)
    requires modulus == 0x1000 || modulus == 0x1_0000
  {
    0 <= v < modulus && (v - x) % modulus == 0
  }

  lemma Low12(x: int, v: int, k: int)
    requires x == v + 0x1000 * k
    ensures LowPart(x % 0x1000, v, 0x1000)
  {
    var q := x / 0x1000;
    assert x % 0x1000 - v == 0x1000 * (k - q);
  }

  lemma Low16(x: int, v: int, k: int)
    requires x == v + 0x1_0000 * k
    ensures LowPart(x % 0x1_0000, v, 0x1_0000)
  {
    var q := x / 0x1_0000;
    assert x % 0x1_0000 - v == 0x1_0000 * (k - q);
  }

  /** The raw value is a 16-bit number; millivolts are asked for only when wanted, and the raw
      value is kept when the conversion fails. */
  lemma AdcReadStores(inst: byte, channel: byte, i: byte, storeRaw: byte, w: World, o: Oracle, wiring: Wiring)
    ensures var (s, w') := Board(o, wiring)(AdcRead(inst, channel, i, storeRaw), w);
            if i >= |w.vars| || !(inst == 1 || inst == 2) then s == Error && w' == w
            else if !Succeeds(w, o) then
              s == Error && Asked(w, w', ReadAdcRaw(inst, channel), o) && w'.vars == w.vars
            else
              var raw := Event(ReadAdcRaw(inst, channel), o(|w.log|));
              var millivolts := Event(ReadAdcMillivolts(inst, channel), o(|w.log| + 1));
              && s == Ok && i < |w'.vars| && SlotIs(w, w', i, w'.vars[i])
              && w'.pauses == w.pauses && w'.moves == w.moves
              && w'.log == w.log + (if storeRaw > 0 then [raw] else [raw, millivolts])
              && if storeRaw == 0 && millivolts.answer.status == Ok
                 then FitsSlot(millivolts.answer.value) ==> w'.vars[i] == millivolts.answer.value
                 else LowPart(w'.vars[i], raw.answer.value, 0x1_0000)
  {
    Low16(o(|w.log|).value, o(|w.log|).value, 0);
  }

  lemma LowPartOfSlot(v: int64)
    ensures LowPart(Unsigned(v) % 0x1000, v, 0x1000) && LowPart(Unsigned(v) % 0x1_0000, v, 0x1_0000)
  {
    var k := if v < 0 then 1 else 0;
    Low12(Unsigned(v), v, 0x10_0000_0000_0000 * k);
    Low16(Unsigned(v), v, 0x1_0000_0000_0000 * k);
  }

  /** The converter gets 12 bits: a slot's low ones, or the literal, clamped. */
  lemma DacWriteSets(inst: byte, useVar: byte, i: byte, literal: nat, w: World, o: Oracle, wiring: Wiring)
    ensures var (s, w') := Board(o, wiring)(DacWrite(inst, useVar, i, literal), w);
            if inst != 1 || (useVar > 0 && i >= |w.vars|) then s == Error && w' == w
            else
              && |w'.log| > 0 && w'.log[|w'.log| - 1].call.SetDac?
              && var v := w'.log[|w'.log| - 1].call.value;
              && Asked(w, w', SetDac(v), o) && w'.vars == w.vars
              && (if useVar > 0 then LowPart(v, w.vars[i], 0x1000)
                  else v <= literal && v <= 0xFFF && (v == literal || v == 0xFFF))
              && s == if Succeeds(w, o) then Ok else Error
  {
    if useVar > 0 && i < |w.vars| {
      LowPartOfSlot(w.vars[i]);
    }
  }

  /** The duty is a slot's low 16 bits or the literal, and never over 100 percent. */
  lemma PwmSetSets(frequency: nat, useVar: byte, i: byte, duty: nat, w: World, o: Oracle, wiring: Wiring)
    ensures var (s, w') := Board(o, wiring)(PwmSet(frequency, useVar, i, duty), w);
            if frequency == 0 || (useVar > 0 && i >= |w.vars|) then s == Error && w' == w
            else
              && |w'.log| > 0 && w'.log[|w'.log| - 1].call.SetPwm?
              && var d := w'.log[|w'.log| - 1].call.duty;
              && Asked(w, w', SetPwm(frequency, d), o) && w'.vars == w.vars && d <= 100
              && (if useVar > 0
                  then LowPart(d, w.vars[i], 0x1_0000)
                       || (d == 100 && exists x :: 100 < x && LowPart(x, w.vars[i], 0x1_0000))
                  else d <= duty && (d == duty || d == 100))
              && s == if Succeeds(w, o) then Ok else Error
  {
    if useVar > 0 && i < |w.vars| {
      LowPartOfSlot(w.vars[i]);
    }
  }

  // ---------------------------------------------------------------- buses

  /** How many bytes a transmission sends: a CAN frame is cut to 8. */
  function TxLength(link: Link, length: byte): byte {
    if link.Can? && length > 8 then 8 else length
  }

  lemma TransmitSends(link: Link, length: byte, useVar: byte, i: byte, data: CommData, w: World, o: Oracle, wiring: Wiring)
    ensures var (s, w') := Board(o, wiring)(Transmit(link, length, useVar, i, data), w);
            var n := TxLength(link, length);
            if !(1 <= n <= 8) || (useVar > 0 && i >= |w.vars|) || (link.Can? && !wiring.can) then s == Error && w' == w
            else
              var bytes := if useVar > 0 then SlotBytes(w.vars[i])[..n] else data[..n];
              && Asked(w, w', Send(link, bytes), o) && w'.vars == w.vars
              && s == if Succeeds(w, o) then Ok else if link.Can? then o(|w.log|).status else Error
  {
    var n := TxLength(link, length);
    if 1 <= n <= 8 && useVar > 0 && i < |w.vars| {
      FewerBytes(Unsigned(w.vars[i]), n, 8);
    }
  }

  /** What was received, byte by byte, and zeros behind it. */
  lemma ReceiveStores(link: Link, length: byte, i: byte, w: World, o: Oracle, wiring: Wiring)
    ensures var (s, w') := Board(o, wiring)(Receive(link, length, i), w);
            if !(1 <= length <= 8) || i >= |w.vars| || (link.Can? && !wiring.can) then s == Error && w' == w
            else
              && Asked(w, w', Fetch(link, length), o)
              && if !Succeeds(w, o) then s == Error && w'.vars == w.vars
                 else
                   var data := o(|w.log|).data;
                   && s == Ok && SlotIs(w, w', i, w'.vars[i])
                   && forall k :: 0 <= k < 8 ==>
                        SlotBytes(w'.vars[i])[k] == if k < length && k < |data| then data[k] else 0
  {
    if 1 <= length <= 8 && i < |w.vars| {
      SlotHoldsBytes(Received(link, o(|w.log|).data, length));
    }
  }

  // ---------------------------------------------------------------- the rest

  lemma MoveAsksController(op: Op, w: World, o: Oracle, wiring: Wiring)
    requires op.MoveToError? || op.MoveToEmergency?
    ensures var (s, w') := Board(o, wiring)(op, w);
            if !wiring.controller then s == Error && w' == w
            else s == Ok && w' == w.(moves := w.moves + [if op.MoveToError? then ToError else ToEmergency])
  {
    assert w.log + [] == w.log;
  }

  /** The safety line follows the value, and the driver's answer does not matter. */
  lemma TriggerSafetyDrives(value: byte, w: World, o: Oracle, wiring: Wiring)
    ensures var (s, w') := Board(o, wiring)(TriggerSafety(value), w);
            if !wiring.safety then s == Error && w' == w
            else s == Ok && Asked(w, w', DriveSafety(value > 0), o) && w'.vars == w.vars
  {
  }

  lemma OtherStepsDoNothing(op: Op, w: World, o: Oracle, wiring: Wiring)
    requires op.Nop? || op.UnknownOp? || op.DelayMs? || op.IfCondition?
    ensures Board(o, wiring)(op, w) == (if op.Nop? then Ok else Error, w)
  {
    assert w.log + [] == w.log && w.moves + [] == w.moves;
  }
}
