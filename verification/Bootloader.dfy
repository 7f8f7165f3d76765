/** The device side of flashing: the bootloader while programming is in progress. */
module Bootloader {
  import opened Bytes
  import opened FlashErase

  datatype Word = Word(address: uint32, data: uint32)

  datatype Command = Data(word: Word) | Done

  datatype Reply = Echo(address: uint32) | Finished | Silent

  /** A double word put into flash: the low word at `address`, the high word 4 bytes on. */
  datatype Double = Double(address: nat, low: uint32, high: uint32)

  datatype Pending = NoWord | FirstWord(word: Word)

  /** `calls` counts the flash driver's programming calls. */
  datatype Device = Device(open: bool, last: nat, pending: Pending, written: seq<Double>, calls: nat)

  /** Does the n-th programming call succeed? */
  type Driver = nat -> bool

  const OPENED := Device(true, 1, NoWord, [], 0)

  predicate ValidAddress(a: nat) {
    APPLICATION_ADDRESS <= a < CONFIG_ADDRESS + CONFIG_BYTES
  }

  function OnWord(d: Device, w: Word, driver: Driver): Device {
    if d.pending.FirstWord? && w.address == d.pending.word.address + 4 then
      if driver(d.calls) then
        d.(last := w.address, pending := NoWord, calls := d.calls + 1,
           written := d.written + [Double(d.pending.word.address, d.pending.word.data, w.data)])
      else d.(last := w.address, pending := FirstWord(w), calls := d.calls + 1)
    else d.(last := w.address, pending := FirstWord(w))
  }

  /** A word at or below the last address is dropped without an answer; every other valid
      word is answered, also when the driver failed to program it. */
  function OnCommand(d: Device, c: Command, driver: Driver): (Device, Reply) {
    if !d.open then (d, Silent)
    else if c.Done? then (OnDone(d, driver), Finished)
    else if !ValidAddress(c.word.address) || c.word.address <= d.last then (d, Silent)
    else (OnWord(d, c.word, driver), Echo(c.word.address))
  }

  /** A lone pending word is programmed with a zero beside it. */
  function OnDone(d: Device, driver: Driver): Device {
    if d.pending.NoWord? then d.(open := false)
    else if driver(d.calls) then
      d.(open := false, pending := NoWord, calls := d.calls + 1,
         written := d.written + [Double(d.pending.word.address, d.pending.word.data, 0)])
    else d.(open := false, calls := d.calls + 1)
  }

  /** A word is answered exactly when its address lies between the metadata and the end of flash and
      beyond the last one taken; any other is dropped without a trace. */
  lemma WordIsAnsweredIff(d: Device, w: Word, driver: Driver)
    ensures var (d', r) := OnCommand(d, Data(w), driver);
            if d.open && 0x0801_4800 <= w.address < 0x0808_0000 && w.address > d.last
            then r == Echo(w.address) && d'.last == w.address && d'.open
            else r == Silent && d' == d
  {
  }

  /** Whether a command makes the device program: a word right behind the pending one, or the end
      with a word pending. */
  predicate Programs(d: Device, c: Command) {
    d.open && d.pending.FirstWord? &&
      (c.Done? || (ValidAddress(c.word.address) && c.word.address > d.last
                   && c.word.address == d.pending.word.address + 4))
  }

  /** Then there is one call of the flash driver, and one double word more if it succeeds. */
  lemma CommandsProgramOnce(d: Device, c: Command, driver: Driver)
    ensures var d' := OnCommand(d, c, driver).0;
            && d'.calls == d.calls + (if Programs(d, c) then 1 else 0)
            && if Programs(d, c) && driver(d.calls)
               then d'.written == d.written + [Double(d.pending.word.address, d.pending.word.data,
                                                      if c.Done? then 0 else c.word.data)]
               else d'.written == d.written
  {
  }

  /** The device after these words, each delivered once and in this order. */
  function DeviceAfter(ws: seq<Word>, driver: Driver): Device {
    if ws == [] then OPENED
    else OnCommand(DeviceAfter(ws[..|ws| - 1], driver), Data(ws[|ws| - 1]), driver).0
  }

  /** Consecutive words from `start` on, all in the flash area the device accepts. */
  ghost predicate Consecutive(ws: seq<Word>, start: nat) {
    && (forall i :: 0 <= i < |ws| ==> ws[i].address == start + 4 * i)
    && (ws != [] ==> ValidAddress(start) && ValidAddress(start + 4 * (|ws| - 1)))
  }

  lemma {:induction false} AfterWords(ws: seq<Word>, start: nat, driver: Driver)
    requires Consecutive(ws, start)
    ensures var d := DeviceAfter(ws, driver);
            d.open && d.last == if ws == [] then 1 else ws[|ws| - 1].address
  {
    if ws != [] {
      AfterWords(ws[..|ws| - 1], start, driver);
    }
  }

  /** The words taken two by two; an odd last word is left out. */
  function Doubles(ws: seq<Word>): seq<Double> {
    if |ws| < 2 then [] else [Double(ws[0].address, ws[0].data, ws[1].data)] + Doubles(ws[2..])
  }

  lemma {:induction false} DoublesGrow(ws: seq<Word>, w: Word)
    ensures Doubles(ws + [w]) == Doubles(ws)
              + if |ws| % 2 == 0 then [] else [Double(ws[|ws| - 1].address, ws[|ws| - 1].data, w.data)]
    decreases |ws|
  {
    if |ws| >= 2 {
      assert (ws + [w])[2..] == ws[2..] + [w];
      DoublesGrow(ws[2..], w);
    }
  }

  lemma {:induction false} DoublesFollow(ws: seq<Word>, start: nat)
    requires Consecutive(ws, start)
    ensures |Doubles(ws)| == |ws| / 2
    ensures forall i :: 0 <= i < |Doubles(ws)| ==> Doubles(ws)[i].address == start + 8 * i
    decreases |ws|
  {
    if |ws| >= 2 {
      var rest := ws[2..];
      assert Consecutive(rest, start + 8);
      DoublesFollow(rest, start + 8);
      assert |ws| / 2 == |rest| / 2 + 1;
    }
  }

  // ---------------------------------------------------------------- failing writes

  /** All programming calls made so far have succeeded. */
  ghost predicate Worked(driver: Driver, calls: nat) {
    forall n :: 0 <= n < calls ==> driver(n)
  }

  /** Exactly the pairs are in flash, and an odd last word is pending. */
  ghost predicate Intact(d: Device, ws: seq<Word>) {
    && d.written == Doubles(ws) && d.calls == |ws| / 2
    && d.pending == if |ws| % 2 == 0 then NoWord else FirstWord(ws[|ws| - 1])
  }

  /** Call `j` has failed, and the place of the j-th double word stays empty: everything that
      is still to be written lies beyond it. */
  ghost predicate Damaged(d: Device, start: nat, j: nat, driver: Driver) {
    && j < d.calls && !driver(j)
    && d.last > start + 8 * j
    && (d.pending.FirstWord? ==> d.pending.word.address > start + 8 * j)
    && (|d.written| > j ==> d.written[j].address > start + 8 * j)
  }

  lemma WordKeepsIntact(d: Device, ws: seq<Word>, w: Word, start: nat, driver: Driver)
    requires Consecutive(ws + [w], start) && Intact(d, ws) && Worked(driver, d.calls) && |d.written| == |ws| / 2
    ensures var d' := OnWord(d, w, driver);
            if |ws| % 2 == 1 && !driver(d.calls) then Damaged(d', start, |ws| / 2, driver)
            else Intact(d', ws + [w]) && Worked(driver, d'.calls)
  {
    DoublesGrow(ws, w);
    assert (ws + [w])[|ws|] == w;
    if |ws| % 2 == 1 {
      assert (ws + [w])[|ws| - 1] == ws[|ws| - 1];
    }
  }

  lemma WordKeepsDamage(d: Device, w: Word, start: nat, j: nat, driver: Driver)
    requires Damaged(d, start, j, driver) && w.address > d.last
    ensures Damaged(OnWord(d, w, driver), start, j, driver)
  {
  }

  /** After consecutive words the device is intact, or damaged at the first call that failed. */
  lemma {:induction false} FirstFailure(ws: seq<Word>, start: nat, driver: Driver) returns (j: nat)
    requires Consecutive(ws, start)
    ensures var d := DeviceAfter(ws, driver);
            if Worked(driver, d.calls) then Intact(d, ws)
            else Damaged(d, start, j, driver) && 2 * j + 2 <= |ws|
    decreases |ws|
  {
    j := 0;
    if ws != [] {
      var init, w := ws[..|ws| - 1], ws[|ws| - 1];
      var b := DeviceAfter(init, driver);
      assert init + [w] == ws;
      j := FirstFailure(init, start, driver);
      AfterWords(init, start, driver);
      assert DeviceAfter(ws, driver) == OnWord(b, w, driver);
      if Worked(driver, b.calls) {
        DoublesFollow(init, start);
        WordKeepsIntact(b, init, w, start, driver);
        j := |init| / 2;
      } else {
        WordKeepsDamage(b, w, start, j, driver);
      }
    }
  }

  /** The pairs of words are in flash exactly when every programming call that was made has
      succeeded; an odd last word is then pending. */
  lemma WordsAreWritten(ws: seq<Word>, start: nat, driver: Driver)
    requires Consecutive(ws, start)
    ensures var d := DeviceAfter(ws, driver);
            && (d.written == Doubles(ws) <==> Worked(driver, d.calls))
            && (Worked(driver, d.calls) ==>
                  d.pending == if |ws| % 2 == 0 then NoWord else FirstWord(ws[|ws| - 1]))
  {
    var j := FirstFailure(ws, start, driver);
    DoublesFollow(ws, start);
  }

  /** Every one of the words is answered, whatever the flash driver does. */
  lemma EveryWordIsAnswered(ws: seq<Word>, start: nat, k: nat, driver: Driver)
    requires Consecutive(ws, start) && k < |ws|
    ensures OnCommand(DeviceAfter(ws[..k], driver), Data(ws[k]), driver).1 == Echo(ws[k].address)
  {
    AfterWords(ws[..k], start, driver);
  }

  /** The answer to a word does not say that it was programmed: here the driver fails, both
      words are answered, and nothing is in flash. */
  lemma EchoIsNotProgrammed()
    ensures var a, b := Word(CONFIG_ADDRESS, 1), Word(CONFIG_ADDRESS + 4, 2);
            var driver := (n: nat) => false;
            && OnCommand(OPENED, Data(a), driver).1 == Echo(a.address)
            && OnCommand(DeviceAfter([a], driver), Data(b), driver).1 == Echo(b.address)
            && DeviceAfter([a, b], driver).written == []
  {
    var a, b := Word(CONFIG_ADDRESS, 1), Word(CONFIG_ADDRESS + 4, 2);
    assert [a][..0] == [] && [a, b][..1] == [a];
  }
}
