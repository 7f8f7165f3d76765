/** The host's stop-and-wait transfer over a channel that loses, repeats, delays and reorders
    what is sent in both directions. */
module FlashSession {
  import opened Bytes
  import opened Concatenation
  import opened FlashErase
  import opened Bootloader

  const WORD_TRIES := 100
  const DONE_TRIES := 10

  /** One choice of the channel for every exchange: which of the commands sent so far reach
      the device, in which order and how often, and which of the answers given so far the
      host reads. An index that is out of range reads nothing. */
  datatype Channel = Channel(deliveries: nat -> seq<nat>, reception: nat -> nat, driver: Driver)

  datatype Link = Link(sent: seq<Command>, replies: seq<Reply>, dev: Device, turn: nat)

  function DeliverOne(l: Link, k: nat, driver: Driver): Link {
    if k >= |l.sent| then l
    else
      var (d, r) := OnCommand(l.dev, l.sent[k], driver);
      l.(dev := d, replies := if r == Silent then l.replies else l.replies + [r])
  }

  function Deliver(l: Link, ks: seq<nat>, driver: Driver): Link
    decreases |ks|
  {
    if ks == [] then l else Deliver(DeliverOne(l, ks[0], driver), ks[1..], driver)
  }

  function Send(l: Link, c: Command, ch: Channel): Link {
    Deliver(l.(sent := l.sent + [c]), ch.deliveries(l.turn), ch.driver)
  }

  function Received(l: Link, ch: Channel): Reply {
    var j := ch.reception(l.turn);
    if j < |l.replies| then l.replies[j] else Silent
  }

  function NextTurn(l: Link): Link {
    l.(turn := l.turn + 1)
  }

  function TryWord(l: Link, w: Word, tries: nat, ch: Channel): (bool, Link)
    decreases tries, l.turn
  {
    if tries == 0 then (false, l)
    else
      var l' := Send(l, Data(w), ch);
      if Received(l', ch) == Echo(w.address) then (true, NextTurn(l'))
      else TryWord(NextTurn(l'), w, tries - 1, ch)
  }

  function SendWords(l: Link, ws: seq<Word>, ch: Channel): (bool, Link)
    decreases |ws|
  {
    if ws == [] then (true, l)
    else
      var (ok, l') := TryWord(l, ws[0], WORD_TRIES, ch);
      if ok then SendWords(l', ws[1..], ch) else (false, l')
  }

  /** The end commands, and whether one of them was answered. */
  function Finish(l: Link, tries: nat, ch: Channel): (bool, Link)
    decreases tries, l.turn
  {
    if tries == 0 then (false, l)
    else
      var l' := Send(l, Done, ch);
      if Received(l', ch) == Finished then (true, NextTurn(l')) else Finish(NextTurn(l'), tries - 1, ch)
  }

  function WordOf(b: seq<byte>): uint32
    requires |b| <= 4
  {
    Pow256Of8();
    PowMonotone(|b|, 4);
    FromLE(b)
  }

  /** The commands for a file: little-endian words, the last one zero-padded. */
  function WordsOf(file: seq<byte>, at: uint32): (ws: seq<Word>)
    ensures |ws| == (|file| + 3) / 4
    decreases |file|
  {
    if file == [] then []
    else if |file| < 4 then [Word(at, WordOf(file))]
    else [Word(at, WordOf(file[..4]))] + WordsOf(file[4..], (at + 4) % TWO_32)
  }

  /** A whole transfer: whether it is reported as a success, whether the end command was
      answered - which the host does not look at - and the link afterwards. */
  datatype Flashing = Flashing(reported: bool, confirmed: bool, link: Link)

  function Flash(l: Link, file: seq<byte>, start: uint32, ch: Channel): Flashing {
    var (ok, l') := SendWords(l, WordsOf(file, start), ch);
    if !ok then Flashing(false, false, l')
    else
      var (confirmed, l2) := Finish(l', DONE_TRIES, ch);
      Flashing(true, confirmed, l2)
  }

  // ---------------------------------------------------------------- what is in transit

  function Echoes(ws: seq<Word>): (r: seq<Reply>)
    ensures |r| == |ws| && forall i :: 0 <= i < |r| ==> r[i] == Echo(ws[i].address)
  {
    seq(|ws|, i requires 0 <= i < |ws| => Echo(ws[i].address))
  }

  /** Of the words `ws`, the first `hi` have been sent and the first `m` taken by the device,
      which answered each of them once. Answers from before the session are `stale`. */
  ghost predicate InTransit(l: Link, stale: seq<Reply>, ws: seq<Word>, hi: nat, m: nat, driver: Driver) {
    && m <= hi <= |ws| && hi <= m + 1
    && (forall c :: c in l.sent ==> c.Data? && c.word in ws[..hi])
    && l.dev == DeviceAfter(ws[..m], driver)
    && l.replies == stale + Echoes(ws[..m])
  }

  /** No answer left over from before names one of the session's addresses. */
  ghost predicate NoneStale(stale: seq<Reply>, ws: seq<Word>) {
    forall r, w :: r in stale && w in ws ==> r != Echo(w.address)
  }

  lemma IndexOf<T>(s: seq<T>, x: T) returns (i: nat)
    requires x in s
    ensures i < |s| && s[i] == x
  {
    i :| 0 <= i < |s| && s[i] == x;
  }

  /** The device drops the words it already has and takes the next one. */
  lemma WordsTaken(ws: seq<Word>, start: nat, i: nat, m: nat, driver: Driver)
    requires Consecutive(ws, start) && i <= m <= |ws| && i < |ws|
    ensures OnCommand(DeviceAfter(ws[..m], driver), Data(ws[i]), driver)
         == if i < m then (DeviceAfter(ws[..m], driver), Silent)
            else (DeviceAfter(ws[..m + 1], driver), Echo(ws[m].address))
  {
    AfterWords(ws[..m], start, driver);
    if i == m {
      assert ws[..m + 1][..m] == ws[..m];
    }
  }

  lemma EchoesGrow(stale: seq<Reply>, ws: seq<Word>, m: nat)
    requires m < |ws|
    ensures stale + Echoes(ws[..m + 1]) == (stale + Echoes(ws[..m])) + [Echo(ws[m].address)]
  {
    assert Echoes(ws[..m + 1]) == Echoes(ws[..m]) + [Echo(ws[m].address)];
    Regroup(stale, Echoes(ws[..m]), [Echo(ws[m].address)]);
  }

  lemma DeliverOneKeeps(
    l: Link, k: nat, stale: seq<Reply>, ws: seq<Word>, start: nat, hi: nat, m: nat, driver: Driver)
    returns (m': nat)
    requires Consecutive(ws, start) && InTransit(l, stale, ws, hi, m, driver)
    ensures m' >= m && InTransit(DeliverOne(l, k, driver), stale, ws, hi, m', driver)
  {
    m' := m;
    if k < |l.sent| {
      assert l.sent[k] in l.sent;
      var i := IndexOf(ws[..hi], l.sent[k].word);
      WordsTaken(ws, start, i, m, driver);
      if i >= m {
        m' := m + 1;
        EchoesGrow(stale, ws, m);
      }
    }
  }

  lemma {:induction false} DeliverKeeps(
    l: Link, ks: seq<nat>, stale: seq<Reply>, ws: seq<Word>, start: nat, hi: nat, m: nat, driver: Driver)
    returns (m': nat)
    requires Consecutive(ws, start) && InTransit(l, stale, ws, hi, m, driver)
    ensures m' >= m && InTransit(Deliver(l, ks, driver), stale, ws, hi, m', driver)
    ensures Deliver(l, ks, driver).turn == l.turn
    decreases |ks|
  {
    m' := m;
    if ks != [] {
      m' := DeliverOneKeeps(l, ks[0], stale, ws, start, hi, m, driver);
      m' := DeliverKeeps(DeliverOne(l, ks[0], driver), ks[1..], stale, ws, start, hi, m', driver);
    }
  }

  lemma MorePrefix<T>(s: seq<T>, m: nat, n: nat)
    requires m <= n <= |s|
    ensures forall x :: x in s[..m] ==> x in s[..n]
  {
    assert s[..m] == s[..n][..m];
  }

  lemma SendKeeps(
    l: Link, stale: seq<Reply>, ws: seq<Word>, start: nat, k: nat, hi: nat, m: nat, ch: Channel)
    returns (m': nat)
    requires Consecutive(ws, start) && InTransit(l, stale, ws, hi, m, ch.driver)
    requires k < |ws| && m >= k && hi <= k + 1
    ensures m' >= m && InTransit(Send(l, Data(ws[k]), ch), stale, ws, k + 1, m', ch.driver)
    ensures Send(l, Data(ws[k]), ch).turn == l.turn
  {
    var l1 := l.(sent := l.sent + [Data(ws[k])]);
    assert ws[..k + 1][k] == ws[k];
    MorePrefix(ws, hi, k + 1);
    m' := DeliverKeeps(l1, ch.deliveries(l.turn), stale, ws, start, k + 1, m, ch.driver);
  }

  /** Only the one answer to the k-th word itself can acknowledge it. */
  lemma AcknowledgedByItsEcho(
    l: Link, stale: seq<Reply>, ws: seq<Word>, start: nat, k: nat, m: nat, ch: Channel)
    requires Consecutive(ws, start)
    requires k < |ws| && Echo(ws[k].address) !in stale && InTransit(l, stale, ws, k + 1, m, ch.driver)
    ensures Received(l, ch) == Echo(ws[k].address) <==> m == k + 1 && ch.reception(l.turn) == |stale| + k
  {
    var j := ch.reception(l.turn);
    if j < |stale| {
      assert l.replies[j] == stale[j] && stale[j] in stale;
    } else if j < |l.replies| {
      var i := j - |stale|;
      assert l.replies[j] == Echoes(ws[..m])[i] == Echo(ws[i].address);
    }
  }

  /** A word's tries: the device takes it at most once, and they succeed only if, in one of
      them, the host reads the one answer to that very word. A lost answer is therefore never
      made good by sending the word again. */
  lemma {:induction false} WordNeedsItsOnlyEcho(
    l: Link, stale: seq<Reply>, ws: seq<Word>, start: nat, k: nat, hi: nat, m: nat, tries: nat, ch: Channel)
    returns (m': nat)
    requires Consecutive(ws, start) && InTransit(l, stale, ws, hi, m, ch.driver)
    requires k < |ws| && m >= k && hi <= k + 1 && Echo(ws[k].address) !in stale
    ensures var r := TryWord(l, ws[k], tries, ch);
            && InTransit(r.1, stale, ws, k + 1, m', ch.driver) && m' >= k
            && (r.0 ==> m' == k + 1)
            && (r.0 ==> exists t :: l.turn <= t < l.turn + tries && ch.reception(t) == |stale| + k)
    decreases tries
  {
    if tries == 0 {
      m' := m;
      LookAhead(l, stale, ws, k, hi, m, ch.driver);
    } else {
      var l' := Send(l, Data(ws[k]), ch);
      m' := TryOnce(l, stale, ws, start, k, hi, m, ch);
      if Received(l', ch) == Echo(ws[k].address) {
        assert ch.reception(l.turn) == |stale| + k;
      } else {
        m' := WordNeedsItsOnlyEcho(NextTurn(l'), stale, ws, start, k, k + 1, m', tries - 1, ch);
      }
    }
  }

  lemma LookAhead(l: Link, stale: seq<Reply>, ws: seq<Word>, k: nat, hi: nat, m: nat, driver: Driver)
    requires InTransit(l, stale, ws, hi, m, driver) && k < |ws| && m >= k && hi <= k + 1
    ensures InTransit(l, stale, ws, k + 1, m, driver)
  {
    MorePrefix(ws, hi, k + 1);
  }

  /** One try of the k-th word: it is acknowledged iff the device has it and its one answer is read. */
  lemma TryOnce(l: Link, stale: seq<Reply>, ws: seq<Word>, start: nat, k: nat, hi: nat, m: nat, ch: Channel)
    returns (m': nat)
    requires Consecutive(ws, start) && InTransit(l, stale, ws, hi, m, ch.driver)
    requires k < |ws| && m >= k && hi <= k + 1 && Echo(ws[k].address) !in stale
    ensures var l' := Send(l, Data(ws[k]), ch);
            && l'.turn == l.turn && m' >= m && InTransit(NextTurn(l'), stale, ws, k + 1, m', ch.driver)
            && (Received(l', ch) == Echo(ws[k].address) <==> m' == k + 1 && ch.reception(l.turn) == |stale| + k)
  {
    var l' := Send(l, Data(ws[k]), ch);
    m' := SendKeeps(l, stale, ws, start, k, hi, m, ch);
    AcknowledgedByItsEcho(l', stale, ws, start, k, m', ch);
    NextTurnKeeps(l', stale, ws, k + 1, m', ch.driver);
  }

  lemma NextTurnKeeps(l: Link, stale: seq<Reply>, ws: seq<Word>, hi: nat, m: nat, driver: Driver)
    requires InTransit(l, stale, ws, hi, m, driver)
    ensures InTransit(NextTurn(l), stale, ws, hi, m, driver)
  {
  }

  lemma {:induction false} SendWordsKeeps(
    l: Link, stale: seq<Reply>, ws: seq<Word>, start: nat, k: nat, ch: Channel)
    returns (hi: nat, m: nat)
    requires Consecutive(ws, start) && NoneStale(stale, ws)
    requires k <= |ws| && InTransit(l, stale, ws, k, k, ch.driver)
    ensures var r := SendWords(l, ws[k..], ch);
            InTransit(r.1, stale, ws, hi, m, ch.driver) && (r.0 ==> m == |ws|)
    decreases |ws| - k
  {
    hi, m := k, k;
    if k < |ws| {
      hi := k + 1;
      assert ws[k] in ws;
      m := WordNeedsItsOnlyEcho(l, stale, ws, start, k, k, k, WORD_TRIES, ch);
      assert ws[k..][1..] == ws[k + 1..];
      var r := TryWord(l, ws[k], WORD_TRIES, ch);
      if r.0 {
        hi, m := SendWordsKeeps(r.1, stale, ws, start, k + 1, ch);
      }
    }
  }

  /** Whatever the channel does, the device has seen a prefix of the words, each once and in
      order, and has answered each once; after a transfer that succeeded, all of them. */
  lemma WordsArriveInOrder(l: Link, ws: seq<Word>, start: nat, ch: Channel)
    requires Consecutive(ws, start) && NoneStale(l.replies, ws) && l.sent == [] && l.dev == OPENED
    ensures var r := SendWords(l, ws, ch);
            exists m: nat :: m <= |ws| && (r.0 ==> m == |ws|)
              && r.1.dev == DeviceAfter(ws[..m], ch.driver)
              && r.1.replies == l.replies + Echoes(ws[..m])
  {
    assert l.replies + Echoes(ws[..0]) == l.replies && ws[0..] == ws;
    var hi, m := SendWordsKeeps(l, l.replies, ws, start, 0, ch);
  }

  // ---------------------------------------------------------------- ending the session

  /** After the words, the device is as they left it, or has handled one end command; only
      then can an answer to an end command be on its way. */
  ghost predicate Ended(l: Link, ws: seq<Word>, driver: Driver) {
    && (forall c :: c in l.sent ==> c.Done? || c.word in ws)
    && l.dev == if l.dev.open then DeviceAfter(ws, driver) else OnDone(DeviceAfter(ws, driver), driver)
  }

  ghost predicate AnswersAreFresh(l: Link) {
    Finished in l.replies ==> !l.dev.open
  }

  lemma {:induction false} DeliverEnds(l: Link, ks: seq<nat>, ws: seq<Word>, start: nat, driver: Driver)
    requires Consecutive(ws, start) && Ended(l, ws, driver)
    ensures Ended(Deliver(l, ks, driver), ws, driver)
    ensures AnswersAreFresh(l) ==> AnswersAreFresh(Deliver(l, ks, driver))
    decreases |ks|
  {
    if ks != [] {
      DeliverOneEnds(l, ks[0], ws, start, driver);
      DeliverEnds(DeliverOne(l, ks[0], driver), ks[1..], ws, start, driver);
    }
  }

  lemma DeliverOneEnds(l: Link, k: nat, ws: seq<Word>, start: nat, driver: Driver)
    requires Consecutive(ws, start) && Ended(l, ws, driver)
    ensures Ended(DeliverOne(l, k, driver), ws, driver)
    ensures AnswersAreFresh(l) ==> AnswersAreFresh(DeliverOne(l, k, driver))
  {
    AfterWords(ws, start, driver);
    if k < |l.sent| && l.sent[k].Data? {
      var i := IndexOf(ws, l.sent[k].word);
    }
  }

  /** When the host reads the answer to an end command, the device has handled it. */
  lemma {:induction false} FinishEnds(l: Link, ws: seq<Word>, start: nat, tries: nat, ch: Channel)
    requires Consecutive(ws, start) && Ended(l, ws, ch.driver)
    ensures Ended(Finish(l, tries, ch).1, ws, ch.driver)
    ensures AnswersAreFresh(l) && Finish(l, tries, ch).0 ==> !Finish(l, tries, ch).1.dev.open
    decreases tries, l.turn
  {
    if tries > 0 {
      DeliverEnds(l.(sent := l.sent + [Done]), ch.deliveries(l.turn), ws, start, ch.driver);
      FinishEnds(NextTurn(Send(l, Done, ch)), ws, start, tries - 1, ch);
    }
  }

  // ---------------------------------------------------------------- what is in flash

  function BytesOf(ws: seq<Word>): seq<byte>
  {
    if ws == [] then [] else ToLE(ws[0].data, 4) + BytesOf(ws[1..])
  }

  /** The words carry the file, zero-padded to a multiple of four bytes. */
  lemma {:induction false} WordsCarryFile(file: seq<byte>, at: uint32)
    ensures BytesOf(WordsOf(file, at)) == file + Zeros(4 * |WordsOf(file, at)| - |file|)
  {
    if file != [] {
      var ws := WordsOf(file, at);
      if |file| < 4 {
        BytesOfNumber(file, 4);
        assert ws[1..] == [];
      } else {
        var later := WordsOf(file[4..], (at + 4) % TWO_32);
        BytesOfNumber(file[..4], 4);
        WordsCarryFile(file[4..], (at + 4) % TWO_32);
        assert ws[1..] == later;
        assert file == file[..4] + file[4..];
      }
    }
  }

  /** The bytes of double words that lie one after the other. */
  function Image(ds: seq<Double>): seq<byte> {
    if ds == [] then [] else ToLE(ds[0].low, 4) + ToLE(ds[0].high, 4) + Image(ds[1..])
  }

  /** The words as the bootloader leaves them at the end: an odd last word beside a zero. */
  function FinalDoubles(ws: seq<Word>): seq<Double>
  {
    Doubles(ws) + Leftover(ws)
  }

  function Leftover(ws: seq<Word>): seq<Double> {
    if |ws| % 2 == 0 then [] else [Double(ws[|ws| - 1].address, ws[|ws| - 1].data, 0)]
  }

  lemma FinalDoublesCons(ws: seq<Word>)
    requires |ws| >= 2
    ensures FinalDoubles(ws) == [Double(ws[0].address, ws[0].data, ws[1].data)] + FinalDoubles(ws[2..])
  {
    LeftoverOfRest(ws);
    Regroup([Double(ws[0].address, ws[0].data, ws[1].data)], Doubles(ws[2..]), Leftover(ws[2..]));
  }

  lemma LeftoverOfRest(ws: seq<Word>)
    requires |ws| >= 2
    ensures Leftover(ws[2..]) == Leftover(ws)
  {
    assert |ws[2..]| % 2 == |ws| % 2;
  }

  lemma ImageCons(d: Double, ds: seq<Double>)
    ensures Image([d] + ds) == (ToLE(d.low, 4) + ToLE(d.high, 4)) + Image(ds)
  {
    assert ([d] + ds)[1..] == ds;
  }

  lemma BytesOfTwo(ws: seq<Word>)
    requires |ws| >= 2
    ensures BytesOf(ws) == (ToLE(ws[0].data, 4) + ToLE(ws[1].data, 4)) + BytesOf(ws[2..])
  {
    assert ws[1..][1..] == ws[2..];
  }

  lemma {:induction false} ImageOfWords(ws: seq<Word>)
    ensures Image(FinalDoubles(ws)) == BytesOf(ws) + Zeros(4 * (|ws| % 2))
    decreases |ws|
  {
    if |ws| == 0 {
      assert Zeros(0) == [];
    } else if |ws| == 1 {
      ImageOfLast(ws[0]);
      assert ws == [ws[0]];
    } else {
      FinalDoublesCons(ws);
      ImageCons(Double(ws[0].address, ws[0].data, ws[1].data), FinalDoubles(ws[2..]));
      BytesOfTwo(ws);
      ImageOfWords(ws[2..]);
      Regroup(ToLE(ws[0].data, 4) + ToLE(ws[1].data, 4), BytesOf(ws[2..]), Zeros(4 * (|ws| % 2)));
    }
  }

  lemma ImageOfLast(w: Word)
    ensures Image(FinalDoubles([w])) == BytesOf([w]) + Zeros(4)
  {
    BytesOfZero(4);
    ImageCons(Double(w.address, w.data, 0), []);
    assert [w][1..] == [];
  }

  /** The double words lie one after the other from `start` on. */
  ghost predicate Gapless(ds: seq<Double>, start: nat) {
    forall i :: 0 <= i < |ds| ==> ds[i].address == start + 8 * i
  }

  lemma FinalDoublesFollow(ws: seq<Word>, start: nat)
    requires Consecutive(ws, start)
    ensures |FinalDoubles(ws)| == (|ws| + 1) / 2 && Gapless(FinalDoubles(ws), start)
  {
    DoublesFollow(ws, start);
  }

  // ---------------------------------------------------------------- the two targets

  datatype Target = Application | Config | CustomizedConfig

  function StartOf(t: Target): uint32 {
    if t == Application then APPLICATION_ADDRESS else CONFIG_ADDRESS
  }

  function CapacityOf(t: Target): nat {
    if t == Application then APPLICATION_BYTES else CONFIG_BYTES
  }

  lemma {:induction false} WordAddresses(file: seq<byte>, at: uint32)
    requires at + |file| < TWO_32 - 4
    ensures forall i :: 0 <= i < |WordsOf(file, at)| ==> WordsOf(file, at)[i].address == at + 4 * i
  {
    if |file| >= 4 {
      WordAddresses(file[4..], at + 4);
    }
  }

  /** Every word of a file that passed the size check lies inside its target's region. */
  lemma WordsStayInRegion(file: seq<byte>, t: Target)
    requires |file| <= CapacityOf(t)
    ensures Consecutive(WordsOf(file, StartOf(t)), StartOf(t))
    ensures forall w :: w in WordsOf(file, StartOf(t)) ==>
              StartOf(t) <= w.address && w.address + 4 <= StartOf(t) + CapacityOf(t)
  {
    WordsFit(file, StartOf(t), CapacityOf(t));
  }

  lemma WordsFit(file: seq<byte>, start: uint32, capacity: nat)
    requires |file| <= capacity && capacity % 4 == 0 && start + capacity < TWO_32 - 4
    requires ValidAddress(start) && ValidAddress(start + capacity - 1)
    ensures Consecutive(WordsOf(file, start), start)
    ensures forall w :: w in WordsOf(file, start) ==> start <= w.address && w.address + 4 <= start + capacity
  {
    var ws := WordsOf(file, start);
    WordAddresses(file, start);
    forall w | w in ws ensures start <= w.address && w.address + 4 <= start + capacity {
      var i := IndexOf(ws, w);
    }
  }

  /** The flash after a session: with no failed call, all double words or all but a lone last
      one; otherwise the place of the double word whose call failed is not filled. */
  lemma SessionWrites(dev: Device, ws: seq<Word>, start: nat, driver: Driver) returns (j: nat)
    requires Consecutive(ws, start)
    requires dev == if dev.open then DeviceAfter(ws, driver) else OnDone(DeviceAfter(ws, driver), driver)
    ensures if Worked(driver, dev.calls)
            then dev.written == if |ws| % 2 == 0 || !dev.open then FinalDoubles(ws) else Doubles(ws)
            else j < |FinalDoubles(ws)| && (|dev.written| > j ==> dev.written[j].address > start + 8 * j)
  {
    AfterWords(ws, start, driver);
    FinalDoublesFollow(ws, start);
    DoublesFollow(ws, start);
    j := FirstFailure(ws, start, driver);
    if Worked(driver, DeviceAfter(ws, driver).calls) {
      j := |ws| / 2;
    }
  }

  lemma SessionEnds(l: Link, ws: seq<Word>, start: nat, ch: Channel)
    requires Consecutive(ws, start) && NoneStale(l.replies, ws) && l.sent == [] && l.dev == OPENED
    requires SendWords(l, ws, ch).0
    ensures var f := Finish(SendWords(l, ws, ch).1, DONE_TRIES, ch);
            Ended(f.1, ws, ch.driver) && (Finished !in l.replies && f.0 ==> !f.1.dev.open)
  {
    assert l.replies + Echoes(ws[..0]) == l.replies && ws[0..] == ws;
    var hi, m := SendWordsKeeps(l, l.replies, ws, start, 0, ch);
    assert ws[..m] == ws && ws[..hi] == ws;
    AfterWords(ws, start, ch.driver);
    FinishEnds(SendWords(l, ws, ch).1, ws, start, DONE_TRIES, ch);
  }

  /** The file, zero-padded to whole double words. */
  function Padded(file: seq<byte>): (b: seq<byte>)
    ensures |b| % 8 == 0 && |file| <= |b| < |file| + 8 && b[..|file|] == file
  {
    file + Zeros((8 - |file| % 8) % 8)
  }

  lemma ImageOfFile(file: seq<byte>, at: uint32)
    ensures Image(FinalDoubles(WordsOf(file, at))) == Padded(file)
  {
    var ws := WordsOf(file, at);
    ImageOfWords(ws);
    WordsCarryFile(file, at);
    PadFile(file, |ws|);
  }

  lemma PadFile(file: seq<byte>, words: nat)
    requires words == (|file| + 3) / 4
    ensures (file + Zeros(4 * words - |file|)) + Zeros(4 * (words % 2)) == Padded(file)
  {
    PadLengths(|file|);
    PadTwice(file, 4 * words - |file|, 4 * (words % 2));
  }

  lemma PadTwice(file: seq<byte>, m: nat, n: nat)
    ensures (file + Zeros(m)) + Zeros(n) == file + Zeros(m + n)
  {
    Regroup(file, Zeros(m), Zeros(n));
    ZerosAdd(m, n);
  }

  lemma ZerosAdd(m: nat, n: nat)
    ensures Zeros(m) + Zeros(n) == Zeros(m + n)
  {
  }

  lemma PadLengths(n: nat)
    ensures var words := (n + 3) / 4; (4 * words - n) + 4 * (words % 2) == (8 - n % 8) % 8
  {
    var q, r := n / 8, n % 8;
    var low := if r == 0 then 0 else if r <= 4 then 1 else 2;
    assert n + 3 == 4 * (2 * q + low) + (r + 3 - 4 * low);
    assert (n + 3) / 4 == 2 * q + low;
    assert (2 * q + low) % 2 == low % 2;
  }

  /** The flash holds the file, padded, from `start` on and nothing else. */
  ghost predicate Holds(written: seq<Double>, file: seq<byte>, start: nat) {
    Image(written) == Padded(file) && Gapless(written, start)
  }

  /** After a transfer that was reported as a success, the flash holds the file if and only if
      every programming call that was made has succeeded, and the number of words is even or
      the device has handled the end command. */
  lemma FlashHoldsTheFile(l: Link, file: seq<byte>, t: Target, ch: Channel)
    requires |file| <= CapacityOf(t) && l.sent == [] && l.dev == OPENED
    requires NoneStale(l.replies, WordsOf(file, StartOf(t))) && Flash(l, file, StartOf(t), ch).reported
    ensures var dev := Flash(l, file, StartOf(t), ch).link.dev;
            Holds(dev.written, file, StartOf(t)) <==>
              Worked(ch.driver, dev.calls) && (((|file| + 3) / 4) % 2 == 0 || !dev.open)
  {
    WordsStayInRegion(file, t);
    SessionEnds(l, WordsOf(file, StartOf(t)), StartOf(t), ch);
    FlashAfter(Flash(l, file, StartOf(t), ch).link.dev, file, StartOf(t), ch.driver);
  }

  /** Had the host looked at the answer to its end command: when it was read, and none was left
      over from before, the flash holds the file if and only if every programming call that was
      made has succeeded. */
  lemma ConfirmedFlashHoldsTheFile(l: Link, file: seq<byte>, t: Target, ch: Channel)
    requires |file| <= CapacityOf(t) && l.sent == [] && l.dev == OPENED
    requires NoneStale(l.replies, WordsOf(file, StartOf(t))) && Finished !in l.replies
    requires var f := Flash(l, file, StartOf(t), ch); f.reported && f.confirmed
    ensures var dev := Flash(l, file, StartOf(t), ch).link.dev;
            Holds(dev.written, file, StartOf(t)) <==> Worked(ch.driver, dev.calls)
  {
    WordsStayInRegion(file, t);
    SessionEnds(l, WordsOf(file, StartOf(t)), StartOf(t), ch);
    FlashHoldsTheFile(l, file, t, ch);
  }

  lemma FlashAfter(dev: Device, file: seq<byte>, start: uint32, driver: Driver)
    requires var ws := WordsOf(file, start);
             && Consecutive(ws, start)
             && dev == if dev.open then DeviceAfter(ws, driver) else OnDone(DeviceAfter(ws, driver), driver)
    ensures Holds(dev.written, file, start) <==>
              Worked(driver, dev.calls) && (((|file| + 3) / 4) % 2 == 0 || !dev.open)
  {
    var ws := WordsOf(file, start);
    var j := SessionWrites(dev, ws, start, driver);
    ImageOfFile(file, start);
    FinalDoublesFollow(ws, start);
    AllButTheLast(ws);
    ImageLength(dev.written);
    ImageLength(FinalDoubles(ws));
  }

  lemma AllButTheLast(ws: seq<Word>)
    ensures Doubles(ws) <= FinalDoubles(ws)
    ensures |ws| % 2 == 1 ==> Image(Doubles(ws)) != Image(FinalDoubles(ws))
  {
    ImageLength(Doubles(ws));
    ImageLength(FinalDoubles(ws));
  }

  lemma {:induction false} ImageLength(ds: seq<Double>)
    ensures |Image(ds)| == 8 * |ds|
  {
    if ds != [] {
      ImageLength(ds[1..]);
    }
  }

  // ---------------------------------------------------------------- good and bad channels

  /** Each command arrives once and at once, and the host reads the newest answer. */
  ghost predicate Clean(ch: Channel, stale: nat) {
    forall t: nat :: ch.deliveries(t) == [t] && ch.reception(t) == stale + t
  }

  /** Over a clean channel every transfer succeeds, each word on its first try. */
  lemma {:induction false} CleanChannelFlashes(
    l: Link, stale: seq<Reply>, ws: seq<Word>, start: nat, k: nat, ch: Channel)
    requires Consecutive(ws, start) && NoneStale(stale, ws) && Clean(ch, |stale|)
    requires k <= |ws| && InTransit(l, stale, ws, k, k, ch.driver) && l.turn == |l.sent| == k
    ensures var r := SendWords(l, ws[k..], ch); r.0 && r.1.turn == |ws|
    decreases |ws| - k
  {
    if k < |ws| {
      var l1 := l.(sent := l.sent + [Data(ws[k])]);
      assert ch.deliveries(k) == [k] && [k][1..] == [] && ch.reception(k) == |stale| + k;
      assert Deliver(l1, [k], ch.driver) == Deliver(DeliverOne(l1, k, ch.driver), [], ch.driver);
      AfterWords(ws[..k], start, ch.driver);
      var m := SendKeeps(l, stale, ws, start, k, k, k, ch);
      var l' := Send(l, Data(ws[k]), ch);
      assert |l'.replies| == |stale| + k + 1 && ws[k] in ws;
      AcknowledgedByItsEcho(l', stale, ws, start, k, m, ch);
      assert ws[k..][1..] == ws[k + 1..];
      CleanChannelFlashes(NextTurn(l'), stale, ws, start, k + 1, ch);
    }
  }

  /** An answer left over from an earlier session is trusted: if it names the word's address,
      some channel lets the host go on although the device never saw the word. */
  lemma StaleEchoIsTrusted(l: Link, w: Word, tries: nat, driver: Driver) returns (ch: Channel)
    requires Echo(w.address) in l.replies && tries > 0
    ensures ch.driver == driver
    ensures TryWord(l, w, tries, ch).0 && TryWord(l, w, tries, ch).1.dev == l.dev
  {
    var j := IndexOf(l.replies, Echo(w.address));
    ch := Channel(_ => [], _ => j, driver);
    assert Received(Send(l, Data(w), ch), ch) == Echo(w.address);
  }

  /** The k-th word is safe on every channel - the host does not go on before the device has
      it - if and only if no answer that names its address is left over from before. */
  lemma SafeIffNotStale(
    l: Link, stale: seq<Reply>, ws: seq<Word>, start: nat, k: nat, hi: nat, driver: Driver)
    requires Consecutive(ws, start) && InTransit(l, stale, ws, hi, k, driver) && k < |ws|
    ensures (forall ch: Channel :: ch.driver == driver && TryWord(l, ws[k], WORD_TRIES, ch).0 ==>
               TryWord(l, ws[k], WORD_TRIES, ch).1.dev == DeviceAfter(ws[..k + 1], driver))
       <==> Echo(ws[k].address) !in stale
  {
    if Echo(ws[k].address) !in stale {
      forall ch: Channel | ch.driver == driver && TryWord(l, ws[k], WORD_TRIES, ch).0
        ensures TryWord(l, ws[k], WORD_TRIES, ch).1.dev == DeviceAfter(ws[..k + 1], driver)
      {
        var m := WordNeedsItsOnlyEcho(l, stale, ws, start, k, hi, k, WORD_TRIES, ch);
      }
    } else {
      var ch := StaleEchoIsTrusted(l, ws[k], WORD_TRIES, driver);
      AfterWords(ws[..k], start, driver);
      AfterWords(ws[..k + 1], start, driver);
    }
  }
}
