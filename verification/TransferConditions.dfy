/** Exactly what a channel has to do for a word, and for the end command, to be acknowledged. */
module TransferConditions {
  import opened Bytes
  import opened Guards
  import opened Bootloader
  import opened FlashSession

  /** In the exchange of turn `t`, one of the commands sent since turn `first` reaches the device;
      `base` commands had been sent before. */
  ghost predicate Reaches(ch: Channel, base: nat, first: nat, t: nat)
    requires first <= t
  {
    Between(ch.deliveries(t), base, base + (t - first) + 1)
  }

  ghost predicate Between(ks: seq<nat>, base: nat, end: nat) {
    exists i :: i in ks && base <= i < end
  }

  lemma BetweenUnfolds(ks: seq<nat>, base: nat, end: nat)
    requires ks != []
    ensures Between(ks, base, end) <==> base <= ks[0] < end || Between(ks[1..], base, end)
  {
    if base <= ks[0] < end {
      assert ks[0] in ks;
    }
    if Between(ks[1..], base, end) {
      var i :| i in ks[1..] && base <= i < end;
      assert i in ks;
    }
    if i :| i in ks && base <= i < end && i != ks[0] {
      var j :| 0 <= j < |ks| && ks[j] == i;
      assert ks[1..][j - 1] == i && i in ks[1..];
    }
  }

  ghost predicate ReachedBefore(ch: Channel, base: nat, first: nat, end: nat) {
    first < end && (ReachedBefore(ch, base, first, end - 1) || Reaches(ch, base, first, end - 1))
  }

  /** The host reads answer number `reply` in a turn from `from` to `end`, and by then a command has
      reached the device. */
  ghost predicate Heard(ch: Channel, base: nat, first: nat, from: nat, end: nat, reply: nat)
    decreases end - from
  {
    from < end &&
      ((ch.reception(from) == reply && ReachedBefore(ch, base, first, from + 1))
       || Heard(ch, base, first, from + 1, end, reply))
  }

  lemma {:induction false} ReachedMeans(ch: Channel, base: nat, first: nat, end: nat)
    ensures ReachedBefore(ch, base, first, end) <==> exists s :: first <= s < end && Reaches(ch, base, first, s)
    decreases end
  {
    if first < end {
      ReachedMeans(ch, base, first, end - 1);
    }
  }

  /** That is: in some turn a command reaches the device, and in that or a later one the host reads
      the answer. */
  lemma {:induction false} HeardMeans(ch: Channel, base: nat, first: nat, from: nat, end: nat, reply: nat)
    requires first <= from
    ensures Heard(ch, base, first, from, end, reply) <==>
              exists s, t :: first <= s <= t && from <= t < end && Reaches(ch, base, first, s) && ch.reception(t) == reply
    decreases end - from
  {
    if from < end {
      ReachedMeans(ch, base, first, from + 1);
      HeardMeans(ch, base, first, from + 1, end, reply);
    }
  }

  // ---------------------------------------------------------------- a word

  /** From `base` on, only the k-th word was sent; before that, only earlier ones. */
  ghost predicate Repeating(l: Link, ws: seq<Word>, k: nat, base: nat) {
    && k < |ws| && base <= |l.sent|
    && (forall i :: 0 <= i < base ==> l.sent[i].Data? && l.sent[i].word in ws[..k])
    && (forall i :: base <= i < |l.sent| ==> l.sent[i] == Data(ws[k]))
  }

  lemma OneDelivery(l: Link, i: nat, stale: seq<Reply>, ws: seq<Word>, start: nat, k: nat, m: nat, base: nat, driver: Driver)
    requires Consecutive(ws, start) && Repeating(l, ws, k, base) && k <= m <= k + 1
    requires InTransit(l, stale, ws, k + 1, m, driver)
    ensures InTransit(DeliverOne(l, i, driver), stale, ws, k + 1, if base <= i < |l.sent| then k + 1 else m, driver)
    ensures DeliverOne(l, i, driver).sent == l.sent
  {
    if i < base {
      var j := IndexOf(ws[..k], l.sent[i].word);
      WordsTaken(ws, start, j, m, driver);
    } else if i < |l.sent| {
      WordsTaken(ws, start, k, m, driver);
      EchoesGrow(stale, ws, k);
    }
  }

  lemma {:induction false} Deliveries(
    l: Link, ks: seq<nat>, stale: seq<Reply>, ws: seq<Word>, start: nat, k: nat, m: nat, base: nat, driver: Driver)
    requires Consecutive(ws, start) && Repeating(l, ws, k, base) && k <= m <= k + 1
    requires InTransit(l, stale, ws, k + 1, m, driver)
    ensures var m' := if Between(ks, base, |l.sent|) then k + 1 else m;
            InTransit(Deliver(l, ks, driver), stale, ws, k + 1, m', driver)
    ensures Deliver(l, ks, driver).sent == l.sent && Deliver(l, ks, driver).turn == l.turn
    decreases |ks|
  {
    if ks != [] {
      var i := ks[0];
      OneDelivery(l, i, stale, ws, start, k, m, base, driver);
      BetweenUnfolds(ks, base, |l.sent|);
      Deliveries(DeliverOne(l, i, driver), ks[1..], stale, ws, start, k,
                 if base <= i < |l.sent| then k + 1 else m, base, driver);
    }
  }

  /** How many words the device has taken in the middle of the tries. */
  ghost function TakenBy(ch: Channel, base: nat, first: nat, t: nat, k: nat): nat {
    if ReachedBefore(ch, base, first, t) then k + 1 else k
  }

  /** Where the tries stand: the device has taken the k-th word iff a repetition has reached it. */
  ghost predicate TryingNow(l: Link, stale: seq<Reply>, ws: seq<Word>, k: nat, base: nat, first: nat, ch: Channel) {
    && Repeating(l, ws, k, base) && first <= l.turn && |l.sent| == base + (l.turn - first)
    && InTransit(l, stale, ws, k + 1, TakenBy(ch, base, first, l.turn, k), ch.driver)
  }

  /** The same; `Open(j)` is always true and keeps the definition closed where it is passed on. */
  ghost predicate Trying(l: Link, stale: seq<Reply>, ws: seq<Word>, k: nat, base: nat, first: nat, ch: Channel) {
    forall j: nat :: Open(j) ==> TryingNow(l, stale, ws, k, base, first, ch)
  }

  lemma OneTry(l: Link, stale: seq<Reply>, ws: seq<Word>, start: nat, k: nat, base: nat, first: nat, ch: Channel)
    requires k < |ws| && Consecutive(ws, start) && Trying(l, stale, ws, k, base, first, ch) && Echo(ws[k].address) !in stale
    ensures var l' := Send(l, Data(ws[k]), ch);
            && l'.turn == l.turn && Trying(NextTurn(l'), stale, ws, k, base, first, ch)
            && (Received(l', ch) == Echo(ws[k].address) <==>
                  ReachedBefore(ch, base, first, l.turn + 1) && ch.reception(l.turn) == |stale| + k)
  {
    assert Open(0);
    SentOnce(l, stale, ws, start, k, base, first, ch);
    var l', m' := Send(l, Data(ws[k]), ch), TakenBy(ch, base, first, l.turn + 1, k);
    AcknowledgedByItsEcho(l', stale, ws, start, k, m', ch);
    NextTurnKeeps(l', stale, ws, k + 1, m', ch.driver);
    assert TryingNow(NextTurn(l'), stale, ws, k, base, first, ch);
  }

  lemma SentOnce(l: Link, stale: seq<Reply>, ws: seq<Word>, start: nat, k: nat, base: nat, first: nat, ch: Channel)
    requires Consecutive(ws, start) && TryingNow(l, stale, ws, k, base, first, ch)
    ensures var l' := Send(l, Data(ws[k]), ch);
            && Repeating(l', ws, k, base) && l'.turn == l.turn && |l'.sent| == |l.sent| + 1
            && InTransit(l', stale, ws, k + 1, TakenBy(ch, base, first, l.turn + 1, k), ch.driver)
  {
    var m := TakenBy(ch, base, first, l.turn, k);
    var l1 := l.(sent := l.sent + [Data(ws[k])]);
    assert ws[..k + 1][k] == ws[k];
    assert InTransit(l1, stale, ws, k + 1, m, ch.driver);
    Deliveries(l1, ch.deliveries(l.turn), stale, ws, start, k, m, base, ch.driver);
  }

  /** The tries succeed if and only if the host reads the one answer to the word in one of their
      turns, after one of the repetitions sent so far has reached the device. */
  lemma {:induction false} TriesSucceedIff(
    l: Link, stale: seq<Reply>, ws: seq<Word>, start: nat, k: nat, base: nat, first: nat, tries: nat, ch: Channel)
    requires k < |ws| && Consecutive(ws, start) && Trying(l, stale, ws, k, base, first, ch) && Echo(ws[k].address) !in stale
    ensures TryWord(l, ws[k], tries, ch).0 <==> Heard(ch, base, first, l.turn, l.turn + tries, |stale| + k)
    decreases tries
  {
    if tries > 0 {
      var l' := Send(l, Data(ws[k]), ch);
      OneTry(l, stale, ws, start, k, base, first, ch);
      if Received(l', ch) != Echo(ws[k].address) {
        TriesSucceedIff(NextTurn(l'), stale, ws, start, k, base, first, tries - 1, ch);
      }
    }
  }

  /** A word of a transfer is acknowledged if and only if, within a hundred turns, the channel lets
      one of its repetitions through and afterwards, or in the same turn, the answer to it. */
  lemma WordIsAcknowledgedIff(l: Link, stale: seq<Reply>, ws: seq<Word>, start: nat, k: nat, ch: Channel)
    requires Consecutive(ws, start) && k < |ws| && Echo(ws[k].address) !in stale
    requires InTransit(l, stale, ws, k, k, ch.driver)
    ensures SendWords(l, [ws[k]], ch).0 <==>
              Heard(ch, |l.sent|, l.turn, l.turn, l.turn + 100, |stale| + k)
  {
    var tries: nat := WORD_TRIES;
    FirstTry(l, stale, ws, k, ch);
    TriesSucceedIff(l, stale, ws, start, k, |l.sent|, l.turn, tries, ch);
    OneWord(l, ws[k], tries, ch);
  }

  lemma FirstTry(l: Link, stale: seq<Reply>, ws: seq<Word>, k: nat, ch: Channel)
    requires k < |ws| && InTransit(l, stale, ws, k, k, ch.driver)
    ensures Trying(l, stale, ws, k, |l.sent|, l.turn, ch)
  {
    LookAhead(l, stale, ws, k, k, k, ch.driver);
    forall i | 0 <= i < |l.sent| ensures l.sent[i].Data? && l.sent[i].word in ws[..k] {
      assert l.sent[i] in l.sent;
    }
    assert TryingNow(l, stale, ws, k, |l.sent|, l.turn, ch);
  }

  lemma OneWord(l: Link, w: Word, tries: nat, ch: Channel)
    requires tries == WORD_TRIES
    ensures SendWords(l, [w], ch).0 == TryWord(l, w, tries, ch).0
  {
    assert [w][1..] == [];
  }

  // ---------------------------------------------------------------- a whole transfer

  lemma {:induction false} SendWordsSplit(l: Link, a: seq<Word>, b: seq<Word>, ch: Channel)
    ensures SendWords(l, a + b, ch)
         == if SendWords(l, a, ch).0 then SendWords(SendWords(l, a, ch).1, b, ch) else SendWords(l, a, ch)
    decreases |a|
  {
    if a == [] {
      assert a + b == b;
    } else {
      assert (a + b)[0] == a[0] && (a + b)[1..] == a[1..] + b;
      SendWordsSplit(TryWord(l, a[0], WORD_TRIES, ch).1, a[1..], b, ch);
    }
  }

  /** The k-th word is heard of within a hundred turns after the words before it. */
  ghost predicate WordIsHeard(l0: Link, ws: seq<Word>, k: nat, ch: Channel)
    requires k < |ws|
  {
    var l := SendWords(l0, ws[..k], ch).1;
    Heard(ch, |l.sent|, l.turn, l.turn, l.turn + 100, |l0.replies| + k)
  }

  ghost predicate AllHeard(l0: Link, ws: seq<Word>, n: nat, ch: Channel)
    requires n <= |ws|
  {
    n == 0 || (AllHeard(l0, ws, n - 1, ch) && WordIsHeard(l0, ws, n - 1, ch))
  }

  lemma AfterPrefix(l0: Link, ws: seq<Word>, start: nat, k: nat, ch: Channel)
    requires Consecutive(ws, start) && NoneStale(l0.replies, ws) && l0.sent == [] && l0.dev == OPENED
    requires k < |ws| && SendWords(l0, ws[..k], ch).0
    ensures InTransit(SendWords(l0, ws[..k], ch).1, l0.replies, ws, k, k, ch.driver)
  {
    var p := ws[..k];
    assert Consecutive(p, start);
    assert l0.replies + Echoes(p[..0]) == l0.replies && p[0..] == p;
    assert InTransit(l0, l0.replies, p, 0, 0, ch.driver);
    var hi, m := SendWordsKeeps(l0, l0.replies, p, start, 0, ch);
    assert p[..k] == p;
  }

  lemma {:induction false} PrefixIsSentIff(l0: Link, ws: seq<Word>, start: nat, n: nat, ch: Channel)
    requires Consecutive(ws, start) && NoneStale(l0.replies, ws) && l0.sent == [] && l0.dev == OPENED
    requires n <= |ws|
    ensures SendWords(l0, ws[..n], ch).0 <==> AllHeard(l0, ws, n, ch)
  {
    if n > 0 {
      PrefixIsSentIff(l0, ws, start, n - 1, ch);
      OneMoreSent(l0, ws, n, ch);
      if SendWords(l0, ws[..n - 1], ch).0 {
        LastWordIsSentIff(l0, ws, start, n - 1, ch);
      }
    }
  }

  lemma OneMoreSent(l0: Link, ws: seq<Word>, n: nat, ch: Channel)
    requires 0 < n <= |ws|
    ensures var r := SendWords(l0, ws[..n - 1], ch);
            SendWords(l0, ws[..n], ch).0 <==> r.0 && SendWords(r.1, [ws[n - 1]], ch).0
  {
    assert ws[..n] == ws[..n - 1] + [ws[n - 1]];
    SendWordsSplit(l0, ws[..n - 1], [ws[n - 1]], ch);
  }

  lemma LastWordIsSentIff(l0: Link, ws: seq<Word>, start: nat, k: nat, ch: Channel)
    requires Consecutive(ws, start) && NoneStale(l0.replies, ws) && l0.sent == [] && l0.dev == OPENED
    requires k < |ws| && SendWords(l0, ws[..k], ch).0
    ensures SendWords(SendWords(l0, ws[..k], ch).1, [ws[k]], ch).0 <==> WordIsHeard(l0, ws, k, ch)
  {
    AfterPrefix(l0, ws, start, k, ch);
    assert ws[k] in ws;
    WordIsAcknowledgedIff(SendWords(l0, ws[..k], ch).1, l0.replies, ws, start, k, ch);
  }

  /** A transfer is reported as a success if and only if each of its words is heard of in time; a
      failed one ends with the word that was not, and no end command is sent. */
  lemma TransferIsReportedIff(l0: Link, file: seq<byte>, at: uint32, start: nat, ch: Channel)
    requires Consecutive(WordsOf(file, at), start) && NoneStale(l0.replies, WordsOf(file, at))
    requires l0.sent == [] && l0.dev == OPENED
    ensures var ws, f := WordsOf(file, at), Flash(l0, file, at, ch);
            && (f.reported <==> AllHeard(l0, ws, |ws|, ch))
            && (!f.reported ==> !f.confirmed && Done !in f.link.sent)
  {
    var ws := WordsOf(file, at);
    assert ws[..|ws|] == ws && ws[0..] == ws;
    PrefixIsSentIff(l0, ws, start, |ws|, ch);
    assert l0.replies + Echoes(ws[..0]) == l0.replies;
    var hi, m := SendWordsKeeps(l0, l0.replies, ws, start, 0, ch);
  }

  // ---------------------------------------------------------------- the end command

  /** After the words `ws` only end commands were sent, and the device has handled one iff `done`. */
  ghost predicate Closing(l: Link, ws: seq<Word>, base: nat, before: seq<Reply>, done: bool, driver: Driver) {
    && base <= |l.sent| && Finished !in before
    && (forall i :: 0 <= i < base ==> l.sent[i].Data? && l.sent[i].word in ws)
    && (forall i :: base <= i < |l.sent| ==> l.sent[i].Done?)
    && l.dev == (if done then OnDone(DeviceAfter(ws, driver), driver) else DeviceAfter(ws, driver))
    && l.replies == if done then before + [Finished] else before
  }

  lemma OneEndDelivery(l: Link, i: nat, ws: seq<Word>, start: nat, base: nat, before: seq<Reply>, done: bool, driver: Driver)
    requires Consecutive(ws, start) && Closing(l, ws, base, before, done, driver)
    ensures Closing(DeliverOne(l, i, driver), ws, base, before, done || base <= i < |l.sent|, driver)
    ensures DeliverOne(l, i, driver).sent == l.sent
  {
    AfterWords(ws, start, driver);
    if i < base {
      var j := IndexOf(ws, l.sent[i].word);
    }
  }

  lemma {:induction false} EndDeliveries(
    l: Link, ks: seq<nat>, ws: seq<Word>, start: nat, base: nat, before: seq<Reply>, done: bool, driver: Driver)
    requires Consecutive(ws, start) && Closing(l, ws, base, before, done, driver)
    ensures Closing(Deliver(l, ks, driver), ws, base, before, done || Between(ks, base, |l.sent|), driver)
    ensures Deliver(l, ks, driver).sent == l.sent && Deliver(l, ks, driver).turn == l.turn
    decreases |ks|
  {
    if ks != [] {
      var i := ks[0];
      OneEndDelivery(l, i, ws, start, base, before, done, driver);
      BetweenUnfolds(ks, base, |l.sent|);
      EndDeliveries(DeliverOne(l, i, driver), ks[1..], ws, start, base, before, done || base <= i < |l.sent|, driver);
    }
  }

  lemma OneEndTry(l: Link, ws: seq<Word>, start: nat, base: nat, first: nat, before: seq<Reply>, ch: Channel)
    requires Consecutive(ws, start) && first <= l.turn && |l.sent| == base + (l.turn - first)
    requires Closing(l, ws, base, before, ReachedBefore(ch, base, first, l.turn), ch.driver)
    ensures var l' := Send(l, Done, ch);
            && l'.turn == l.turn && |l'.sent| == |l.sent| + 1
            && Closing(l', ws, base, before, ReachedBefore(ch, base, first, l.turn + 1), ch.driver)
            && (Received(l', ch) == Finished <==>
                  ReachedBefore(ch, base, first, l.turn + 1) && ch.reception(l.turn) == |before|)
  {
    var l1 := l.(sent := l.sent + [Done]);
    var done := ReachedBefore(ch, base, first, l.turn);
    assert Closing(l1, ws, base, before, done, ch.driver);
    EndDeliveries(l1, ch.deliveries(l.turn), ws, start, base, before, done, ch.driver);
  }

  lemma {:induction false} EndTriesSucceedIff(
    l: Link, ws: seq<Word>, start: nat, base: nat, first: nat, before: seq<Reply>, tries: nat, ch: Channel)
    requires Consecutive(ws, start) && first <= l.turn && |l.sent| == base + (l.turn - first)
    requires Closing(l, ws, base, before, ReachedBefore(ch, base, first, l.turn), ch.driver)
    ensures Finish(l, tries, ch).0 <==> Heard(ch, base, first, l.turn, l.turn + tries, |before|)
    decreases tries
  {
    if tries > 0 {
      OneEndTry(l, ws, start, base, first, before, ch);
      var l' := Send(l, Done, ch);
      assert Closing(NextTurn(l'), ws, base, before, ReachedBefore(ch, base, first, l.turn + 1), ch.driver);
      if Received(l', ch) != Finished {
        EndTriesSucceedIff(NextTurn(l'), ws, start, base, first, before, tries - 1, ch);
      }
    }
  }

  /** In a transfer that is reported as a success, the end command is confirmed if and only if,
      within ten turns, the channel lets one of its repetitions through and then the answer to it. */
  lemma EndIsConfirmedIff(l0: Link, file: seq<byte>, at: uint32, start: nat, ch: Channel)
    requires Consecutive(WordsOf(file, at), start) && NoneStale(l0.replies, WordsOf(file, at))
    requires Finished !in l0.replies && l0.sent == [] && l0.dev == OPENED && Flash(l0, file, at, ch).reported
    ensures var l := SendWords(l0, WordsOf(file, at), ch).1;
            Flash(l0, file, at, ch).confirmed <==> Heard(ch, |l.sent|, l.turn, l.turn, l.turn + 10, |l.replies|)
  {
    EndOfFlash(l0, file, at, DONE_TRIES, ch);
    FinishAfterWords(l0, WordsOf(file, at), start, DONE_TRIES, ch);
  }

  lemma FinishAfterWords(l0: Link, ws: seq<Word>, start: nat, tries: nat, ch: Channel)
    requires Consecutive(ws, start) && NoneStale(l0.replies, ws)
    requires Finished !in l0.replies && l0.sent == [] && l0.dev == OPENED && SendWords(l0, ws, ch).0
    ensures var l := SendWords(l0, ws, ch).1;
            Finish(l, tries, ch).0 <==> Heard(ch, |l.sent|, l.turn, l.turn, l.turn + tries, |l.replies|)
  {
    var l := SendWords(l0, ws, ch).1;
    WordsLeaveClosing(l0, ws, start, ch);
    EndTriesSucceedIff(l, ws, start, |l.sent|, l.turn, l.replies, tries, ch);
  }

  lemma EndOfFlash(l0: Link, file: seq<byte>, at: uint32, tries: nat, ch: Channel)
    requires tries == DONE_TRIES && Flash(l0, file, at, ch).reported
    ensures SendWords(l0, WordsOf(file, at), ch).0
    ensures Flash(l0, file, at, ch).confirmed == Finish(SendWords(l0, WordsOf(file, at), ch).1, tries, ch).0
  {
  }

  lemma WordsLeaveClosing(l0: Link, ws: seq<Word>, start: nat, ch: Channel)
    requires Consecutive(ws, start) && NoneStale(l0.replies, ws)
    requires Finished !in l0.replies && l0.sent == [] && l0.dev == OPENED && SendWords(l0, ws, ch).0
    ensures var l := SendWords(l0, ws, ch).1; Closing(l, ws, |l.sent|, l.replies, false, ch.driver)
  {
    assert l0.replies + Echoes(ws[..0]) == l0.replies && ws[0..] == ws;
    var hi, m := SendWordsKeeps(l0, l0.replies, ws, start, 0, ch);
    assert ws[..|ws|] == ws;
  }

  // ---------------------------------------------------------------- giving up

  /** A word without an answer is sent a hundred times, the end command ten times. */
  lemma {:induction false} UnansweredTries(l: Link, w: Word, tries: nat, ch: Channel)
    requires !TryWord(l, w, tries, ch).0
    ensures var l' := TryWord(l, w, tries, ch).1;
            && l'.turn == l.turn + tries && |l'.sent| == |l.sent| + tries
            && l.sent <= l'.sent && forall i :: |l.sent| <= i < |l'.sent| ==> l'.sent[i] == Data(w)
    decreases tries
  {
    if tries > 0 {
      var l1 := Send(l, Data(w), ch);
      DeliveryKeepsSent(l.(sent := l.sent + [Data(w)]), ch.deliveries(l.turn), ch.driver);
      UnansweredTries(NextTurn(l1), w, tries - 1, ch);
    }
  }

  lemma {:induction false} DeliveryKeepsSent(l: Link, ks: seq<nat>, driver: Driver)
    ensures Deliver(l, ks, driver).sent == l.sent && Deliver(l, ks, driver).turn == l.turn
    decreases |ks|
  {
    if ks != [] {
      DeliveryKeepsSent(DeliverOne(l, ks[0], driver), ks[1..], driver);
    }
  }
}
