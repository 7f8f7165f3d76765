/** The interrupt-driven writer: bytes that cannot be handed to the driver at once wait in
    a pending buffer, in order. */
module PendingWriter {
  import opened Bytes
  import opened Concatenation
  import opened Interface

  /** What one write does: its status, the bytes offered to the driver in a call (none if no
      call is made), the bytes the driver took, the bytes that are gone, in order, and the
      bytes that wait afterwards. */
  datatype Outcome = Outcome(status: Status, offered: seq<byte>, taken: seq<byte>, lost: seq<byte>, pending: seq<byte>)

  /** The driver is told the length as a 16-bit number. */
  function Announced(b: seq<byte>): (r: seq<byte>)
    ensures r <= b && (r == b <==> |b| < 0x1_0000)
  {
    b[..|b| % 0x1_0000]
  }

  /** A driver call with all of `offered`; `pending` waits afterwards if the driver says OK or
      the call was started by an interrupt, `unread` is dropped if it does not. */
  function Called(offered: seq<byte>, reply: Status, pending: seq<byte>, unread: seq<byte>): Outcome {
    var taken := if reply == Ok then Announced(offered) else [];
    Outcome(reply, offered, taken, offered[|taken|..] + if reply == Ok then [] else unread, pending)
  }

  /** `available` is the driver's transmit flag, `reply` its answer if it is called. */
  function WriteOutcome(pending: seq<byte>, size: nat, data: seq<byte>, available: bool, reply: Status): Outcome {
    var full := |data| + |pending| > size;
    if available && pending == [] && data == [] then Outcome(Ok, [], [], [], [])
    else if available && pending == [] then Called(data, reply, [], [])
    else if available && full then Called(pending, reply, data, [])
    else if available then Called(pending + data, reply, [], [])
    else if full then Called(pending, reply, if reply == Ok then data else [], data)
    else Outcome(Ok, [], [], [], pending + data)
  }

  /** Where the bytes go: what the driver took, what is lost and what waits are, in this order,
      what waited before and the new data. */
  lemma WriteAccountsForBytes(pending: seq<byte>, size: nat, data: seq<byte>, available: bool, reply: Status)
    requires |pending| <= size && |data| <= size
    ensures var o := WriteOutcome(pending, size, data, available, reply);
            && o.taken + o.lost + o.pending == pending + data
            && |o.offered| <= size && |o.pending| <= size
  {
    if available && pending == [] {
      CalledAccounts(data, reply, [], []);
      EmptyAddsNothing(data, []);
    } else if available && |data| + |pending| > size {
      CalledAccounts(pending, reply, data, []);
      EmptyAddsNothing(pending, data);
    } else if available {
      CalledAccounts(pending + data, reply, [], []);
      EmptyAddsNothing(pending, data);
    } else if |data| + |pending| > size {
      CalledAccounts(pending, reply, if reply == Ok then data else [], data);
      EmptyAddsNothing(pending, data);
    }
  }

  /** Bytes are lost exactly when a call is made and the driver refuses it, or is told a wrong
      length. A refusal loses everything offered, and the new data as well when the driver was
      not even available; it is the only case in which the caller is not told OK. */
  lemma BytesAreLost(pending: seq<byte>, size: nat, data: seq<byte>, available: bool, reply: Status)
    requires |pending| <= size && |data| <= size
    ensures var o := WriteOutcome(pending, size, data, available, reply);
            && (o.lost != [] <==> o.offered != [] && (reply != Ok || |o.offered| >= 0x1_0000))
            && (o.offered != [] && reply != Ok ==> o.lost == if available then o.offered else pending + data)
            && o.status == if o.offered != [] then reply else Ok
  {
    var o := WriteOutcome(pending, size, data, available, reply);
    if o.offered != [] {
      CalledAccounts(o.offered, reply, o.pending, if available then [] else data);
      assert o == Called(o.offered, reply, o.pending, if available then [] else data);
    }
  }

  lemma CalledAccounts(offered: seq<byte>, reply: Status, pending: seq<byte>, unread: seq<byte>)
    ensures var o := Called(offered, reply, pending, unread);
            && o.taken + o.lost + o.pending == offered + (if reply == Ok then [] else unread) + pending
            && (reply != Ok ==> o.lost == offered + unread)
            && (reply == Ok ==> (o.lost == [] <==> |offered| < 0x1_0000))
  {
    var o := Called(offered, reply, pending, unread);
    var rest := if reply == Ok then [] else unread;
    Regroup(o.taken, offered[|o.taken|..], rest);
    assert offered == o.taken + offered[|o.taken|..];
  }

  datatype Request = Request(data: seq<byte>, available: bool, reply: Status)

  /** What the driver took, what waits and how many bytes are lost after a run of writes. */
  datatype Ledger = Ledger(taken: seq<byte>, pending: seq<byte>, lost: nat)

  function Writes(size: nat, rs: seq<Request>): Ledger
    decreases |rs|, 1
  {
    if rs == [] then Ledger([], [], 0)
    else
      var l := Writes(size, rs[..|rs| - 1]);
      var o := LastWrite(size, rs);
      Ledger(l.taken + o.taken, o.pending, l.lost + |o.lost|)
  }

  function LastWrite(size: nat, rs: seq<Request>): Outcome
    requires rs != []
    decreases |rs|, 0
  {
    var r := rs[|rs| - 1];
    WriteOutcome(Writes(size, rs[..|rs| - 1]).pending, size, r.data, r.available, r.reply)
  }

  function Data(rs: seq<Request>): seq<byte> {
    if rs == [] then [] else Data(rs[..|rs| - 1]) + rs[|rs| - 1].data
  }

  /** Every driver call that is made is answered OK and announces its whole length. */
  predicate Obliging(size: nat, rs: seq<Request>) {
    rs == [] ||
      var offered := LastWrite(size, rs).offered;
      && Obliging(size, rs[..|rs| - 1])
      && (offered == [] || (rs[|rs| - 1].reply == Ok && |offered| < 0x1_0000))
  }

  lemma {:induction false} WritesAccount(size: nat, rs: seq<Request>)
    requires forall i :: 0 <= i < |rs| ==> |rs[i].data| <= size
    ensures var l := Writes(size, rs);
            && |l.taken| + l.lost + |l.pending| == |Data(rs)| && |l.pending| <= size
            && (l.lost == 0 <==> Obliging(size, rs))
            && (l.lost == 0 ==> l.taken + l.pending == Data(rs))
    decreases |rs|
  {
    if rs != [] {
      var n := |rs| - 1;
      WritesAccount(size, rs[..n]);
      var l, r, o := Writes(size, rs[..n]), rs[n], LastWrite(size, rs);
      WriteAccountsForBytes(l.pending, size, r.data, r.available, r.reply);
      BytesAreLost(l.pending, size, r.data, r.available, r.reply);
      assert |o.taken| + |o.lost| + |o.pending| == |o.taken + o.lost + o.pending| == |l.pending| + |r.data|;
      if l.lost == 0 && o.lost == [] {
        SameBytes(l.taken, o.taken, o.pending, l.pending, r.data);
      }
    }
  }

  /** The bytes the driver took followed by the pending buffer are the concatenation of
      everything written if and only if every driver call that is made is answered OK (and
      fits a 16-bit length); in any case the pending buffer stays within its size. */
  lemma WritesKeepOrder(size: nat, rs: seq<Request>)
    requires forall i :: 0 <= i < |rs| ==> |rs[i].data| <= size
    ensures var l := Writes(size, rs);
            (l.taken + l.pending == Data(rs) <==> Obliging(size, rs)) && |l.pending| <= size
  {
    WritesAccount(size, rs);
    var l := Writes(size, rs);
    assert |l.taken + l.pending| == |l.taken| + |l.pending|;
  }

  lemma SameBytes(h: seq<byte>, x: seq<byte>, y: seq<byte>, p: seq<byte>, d: seq<byte>)
    requires x + [] + y == p + d
    ensures (h + x) + y == (h + p) + d
  {
    assert x + [] == x;
    Regroup(h, x, y);
    Regroup(h, p, d);
  }

  class CommInterruptsHandler {
    const txBuffer: array<byte>
    var pending: seq<byte>
    /** The bytes of the driver calls made so far. */
    var calls: seq<seq<byte>>

    constructor (size: nat)
      ensures txBuffer.Length == size && fresh(txBuffer) && pending == [] && calls == []
    {
      txBuffer := new byte[size](_ => 0);
      pending, calls := [], [];
    }

    method Copy(at: nat, data: seq<byte>)
      requires at + |data| <= txBuffer.Length
      modifies txBuffer
      ensures txBuffer[..at] == old(txBuffer[..at]) && txBuffer[at..at + |data|] == data
    {
      for i := 0 to |data|
        invariant txBuffer[..at] == old(txBuffer[..at])
        invariant txBuffer[at..at + i] == data[..i]
      {
        txBuffer[at + i] := data[i];
      }
    }

    method CopyBoth(first: seq<byte>, second: seq<byte>)
      requires |first| + |second| <= txBuffer.Length
      modifies txBuffer
      ensures txBuffer[..|first| + |second|] == first + second
    {
      Copy(0, first);
      Copy(|first|, second);
      assert txBuffer[..|first| + |second|] == txBuffer[..|first|] + txBuffer[|first|..|first| + |second|];
    }

    method StartTransmit(size: nat)
      requires size <= txBuffer.Length
      modifies this`calls
      ensures calls == old(calls) + [Announced(txBuffer[..size])]
    {
      var size16 := size % 0x1_0000;
      assert txBuffer[..size][..size16] == txBuffer[..size16];
      calls := calls + [txBuffer[..size16]];
    }

    /** Behaves like `WriteOutcome`, with at most one driver call and with the transmit
        buffer untouched unless the driver is available. */
    method Write(data: seq<byte>, available: bool, reply: Status) returns (status: Status)
      requires |pending| <= txBuffer.Length && |data| <= txBuffer.Length
      modifies this, txBuffer
      ensures var o := WriteOutcome(old(pending), txBuffer.Length, data, available, reply);
              && status == o.status && pending == o.pending
              && calls == old(calls) + if o.offered == [] then [] else [Announced(o.offered)]
      ensures !available ==> txBuffer[..] == old(txBuffer[..])
    {
      if available && |pending| == 0 {
        if |data| > 0 {
          Copy(0, data);
          StartTransmit(|data|);
          return reply;
        }
        return Ok;
      }
      if available {
        status := Flush(data, reply);
        return;
      }
      if |data| + |pending| > txBuffer.Length {
        calls := calls + [pending[..|pending| % 0x1_0000]];
        pending := [];
        if reply != Ok {
          return reply;
        }
      }
      pending := pending + data;
      status := Ok;
    }

    /** The pending bytes go out, with the new ones behind them if they fit. */
    method Flush(data: seq<byte>, reply: Status) returns (status: Status)
      requires 0 < |pending| <= txBuffer.Length && |data| <= txBuffer.Length
      modifies this, txBuffer
      ensures var full := |data| + |old(pending)| > txBuffer.Length;
              && status == reply && pending == (if full then data else [])
              && calls == old(calls) + [Announced(if full then old(pending) else old(pending) + data)]
    {
      if |data| + |pending| > txBuffer.Length {
        Copy(0, pending);
        StartTransmit(|pending|);
        pending := data;
        return reply;
      }
      CopyBoth(pending, data);
      StartTransmit(|pending| + |data|);
      pending := [];
      status := reply;
    }
  }
}
