/** Finding bluelink packets in a byte stream: what the stream means, independent of how it
    is cut into chunks. */
module PacketFraming {
  import opened Bytes
  import opened Concatenation

  /** The sizes of a packet's parts, where its length byte sits, and its two sync bytes. */
  datatype Format = Format(prefix: nat, header: nat, suffix: nat, lengthIndex: nat, sign0: byte, sign1: byte)

  predicate Valid(f: Format) {
    2 <= f.lengthIndex < f.prefix
  }

  function MinSize(f: Format): nat {
    f.prefix + f.header + f.suffix
  }

  predicate Synced(f: Format, b: seq<byte>) {
    |b| >= 2 && b[0] == f.sign0 && b[1] == f.sign1
  }

  /** The whole length of the packet at the start of `b`, by its length byte. */
  function TotalSize(f: Format, b: seq<byte>): nat
    requires Valid(f) && |b| >= MinSize(f)
  {
    f.prefix + b[f.lengthIndex] + f.suffix
  }

  predicate Complete(f: Format, b: seq<byte>)
    requires Valid(f)
  {
    |b| >= MinSize(f) && |b| >= TotalSize(f, b)
  }

  datatype Piece = Skipped(b: byte) | Frame(bytes: seq<byte>)
  datatype Parsed = Parsed(pieces: seq<Piece>, rest: seq<byte>)

  /** The stream cut into skipped bytes and frames, and the bytes that still wait. */
  function Parse(f: Format, b: seq<byte>): (r: Parsed)
    requires Valid(f)
    decreases |b|
  {
    if |b| >= 2 && !Synced(f, b) then
      var r := Parse(f, b[1..]);
      Parsed([Skipped(b[0])] + r.pieces, r.rest)
    else if !Complete(f, b) then Parsed([], b)
    else
      var r := Parse(f, b[TotalSize(f, b)..]);
      Parsed([Frame(b[..TotalSize(f, b)])] + r.pieces, r.rest)
  }

  function Frames(pieces: seq<Piece>): seq<seq<byte>> {
    if pieces == [] then []
    else if pieces[0].Frame? then [pieces[0].bytes] + Frames(pieces[1..])
    else Frames(pieces[1..])
  }

  function Content(pieces: seq<Piece>): seq<byte> {
    if pieces == [] then []
    else (if pieces[0].Frame? then pieces[0].bytes else [pieces[0].b]) + Content(pieces[1..])
  }

  lemma {:induction false} FramesConcat(a: seq<Piece>, b: seq<Piece>)
    ensures Frames(a + b) == Frames(a) + Frames(b)
  {
    if a == [] {
      assert a + b == b;
    } else {
      assert (a + b)[1..] == a[1..] + b;
      FramesConcat(a[1..], b);
    }
  }

  function Joint(first: Parsed, second: Parsed): Parsed {
    Parsed(first.pieces + second.pieces, second.rest)
  }

  /** The parse of a stream that starts with a piece, from the parse of what follows. */
  function After(p: Piece, later: Parsed): Parsed {
    Parsed([p] + later.pieces, later.rest)
  }

  lemma JointAfter(p: Piece, first: Parsed, second: Parsed)
    ensures Joint(After(p, first), second) == After(p, Joint(first, second))
  {
    Regroup([p], first.pieces, second.pieces);
  }

  lemma ParseSkip(f: Format, b: seq<byte>)
    requires Valid(f) && |b| >= 2 && !Synced(f, b)
    ensures Parse(f, b) == After(Skipped(b[0]), Parse(f, b[1..]))
  {
  }

  lemma ParseFrame(f: Format, b: seq<byte>, n: nat)
    requires Valid(f) && Synced(f, b) && Complete(f, b) && n == TotalSize(f, b)
    ensures Parse(f, b) == After(Frame(b[..n]), Parse(f, b[n..]))
  {
  }

  /** Parsing a stream and then its continuation is parsing all of it at once. */
  lemma {:induction false} ParseContinues(f: Format, a: seq<byte>, b: seq<byte>)
    requires Valid(f)
    ensures var first := Parse(f, a);
            var second := Parse(f, first.rest + b);
            Parse(f, a + b) == Parsed(first.pieces + second.pieces, second.rest)
    decreases |a|
  {
    if |a| >= 2 && !Synced(f, a) {
      var later := Parse(f, a[1..]);
      ParseContinues(f, a[1..], b);
      SkipContinues(f, a, b, later, Parse(f, later.rest + b));
    } else if !Complete(f, a) {
      assert [] + Parse(f, a + b).pieces == Parse(f, a + b).pieces;
    } else {
      var n := TotalSize(f, a);
      var later := Parse(f, a[n..]);
      ParseContinues(f, a[n..], b);
      FrameContinues(f, a, b, n, later, Parse(f, later.rest + b));
    }
  }

  lemma SkipContinues(f: Format, a: seq<byte>, b: seq<byte>, later: Parsed, second: Parsed)
    requires Valid(f) && |a| >= 2 && !Synced(f, a)
    requires later == Parse(f, a[1..]) && Parse(f, a[1..] + b) == Joint(later, second)
    ensures Parse(f, a) == After(Skipped(a[0]), later)
    ensures Parse(f, a + b) == Joint(Parse(f, a), second)
  {
    ParseSkip(f, a);
    assert (a + b)[0] == a[0] && (a + b)[1] == a[1] && (a + b)[1..] == a[1..] + b;
    ParseSkip(f, a + b);
    JointAfter(Skipped(a[0]), later, second);
  }

  lemma FrameContinues(f: Format, a: seq<byte>, b: seq<byte>, n: nat, later: Parsed, second: Parsed)
    requires Valid(f) && Synced(f, a) && Complete(f, a) && n == TotalSize(f, a)
    requires later == Parse(f, a[n..]) && Parse(f, a[n..] + b) == Joint(later, second)
    ensures Parse(f, a) == After(Frame(a[..n]), later)
    ensures Parse(f, a + b) == Joint(Parse(f, a), second)
  {
    ParseFrame(f, a, n);
    assert (a + b)[0] == a[0] && (a + b)[1] == a[1] && (a + b)[f.lengthIndex] == a[f.lengthIndex];
    assert (a + b)[..n] == a[..n] && (a + b)[n..] == a[n..] + b;
    ParseFrame(f, a + b, n);
    JointAfter(Frame(a[..n]), later, second);
  }

  /** The result when `done` has already been cut off and `b` remains. */
  function ParseFrom(f: Format, done: seq<Piece>, b: seq<byte>): Parsed
    requires Valid(f)
  {
    Parsed(done + Parse(f, b).pieces, Parse(f, b).rest)
  }

  lemma SkipOne(f: Format, done: seq<Piece>, b: seq<byte>)
    requires Valid(f) && |b| >= 2 && !Synced(f, b)
    ensures ParseFrom(f, done, b) == ParseFrom(f, done + [Skipped(b[0])], b[1..])
    ensures Frames(done + [Skipped(b[0])]) == Frames(done)
  {
    var p := Skipped(b[0]);
    Regroup(done, [p], Parse(f, b[1..]).pieces);
    FramesConcat(done, [p]);
    assert [p][1..] == [];
  }

  lemma TakeFrame(f: Format, done: seq<Piece>, b: seq<byte>)
    requires Valid(f) && Synced(f, b) && Complete(f, b)
    ensures var n := TotalSize(f, b);
            && ParseFrom(f, done, b) == ParseFrom(f, done + [Frame(b[..n])], b[n..])
            && Frames(done + [Frame(b[..n])]) == Frames(done) + [b[..n]]
  {
    var n := TotalSize(f, b);
    var p := Frame(b[..n]);
    Regroup(done, [p], Parse(f, b[n..]).pieces);
    FramesConcat(done, [p]);
    assert [p][1..] == [];
  }

  lemma NothingToTake(f: Format, done: seq<Piece>, b: seq<byte>)
    requires Valid(f) && (|b| < 2 || Synced(f, b)) && !Complete(f, b)
    ensures ParseFrom(f, done, b) == Parsed(done, b)
  {
  }

  function Joined(chunks: seq<seq<byte>>): seq<byte> {
    if chunks == [] then [] else Joined(chunks[..|chunks| - 1]) + chunks[|chunks| - 1]
  }

  /** Parsing chunk by chunk, keeping the rest of each parse for the next one. */
  function ParseChunks(f: Format, chunks: seq<seq<byte>>): Parsed
    requires Valid(f)
  {
    if chunks == [] then Parsed([], [])
    else
      var before := ParseChunks(f, chunks[..|chunks| - 1]);
      var r := Parse(f, before.rest + chunks[|chunks| - 1]);
      Parsed(before.pieces + r.pieces, r.rest)
  }

  /** However a stream is cut into chunks, the same bytes are skipped, the same frames are
      found and the same bytes are left. */
  lemma {:induction false} ChunkingIsInvisible(f: Format, chunks: seq<seq<byte>>)
    requires Valid(f)
    ensures ParseChunks(f, chunks) == Parse(f, Joined(chunks))
  {
    if chunks != [] {
      var n := |chunks| - 1;
      ChunkingIsInvisible(f, chunks[..n]);
      ParseContinues(f, Joined(chunks[..n]), chunks[n]);
    }
  }

  /** Nothing is lost or reordered: skipped bytes, frames and the rest rebuild the stream. */
  lemma {:induction false} ParseConserves(f: Format, b: seq<byte>)
    requires Valid(f)
    ensures Content(Parse(f, b).pieces) + Parse(f, b).rest == b
    decreases |b|
  {
    if |b| >= 2 && !Synced(f, b) {
      ParseSkip(f, b);
      ParseConserves(f, b[1..]);
      PieceConserves(Skipped(b[0]), [b[0]], Parse(f, b[1..]), b[1..]);
      assert b == [b[0]] + b[1..];
    } else if Complete(f, b) {
      var n := TotalSize(f, b);
      ParseFrame(f, b, n);
      ParseConserves(f, b[n..]);
      PieceConserves(Frame(b[..n]), b[..n], Parse(f, b[n..]), b[n..]);
      assert b == b[..n] + b[n..];
    } else {
      assert Content([]) + b == b;
    }
  }

  lemma PieceConserves(p: Piece, bytes: seq<byte>, r: Parsed, later: seq<byte>)
    requires bytes == if p.Frame? then p.bytes else [p.b]
    requires Content(r.pieces) + r.rest == later
    ensures Content([p] + r.pieces) + r.rest == bytes + later
  {
    assert ([p] + r.pieces)[1..] == r.pieces;
    assert (bytes + Content(r.pieces)) + r.rest == bytes + (Content(r.pieces) + r.rest);
  }

  /** Every frame starts with the sync bytes and has the length its length byte says; what
      is left over is not a complete packet, so the buffer stays small. */
  lemma {:induction false} ParseIsSound(f: Format, b: seq<byte>)
    requires Valid(f)
    ensures forall p :: p in Frames(Parse(f, b).pieces) ==>
              Synced(f, p) && |p| > f.lengthIndex && |p| == f.prefix + p[f.lengthIndex] + f.suffix
    ensures var rest := Parse(f, b).rest;
            (|rest| < 2 || Synced(f, rest)) && !Complete(f, rest) && |rest| < MinSize(f) + 256
    decreases |b|
  {
    if |b| >= 2 && !Synced(f, b) {
      ParseIsSound(f, b[1..]);
      var r := Parse(f, b[1..]);
      assert ([Skipped(b[0])] + r.pieces)[1..] == r.pieces;
    } else if Complete(f, b) {
      var n := TotalSize(f, b);
      ParseIsSound(f, b[n..]);
      var r := Parse(f, b[n..]);
      assert ([Frame(b[..n])] + r.pieces)[1..] == r.pieces;
    }
  }

  /** Behind its sync bytes a packet is waited for exactly as long as there are fewer bytes than a
      packet with an empty payload has, or than its length byte says; then it is taken, in that
      length. */
  lemma WaitsForLength(f: Format, b: seq<byte>)
    requires Valid(f) && |b| >= 2 && b[0] == f.sign0 && b[1] == f.sign1
    ensures var pieces := Parse(f, b).pieces;
            if |b| < f.prefix + f.header + f.suffix || |b| < f.prefix + b[f.lengthIndex] + f.suffix
            then Parse(f, b) == Parsed([], b)
            else pieces != [] && pieces[0] == Frame(b[..f.prefix + b[f.lengthIndex] + f.suffix])
  {
  }

  // ---------------------------------------------------------------- round trip

  /** A packet as a sender builds it: its body holds at least a header; its payload may
      contain anything, sync bytes included. */
  predicate WellFormed(f: Format, p: seq<byte>)
    requires Valid(f)
  {
    Synced(f, p) && |p| >= f.prefix + f.header + f.suffix && |p| == f.prefix + p[f.lengthIndex] + f.suffix
  }

  /** A packet preceded by noise. */
  datatype Noisy = Noisy(noise: seq<byte>, packet: seq<byte>)

  /** No sync pair starts in the noise, not even across its border with the packet. */
  predicate Clean(f: Format, x: Noisy) {
    forall i :: 0 <= i < |x.noise| ==> !Synced(f, x.noise[i..] + x.packet)
  }

  function Transmitted(xs: seq<Noisy>): seq<byte> {
    if xs == [] then [] else xs[0].noise + xs[0].packet + Transmitted(xs[1..])
  }

  function Packets(xs: seq<Noisy>): seq<seq<byte>> {
    if xs == [] then [] else [xs[0].packet] + Packets(xs[1..])
  }

  lemma {:induction false} NoiseIsSkipped(f: Format, noise: seq<byte>, packet: seq<byte>, more: seq<byte>)
    requires Valid(f) && WellFormed(f, packet) && Clean(f, Noisy(noise, packet))
    ensures var r, s := Parse(f, noise + packet + more), Parse(f, packet + more);
            Frames(r.pieces) == Frames(s.pieces) && r.rest == s.rest
    decreases |noise|
  {
    var b := noise + packet + more;
    if noise == [] {
      assert b == packet + more;
    } else {
      assert !Synced(f, noise[0..] + packet);
      assert noise[0..] + packet == noise + packet;
      assert b[0] == (noise + packet)[0] && b[1] == (noise + packet)[1];
      assert b[1..] == noise[1..] + packet + more;
      forall i | 0 <= i < |noise| - 1 ensures !Synced(f, noise[1..][i..] + packet) {
        assert noise[1..][i..] == noise[i + 1..];
      }
      NoiseIsSkipped(f, noise[1..], packet, more);
      var r := Parse(f, b[1..]);
      assert ([Skipped(b[0])] + r.pieces)[1..] == r.pieces;
    }
  }

  /** Any sequence of well-formed packets with clean noise between them is parsed into
      exactly those packets, with nothing left over. */
  lemma {:induction false} RoundTrip(f: Format, xs: seq<Noisy>)
    requires Valid(f)
    requires forall i :: 0 <= i < |xs| ==> WellFormed(f, xs[i].packet) && Clean(f, xs[i])
    ensures var r := Parse(f, Transmitted(xs));
            Frames(r.pieces) == Packets(xs) && r.rest == []
  {
    if xs != [] {
      var p, more := xs[0].packet, Transmitted(xs[1..]);
      NoiseIsSkipped(f, xs[0].noise, p, more);
      RoundTrip(f, xs[1..]);
      var b := p + more;
      assert b[0] == p[0] && b[1] == p[1] && b[f.lengthIndex] == p[f.lengthIndex];
      assert b[..|p|] == p && b[|p|..] == more;
      var r := Parse(f, more);
      assert ([Frame(p)] + r.pieces)[1..] == r.pieces;
    }
  }
}
