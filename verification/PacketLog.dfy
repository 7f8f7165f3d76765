/** The packet log object: it appends what arrives to its buffer and parses as far as it can. */
module PacketLog {
  import opened Bytes
  import opened PacketFraming

  class BluelinkPacketLog {
    const format: Format
    var buffer: seq<byte>
    /** The frames handed to the printer, in order. */
    var emitted: seq<seq<byte>>
    /** Everything fed so far, and how it was cut up. */
    ghost var fed: seq<byte>
    ghost var pieces: seq<Piece>

    constructor (format: Format)
      requires PacketFraming.Valid(format)
      ensures Consistent() && this.format == format && fed == [] && emitted == [] && buffer == []
    {
      this.format := format;
      buffer, emitted, fed, pieces := [], [], [], [];
    }

    ghost predicate Consistent()
      reads this
    {
      && PacketFraming.Valid(format)
      && Parsed(pieces, buffer) == Parse(format, fed)
      && emitted == Frames(pieces)
    }

    /** Afterwards the log is as if everything so far had arrived in one piece. */
    method Feed(data: seq<byte>)
      requires Consistent()
      modifies this
      ensures Consistent() && fed == old(fed) + data
      ensures emitted == Frames(Parse(format, fed).pieces) && buffer == Parse(format, fed).rest
    {
      if |data| == 0 {
        assert fed + data == fed;
        return;
      }
      ParseContinues(format, fed, data);
      buffer := buffer + data;
      fed := fed + data;
      TryParsePackets(pieces);
    }

    /** Parses as far as possible; `done` is what was cut off before. */
    method TryParsePackets(ghost done: seq<Piece>)
      requires PacketFraming.Valid(format) && emitted == Frames(done)
      modifies this`buffer, this`emitted, this`pieces
      ensures Parsed(pieces, buffer) == ParseFrom(format, done, old(buffer))
      ensures emitted == Frames(pieces)
    {
      ghost var goal := ParseFrom(format, done, buffer);
      pieces := done;
      while true
        invariant emitted == Frames(pieces) && goal == ParseFrom(format, pieces, buffer)
        decreases |buffer|
      {
        SkipToSync();
        if |buffer| < MinSize(format) {
          NothingToTake(format, pieces, buffer);
          return;
        }
        var total := format.prefix + buffer[format.lengthIndex] + format.suffix;
        if |buffer| < total {
          NothingToTake(format, pieces, buffer);
          return;
        }
        TakeFrame(format, pieces, buffer);
        emitted := emitted + [buffer[..total]];
        pieces := pieces + [Frame(buffer[..total])];
        buffer := buffer[total..];
      }
    }

    /** Drops everything before the first sync pair; without one, all but the last byte. */
    method SkipToSync()
      requires PacketFraming.Valid(format)
      modifies this`buffer, this`pieces
      ensures |buffer| <= |old(buffer)| && (|buffer| < 2 || Synced(format, buffer))
      ensures Frames(pieces) == Frames(old(pieces))
      ensures ParseFrom(format, pieces, buffer) == ParseFrom(format, old(pieces), old(buffer))
    {
      ghost var done := pieces;
      var start: nat := 0;
      while start + 1 < |buffer|
        modifies {}
        invariant start <= |buffer| && Frames(done) == Frames(pieces)
        invariant ParseFrom(format, done, buffer[start..]) == ParseFrom(format, pieces, buffer)
      {
        if buffer[start] == format.sign0 && buffer[start + 1] == format.sign1 {
          break;
        }
        SkipOne(format, done, buffer[start..]);
        assert buffer[start..][1..] == buffer[start + 1..];
        done := done + [Skipped(buffer[start])];
        start := start + 1;
      }
      buffer := buffer[start..];
      pieces := done;
    }
  }
}
