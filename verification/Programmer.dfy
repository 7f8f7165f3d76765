/** The host programmer: file check, word transfer and flashing loop. */
module Programmer {
  import opened Bytes
  import opened FlashErase
  import opened Bootloader
  import opened FlashSession

  datatype File = Missing | Contents(bytes: seq<byte>)

  class ProgrammerSession {
    const channel: Channel
    var link: Link
    var target: Target
    var startAddress: uint32
    var fileSize: nat

    constructor (target: Target, link: Link, channel: Channel)
      ensures this.target == target && this.link == link && this.channel == channel
      ensures startAddress == StartOf(target)
    {
      this.target, this.link, this.channel := target, link, channel;
      startAddress := StartOf(target);
      fileSize := 1;
    }

    /** A file is valid iff it can be read and fits its region. */
    method IsFileValid(file: File) returns (ok: bool)
      modifies this`fileSize
      ensures ok <==> file.Contents? && |file.bytes| <= CapacityOf(target)
      ensures file.Contents? ==> fileSize == |file.bytes|
      ensures file.Missing? ==> fileSize == old(fileSize)
    {
      if file.Missing? {
        return false;
      }
      fileSize := |file.bytes|;
      var maxSize := if target == Application then APPLICATION_BYTES else CONFIG_BYTES;
      if fileSize > maxSize {
        return false;
      }
      ok := true;
    }

    method SendProgrammingCommand(c: Command)
      modifies this`link
      ensures link == Send(old(link), c, channel)
    {
      link := Send(link, c, channel);
    }

    method ReceiveProgrammingCommand() returns (r: Reply)
      modifies this`link
      ensures r == Received(old(link), channel) && link == NextTurn(old(link))
    {
      r := Received(link, channel);
      link := NextTurn(link);
    }

    method WriteFlashData(address: uint32, data: uint32) returns (ok: bool)
      modifies this`link
      ensures (ok, link) == TryWord(old(link), Word(address, data), WORD_TRIES, channel)
    {
      ghost var word := Word(address, data);
      for i := 0 to 100
        invariant TryWord(link, word, WORD_TRIES - i, channel) == TryWord(old(link), word, WORD_TRIES, channel)
      {
        SendProgrammingCommand(Data(Word(address, data)));
        var reply := ReceiveProgrammingCommand();
        if reply.Echo? && reply.address == address {
          return true;
        }
      }
      ok := false;
    }

    method SendFinish() returns (ok: bool)
      modifies this`link
      ensures (ok, link) == Finish(old(link), DONE_TRIES, channel)
    {
      for i := 0 to 10
        invariant Finish(link, DONE_TRIES - i, channel) == Finish(old(link), DONE_TRIES, channel)
      {
        SendProgrammingCommand(Done);
        var reply := ReceiveProgrammingCommand();
        if reply == Finished {
          return true;
        }
      }
      ok := false;
    }

    /** Words are read from the file while four bytes are left; the rest is sent zero-padded. */
    method FlashProgram(file: seq<byte>) returns (result: int)
      requires fileSize == |file|
      modifies this`link
      ensures result == 0 || result == -1
      ensures var f := Flash(old(link), file, startAddress, channel);
              link == f.link && (result == 0 <==> f.reported)
    {
      var ok, address, words := SendWholeWords(file);
      if ok {
        ok := SendRemaining(file, words, address);
      }
      if !ok {
        return -1;
      }
      var finished := SendFinish();
      result := 0;
    }

    method SendRemaining(file: seq<byte>, ghost words: nat, address: uint32) returns (ok: bool)
      requires fileSize == |file| && 4 * words <= |file| < 4 * words + 4
      modifies this`link
      ensures (ok, link) == SendWords(old(link), WordsOf(file[4 * words..], address), channel)
    {
      var remaining := fileSize % 4;
      RemainingBytes(|file|, words);
      if remaining == 0 {
        return true;
      }
      LastWord(link, file[|file| - remaining..], address, channel);
      ok := WriteFlashData(address, WordOf(file[|file| - remaining..]));
    }

    method SendWholeWords(file: seq<byte>) returns (ok: bool, address: uint32, ghost words: nat)
      modifies this`link
      ensures 4 * words <= |file| && (ok ==> |file| < 4 * words + 4)
      ensures SendWords(old(link), WordsOf(file, startAddress), channel)
           == if ok then SendWords(link, WordsOf(file[4 * words..], address), channel) else (false, link)
    {
      var position: nat := 0;
      address, words, ok := startAddress, 0, true;
      ghost var all := SendWords(link, WordsOf(file, startAddress), channel);
      while position + 4 <= |file|
        invariant position == 4 * words <= |file| && ok
        invariant SendWords(link, WordsOf(file[position..], address), channel) == all
      {
        ok := SendWordAt(file, position, address);
        if !ok {
          return;
        }
        address := (address + 4) % TWO_32;
        position, words := position + 4, words + 1;
      }
    }

    method SendWordAt(file: seq<byte>, position: nat, address: uint32) returns (ok: bool)
      requires position + 4 <= |file|
      modifies this`link
      ensures SendWords(old(link), WordsOf(file[position..], address), channel)
           == if ok then SendWords(link, WordsOf(file[position + 4..], (address + 4) % TWO_32), channel) else (false, link)
    {
      Window(file, position);
      WholeWord(link, file[position..], address, channel);
      ok := WriteFlashData(address, WordOf(file[position..position + 4]));
    }
  }

  lemma RemainingBytes(n: nat, words: nat)
    requires 4 * words <= n < 4 * words + 4
    ensures n % 4 == n - 4 * words
  {
  }

  lemma Window(file: seq<byte>, position: nat)
    requires position + 4 <= |file|
    ensures file[position..][..4] == file[position..position + 4] && file[position..][4..] == file[position + 4..]
  {
  }

  lemma WholeWord(l: Link, rest: seq<byte>, at: uint32, ch: Channel)
    requires |rest| >= 4
    ensures var r := TryWord(l, Word(at, WordOf(rest[..4])), WORD_TRIES, ch);
            SendWords(l, WordsOf(rest, at), ch)
              == if r.0 then SendWords(r.1, WordsOf(rest[4..], (at + 4) % TWO_32), ch) else (false, r.1)
  {
    var ws := WordsOf(rest, at);
    assert ws[1..] == WordsOf(rest[4..], (at + 4) % TWO_32);
    SendFirst(l, ws, ch);
  }

  lemma LastWord(l: Link, rest: seq<byte>, at: uint32, ch: Channel)
    requires 0 < |rest| < 4
    ensures SendWords(l, WordsOf(rest, at), ch) == TryWord(l, Word(at, WordOf(rest)), WORD_TRIES, ch)
  {
    var ws := WordsOf(rest, at);
    assert ws[1..] == [];
    SendFirst(l, ws, ch);
    var r := TryWord(l, ws[0], WORD_TRIES, ch);
    assert r == (r.0, r.1);
  }

  lemma SendFirst(l: Link, ws: seq<Word>, ch: Channel)
    requires ws != []
    ensures var r := TryWord(l, ws[0], WORD_TRIES, ch);
            SendWords(l, ws, ch) == if r.0 then SendWords(r.1, ws[1..], ch) else (false, r.1)
  {
  }
}
