/** Which flash pages an erase request reaches, on a chip with two banks. */
module FlashErase {
  import opened Bytes
  import opened Interface

  const FLASH_BASE := 0x0800_0000
  const BANK_SIZE := 0x4_0000
  const PAGE_SIZE := 0x800
  const BANK_2 := FLASH_BASE + BANK_SIZE
  const FLASH_END := FLASH_BASE + 2 * BANK_SIZE
  const PAGES_PER_BANK := BANK_SIZE / PAGE_SIZE

  const BOOTLOADER_ADDRESS := 0x0800_0000
  const BOOTLOADER_BYTES := 0x1_4000
  const META_DATA_ADDRESS := BOOTLOADER_ADDRESS + BOOTLOADER_BYTES
  const META_DATA_BYTES := 0x800
  const APPLICATION_ADDRESS := META_DATA_ADDRESS + META_DATA_BYTES
  const CONFIG_ADDRESS := 0x0807_0000
  const APPLICATION_BYTES := CONFIG_ADDRESS - APPLICATION_ADDRESS
  const CONFIG_BYTES := 0x1_0000

  datatype Bank = Bank1 | Bank2

  /** A driver command: `count` pages of one bank, from page number `page` of that bank. */
  datatype Erase = Erase(bank: Bank, page: nat, count: nat)

  function BankCommand(start: uint32, size: uint32, bank: Bank): Erase
    requires BankStart(bank) <= start
  {
    Erase(bank, (start - BankStart(bank)) / PAGE_SIZE,
          (size + PAGE_SIZE - 1) / PAGE_SIZE)
  }

  predicate Crosses(start: uint32, size: uint32) {
    start < BANK_2 && start + size > BANK_2
  }

  predicate InFlash(start: uint32, size: uint32) {
    FLASH_BASE <= start && start + size <= FLASH_END
  }

  function Commands(start: uint32, size: uint32): seq<Erase>
    requires InFlash(start, size)
  {
    if Crosses(start, size) then
      [BankCommand(start, BANK_2 - start, Bank1), BankCommand(BANK_2, start + size - BANK_2, Bank2)]
    else [BankCommand(start, size, if start < BANK_2 then Bank1 else Bank2)]
  }

  function BankStart(bank: Bank): nat {
    if bank == Bank1 then FLASH_BASE else BANK_2
  }

  /** Page `p`, counted from the start of flash across both banks, is erased by `e`. */
  predicate Covers(e: Erase, p: nat) {
    var first := e.page + if e.bank == Bank1 then 0 else PAGES_PER_BANK;
    first <= p < first + e.count
  }

  /** The driver calls made, and the status returned; `hal` answers the erase commands. */
  method EraseFlash(start: uint32, size: uint32, hal: seq<Status>) returns (status: Status, done: seq<Erase>)
    requires InFlash(start, size) && |hal| == 2
    ensures done <= Commands(start, size) && done != []
    ensures status == Ok ==> done == Commands(start, size)
    ensures status != Ok ==> status == Error && hal[|done| - 1] != Ok
    ensures status == Ok ==> forall i :: 0 <= i < |done| ==> hal[i] == Ok
  {
    var end := start + size;
    if start < BANK_2 && end > BANK_2 {
      var first := EraseFlashBank(start, BANK_2 - start, Bank1);
      CommandIsDetermined(first, start, BANK_2 - start, Bank1);
      done := [first];
      if hal[0] != Ok {
        return Error, done;
      }
      var second := EraseFlashBank(BANK_2, end - BANK_2, Bank2);
      CommandIsDetermined(second, BANK_2, end - BANK_2, Bank2);
      done := done + [second];
      return if hal[1] != Ok then Error else Ok, done;
    }
    var bank := if start < BANK_2 then Bank1 else Bank2;
    var only := EraseFlashBank(start, size, bank);
    CommandIsDetermined(only, start, size, bank);
    done := [only];
    status := if hal[0] != Ok then Error else Ok;
  }

  /** The command erases pages of its bank from the one that holds `start` on, as few as
      their total length needs to reach `size`. */
  ghost predicate FewestPages(e: Erase, start: uint32, size: uint32, bank: Bank) {
    && e.bank == bank
    && BankStart(bank) + e.page * PAGE_SIZE <= start < BankStart(bank) + (e.page + 1) * PAGE_SIZE
    && size <= e.count * PAGE_SIZE < size + PAGE_SIZE
  }

  method EraseFlashBank(start: uint32, size: uint32, bank: Bank) returns (e: Erase)
    requires BankStart(bank) <= start
    ensures FewestPages(e, start, size, bank)
    ensures forall p: nat :: Covers(e, p) <==>
              (start - FLASH_BASE) / PAGE_SIZE <= p
              && p * PAGE_SIZE < (start - FLASH_BASE) / PAGE_SIZE * PAGE_SIZE + size
  {
    var page;
    if bank == Bank1 {
      page := (start - FLASH_BASE) / PAGE_SIZE;
    } else {
      page := (start - (FLASH_BASE + BANK_SIZE)) / PAGE_SIZE;
    }
    var count := (size + PAGE_SIZE - 1) / PAGE_SIZE;
    e := Erase(bank, page, count);
  }

  /** There is only one such command. */
  lemma CommandIsDetermined(e: Erase, start: uint32, size: uint32, bank: Bank)
    requires BankStart(bank) <= start
    ensures FewestPages(e, start, size, bank) <==> e == BankCommand(start, size, bank)
  {
  }

  // ---------------------------------------------------------------- pages

  /** The regions of the memory map, in bytes from the start of flash. */
  lemma MemoryMap()
    ensures FLASH_BASE == BOOTLOADER_ADDRESS == 0x0800_0000 && FLASH_END == FLASH_BASE + 512 * 1024
    ensures META_DATA_ADDRESS == FLASH_BASE + 80 * 1024 && APPLICATION_ADDRESS == META_DATA_ADDRESS + 2 * 1024
    ensures CONFIG_ADDRESS == APPLICATION_ADDRESS + 366 * 1024 && CONFIG_ADDRESS + 64 * 1024 == FLASH_END
    ensures BOOTLOADER_BYTES == 80 * 1024 && META_DATA_BYTES == 2 * 1024
    ensures APPLICATION_BYTES == 366 * 1024 && CONFIG_BYTES == 64 * 1024
  {
  }

  /** Every command erases existing pages of its bank, of which there are 128, and none is empty;
      there are two commands exactly when the range has bytes in both banks. */
  lemma CommandsStayInBank(start: uint32, size: uint32)
    requires 0x0800_0000 <= start && start + size <= 0x0808_0000 && size > 0
    ensures InFlash(start, size)
    ensures forall e :: e in Commands(start, size) ==> e.count > 0 && e.page + e.count <= 128
    ensures |Commands(start, size)| == if start < 0x0804_0000 < start + size then 2 else 1
  {
    var end := if Crosses(start, size) then BANK_2 else start + size;
    InBank(start, end - start, if start < BANK_2 then Bank1 else Bank2);
    if Crosses(start, size) {
      InBank(BANK_2, start + size - BANK_2, Bank2);
    }
  }

  lemma InBank(start: uint32, size: uint32, bank: Bank)
    requires BankStart(bank) <= start && start + size <= BankStart(bank) + BANK_SIZE && size > 0
    ensures var e := BankCommand(start, size, bank); e.count > 0 && e.page + e.count <= 128
  {
  }

  predicate Erased(cmds: seq<Erase>, p: nat) {
    exists i :: 0 <= i < |cmds| && Covers(cmds[i], p)
  }

  /** The byte range [start, start + size) has a byte in page `p`. */
  predicate Intersects(start: int, size: int, p: nat) {
    var page := FLASH_BASE + p * PAGE_SIZE;
    (if start > page then start else page) < (if start + size < page + PAGE_SIZE then start + size else page + PAGE_SIZE)
  }

  /** The range does not spill over the pages its length alone would need: always so for a
      page-aligned start. */
  predicate Fits(start: uint32, size: uint32) {
    || Crosses(start, size) || size == 0
    || start % PAGE_SIZE + size <= (size + PAGE_SIZE - 1) / PAGE_SIZE * PAGE_SIZE
  }

  lemma ErasedPages(start: uint32, size: uint32, p: nat)
    requires InFlash(start, size)
    ensures Erased(Commands(start, size), p) <==>
      var first := (start - FLASH_BASE) / PAGE_SIZE;
      first <= p < if Crosses(start, size) then (start + size - FLASH_BASE + PAGE_SIZE - 1) / PAGE_SIZE
                   else first + (size + PAGE_SIZE - 1) / PAGE_SIZE
  {
    var cmds := Commands(start, size);
    if Crosses(start, size) {
      assert Erased(cmds, p) <==> Covers(cmds[0], p) || Covers(cmds[1], p);
    } else {
      assert Erased(cmds, p) <==> Covers(cmds[0], p);
    }
  }

  lemma IntersectedPages(start: uint32, size: uint32, p: nat)
    requires InFlash(start, size) && size > 0
    ensures Intersects(start, size, p) <==>
      (start - FLASH_BASE) / PAGE_SIZE <= p < (start + size - FLASH_BASE + PAGE_SIZE - 1) / PAGE_SIZE
  {
  }

  /** An erase reaches exactly the pages that meet the range, if and only if the range fits
      - in particular for every page-aligned start, within a bank or across both. */
  lemma EraseIsExact(start: uint32, size: uint32)
    requires InFlash(start, size)
    ensures (forall p: nat :: Erased(Commands(start, size), p) <==> Intersects(start, size, p)) <==> Fits(start, size)
  {
    forall p: nat
      ensures Fits(start, size) ==> (Erased(Commands(start, size), p) <==> Intersects(start, size, p))
    {
      ErasedPages(start, size, p);
      if size > 0 {
        IntersectedPages(start, size, p);
      }
    }
    if !Fits(start, size) {
      var missed := (start - FLASH_BASE) / PAGE_SIZE + (size + PAGE_SIZE - 1) / PAGE_SIZE;
      ErasedPages(start, size, missed);
      IntersectedPages(start, size, missed);
    }
  }

  lemma AlignedRangesFit(start: uint32, size: uint32)
    requires start % PAGE_SIZE == 0
    ensures Fits(start, size)
  {
  }

  /** A range that ends where a page begins shares no page with what follows. */
  lemma PageAlignedRangesAreApart(start: int, size: nat, other: int)
    requires start + size <= other && (other - FLASH_BASE) % PAGE_SIZE == 0
    ensures forall p: nat, n: nat :: !(Intersects(start, size, p) && Intersects(other, n, p))
  {
    forall p: nat, n: nat ensures !(Intersects(start, size, p) && Intersects(other, n, p)) {
      var page := FLASH_BASE + p * PAGE_SIZE;
      assert page < other ==> page + PAGE_SIZE <= other;
    }
  }

  /** Erasing the application touches neither bootloader, metadata nor configuration, and
      erasing the configuration touches none of the others. */
  lemma RegionsAreErasedAlone(p: nat)
    ensures Erased(Commands(APPLICATION_ADDRESS, APPLICATION_BYTES), p) ==>
      && !Intersects(BOOTLOADER_ADDRESS, BOOTLOADER_BYTES, p)
      && !Intersects(META_DATA_ADDRESS, META_DATA_BYTES, p)
      && !Intersects(CONFIG_ADDRESS, CONFIG_BYTES, p)
    ensures Erased(Commands(CONFIG_ADDRESS, CONFIG_BYTES), p) ==>
      && !Intersects(BOOTLOADER_ADDRESS, BOOTLOADER_BYTES, p)
      && !Intersects(META_DATA_ADDRESS, META_DATA_BYTES, p)
      && !Intersects(APPLICATION_ADDRESS, APPLICATION_BYTES, p)
  {
    EraseIsExact(APPLICATION_ADDRESS, APPLICATION_BYTES);
    EraseIsExact(CONFIG_ADDRESS, CONFIG_BYTES);
    PageAlignedRangesAreApart(BOOTLOADER_ADDRESS, BOOTLOADER_BYTES, APPLICATION_ADDRESS);
    PageAlignedRangesAreApart(META_DATA_ADDRESS, META_DATA_BYTES, APPLICATION_ADDRESS);
    PageAlignedRangesAreApart(BOOTLOADER_ADDRESS, BOOTLOADER_BYTES, CONFIG_ADDRESS);
    PageAlignedRangesAreApart(META_DATA_ADDRESS, META_DATA_BYTES, CONFIG_ADDRESS);
    PageAlignedRangesAreApart(APPLICATION_ADDRESS, APPLICATION_BYTES, CONFIG_ADDRESS);
  }
}
