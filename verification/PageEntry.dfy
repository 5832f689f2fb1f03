/**
 Page-table entries as 64-bit words, and the flag translation of the x86_64 port.
 */
module PageEntry {
  /** `get_address`: bits 51 to 12. */
  function Address(e: bv64): bv64 { e & 0x000F_FFFF_FFFF_F000 }

  function SetAddress(e: bv64, a: bv64): bv64 { (e & 0xFFF0_0000_0000_0FFF) | a }

  function SetFlags(e: bv64, flags: bv64): bv64 { (e & !flags) | flags }

  predicate Present(e: bv64) { e & 1 != 0 }

  /** Bit 7: a leaf at levels 3 and 2, part of the cache selector at level 1. */
  predicate LargeBit(e: bv64) { e & 128 != 0 }

  /** A physical address that fits an entry: page aligned and below 2^52. */
  predicate IsFrame(a: bv64) { Address(a) == a }

  // Flags of the portable interface.
  predicate Write(flags: bv64) { flags & 2 != 0 }
  predicate Exec(flags: bv64) { flags & 4 != 0 }
  predicate User(flags: bv64) { flags & 8 != 0 }
  predicate Global(flags: bv64) { flags & 16 != 0 }
  predicate LPage(flags: bv64) { flags & 32 != 0 }
  predicate LLPage(flags: bv64) { flags & 64 != 0 }

  datatype Caching = Uncachable | WriteThrough | WriteProtected | WriteCombining | WriteBack

  function FlagsToArch(flags: bv64): bv64 {
    1
    | (if Write(flags) then 2 else 0)
    | (if User(flags) then 4 else 0)
    | (if !Exec(flags) then 0x8000_0000_0000_0000 else 0)
    | (if Global(flags) then 256 else 0)
    | (if LPage(flags) || LLPage(flags) then 128 else 0)
  }

  function CacheToFlags(cache: Caching, large: bool): bv64 {
    var pat: bv64 := if large then 4096 else 128;
    match cache
    case Uncachable => 0
    case WriteCombining => 8
    case WriteThrough => pat
    case WriteProtected => pat | 8
    case WriteBack => pat | 16
  }

  /** The bits `map` and `set_flags` put on a leaf. */
  function LeafFlags(flags: bv64, cache: Caching, large: bool): bv64 {
    FlagsToArch(flags) | CacheToFlags(cache, large)
  }

  /** `map` on an entry: the address is replaced, the flags are only added. */
  function MapEntry(e: bv64, pa: bv64, bits: bv64): bv64 { SetFlags(SetAddress(e, pa), bits) }

  /** `set_flags` on an entry: the address stays, the flags are replaced. */
  function FlagEntry(e: bv64, bits: bv64): bv64 { SetFlags(SetAddress(0, Address(e)), bits) }

  /** What `get_next_lvl` writes when it allocates a table. */
  function TableEntry(e: bv64, table: bv64): bv64 { SetFlags(SetAddress(e, table), 7) }

  /** The memory type that the page attribute table selects: the PAT bit, PCD and PWT (SDM Volume 3A, section 4.9). */
  function PatIndex(e: bv64, large: bool): bv64 {
    (if e & (if large then 4096 else 128) != 0 then 4 else 0) | (if e & 16 != 0 then 2 else 0) | (if e & 8 != 0 then 1 else 0)
  }

  // ---------------------------------------------------------------------------------------------
  // Bit facts
  // ---------------------------------------------------------------------------------------------

  lemma LeafFlagsShape(flags: bv64, cache: Caching, large: bool)
    ensures var f := LeafFlags(flags, cache, large);
            && Present(f)
            && f & 0x000F_FFFF_FFFF_E000 == 0
            && (!large ==> f & 0x1000 == 0)
            && (large ==> (LargeBit(f) <==> LPage(flags) || LLPage(flags)))
  {
  }

  /** On address bits that the flags leave alone, the new entry carries the new address. */
  lemma MappedBits(e: bv64, pa: bv64, bits: bv64, m: bv64)
    requires m & 0xFFF0_0000_0000_0FFF == 0 && bits & m == 0
    ensures MapEntry(e, pa, bits) & m == pa & m
  {
  }

  /** The flags asked for are set, and so are those the entry had. */
  lemma MappedFlags(e: bv64, pa: bv64, bits: bv64, m: bv64)
    requires m & 0x000F_FFFF_FFFF_F000 == 0 && pa & m == 0
    ensures MapEntry(e, pa, bits) & m == (e | bits) & m
    ensures bits & m != 0 ==> MapEntry(e, pa, bits) & m != 0
  {
  }

  lemma FlaggedEntry(e: bv64, bits: bv64)
    requires Present(bits) && bits & 0x000F_FFFF_FFFF_F000 == 0
    ensures Present(FlagEntry(e, bits)) && Address(FlagEntry(e, bits)) == Address(e)
    ensures FlagEntry(e, bits) & 0xFFF0_0000_0000_0FFF == bits
  {
  }

  /** The address bits that the processor reserves in a 2 MiB or 1 GiB leaf (SDM Volume 3A, section 4.5). */
  predicate Reserved(level: nat, e: bv64) {
    (level == 2 && e & 0x1F_E000 != 0) || (level == 3 && e & 0x3FFF_E000 != 0)
  }

  /** The address suits a page of the size that a leaf on the level maps. */
  predicate Sized(level: nat, pa: bv64) {
    IsFrame(pa) && (level == 2 ==> pa & 0x1F_F000 == 0) && (level == 3 ==> pa & 0x3FFF_F000 == 0)
  }

  /** With an address that suits the size, the entry sets no reserved bit. */
  lemma NothingReserved(e: bv64, pa: bv64, flags: bv64, cache: Caching, level: nat)
    requires Sized(level, pa)
    ensures !Reserved(level, MapEntry(e, pa, LeafFlags(flags, cache, level != 1)))
  {
    var bits := LeafFlags(flags, cache, level != 1);
    LeafFlagsShape(flags, cache, level != 1);
    SubMask(bits);
    MappedBits(e, pa, bits, 0x1F_E000);
    MappedBits(e, pa, bits, 0x3FFF_E000);
    SizedMask(pa);
  }

  lemma SubMask(bits: bv64)
    requires bits & 0x000F_FFFF_FFFF_E000 == 0
    ensures bits & 0x1F_E000 == 0 && bits & 0x3FFF_E000 == 0
  {
  }

  lemma SizedMask(pa: bv64)
    ensures pa & 0x1F_F000 == 0 ==> pa & 0x1F_E000 == 0
    ensures pa & 0x3FFF_F000 == 0 ==> pa & 0x3FFF_E000 == 0
  {
  }

  // The rights of an entry (SDM Volume 3A, section 4.6).
  predicate Writable(e: bv64) { e & 2 != 0 }
  predicate UserMode(e: bv64) { e & 4 != 0 }
  predicate Executable(e: bv64) { e & 0x8000_0000_0000_0000 == 0 }

  /** A new leaf grants exactly the rights asked for. */
  lemma NewLeafRights(pa: bv64, flags: bv64, cache: Caching, large: bool)
    requires IsFrame(pa)
    ensures var e := MapEntry(0, pa, LeafFlags(flags, cache, large));
            (Writable(e) <==> Write(flags)) && (UserMode(e) <==> User(flags)) && (Executable(e) <==> Exec(flags))
  {
  }

  /** Mapping over an entry takes no write or user right away, and grants no execution that was denied. */
  lemma MappedRights(old_e: bv64, pa: bv64, flags: bv64, cache: Caching, large: bool)
    requires IsFrame(pa)
    ensures var e := MapEntry(old_e, pa, LeafFlags(flags, cache, large));
            && (Writable(e) <==> Writable(old_e) || Write(flags)) && (UserMode(e) <==> UserMode(old_e) || User(flags))
            && (Executable(e) <==> Executable(old_e) && Exec(flags))
  {
    var bits := LeafFlags(flags, cache, large);
    MappedFlags(old_e, pa, bits, 2);
    MappedFlags(old_e, pa, bits, 4);
    MappedFlags(old_e, pa, bits, 0x8000_0000_0000_0000);
    RightBits(flags, cache, large);
  }

  lemma RightBits(flags: bv64, cache: Caching, large: bool)
    ensures var bits := LeafFlags(flags, cache, large);
            (Writable(bits) <==> Write(flags)) && (UserMode(bits) <==> User(flags)) && (Executable(bits) <==> Exec(flags))
  {
  }

  /** `set_flags` grants exactly the rights asked for. */
  lemma FlaggedRights(old_e: bv64, flags: bv64, cache: Caching, large: bool)
    ensures var e := FlagEntry(old_e, LeafFlags(flags, cache, large));
            (Writable(e) <==> Write(flags)) && (UserMode(e) <==> User(flags)) && (Executable(e) <==> Exec(flags))
  {
    RightBits(flags, cache, large);
    FlagEntryBits(old_e, LeafFlags(flags, cache, large));
  }

  lemma FlagEntryBits(e: bv64, bits: bv64)
    ensures FlagEntry(e, bits) & 0x8000_0000_0000_0006 == bits & 0x8000_0000_0000_0006
  {
  }

  /** A table denies nothing, so that the leaf alone decides. */
  lemma TableEntryRights(table: bv64)
    requires IsFrame(table)
    ensures var n := TableEntry(0, table); Writable(n) && UserMode(n) && Executable(n)
  {
  }

  lemma TableEntryShape(table: bv64)
    requires IsFrame(table)
    ensures var n := TableEntry(0, table); Present(n) && !LargeBit(n) && Address(n) == table
  {
  }

  /** Each caching mode selects its own page attribute entry, at either page size. */
  lemma CachingSelectsPat(flags: bv64, cache: Caching, large: bool, pa: bv64)
    requires IsFrame(pa) && (large ==> pa & 0x1000 == 0) && (large <==> LPage(flags) || LLPage(flags))
    ensures PatIndex(MapEntry(0, pa, LeafFlags(flags, cache, large)), large) ==
            match cache
            case Uncachable => 0
            case WriteCombining => 1
            case WriteThrough => 4
            case WriteProtected => 5
            case WriteBack => 6
  {
  }

  // ---------------------------------------------------------------------------------------------
  // Virtual addresses
  // ---------------------------------------------------------------------------------------------

  type Path = seq<bv64>

  function Index4(va: bv64): bv64 { (va >> 39) & 0x1FF }
  function Index3(va: bv64): bv64 { (va >> 30) & 0x1FF }
  function Index2(va: bv64): bv64 { (va >> 21) & 0x1FF }
  function Index1(va: bv64): bv64 { (va >> 12) & 0x1FF }

  /** The four table indices of an address, top level first. */
  function PathOf(va: bv64): Path { [Index4(va), Index3(va), Index2(va), Index1(va)] }

  predicate Canonical(va: bv64) { va <= 0x0000_7FFF_FFFF_FFFF || va >= 0xFFFF_8000_0000_0000 }

  /** On canonical addresses the four indices name the page. */
  lemma PathNamesPage(a: bv64, b: bv64)
    requires Canonical(a) && Canonical(b)
    ensures PathOf(a) == PathOf(b) <==> a & 0xFFFF_FFFF_FFFF_F000 == b & 0xFFFF_FFFF_FFFF_F000
  {
    if PathOf(a) == PathOf(b) {
      assert PathOf(a)[0] == PathOf(b)[0] && PathOf(a)[1] == PathOf(b)[1];
      assert PathOf(a)[2] == PathOf(b)[2] && PathOf(a)[3] == PathOf(b)[3];
      SameIndices(a, b);
    }
  }

  lemma SameIndices(a: bv64, b: bv64)
    requires Canonical(a) && Canonical(b)
    requires Index4(a) == Index4(b) && Index3(a) == Index3(b) && Index2(a) == Index2(b) && Index1(a) == Index1(b)
    ensures a & 0xFFFF_FFFF_FFFF_F000 == b & 0xFFFF_FFFF_FFFF_F000
  {
  }
}
