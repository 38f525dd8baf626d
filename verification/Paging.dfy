/** Two-level 32-bit paging with 4MB and 4KB pages: the directory and the page tables the kernel writes,
    the walk the processor makes over them, and the address map both stand for. The entry formats are
    those of section 4.3 of volume 3A of the Intel 64 and IA-32 Software Developer's Manual. */
module Paging {
  import opened Arithmetic

  type Word = w: int | 0 <= w < 0x1_0000_0000

  const P := 0x1
  const RW := 0x2
  const US := 0x4
  const PS := 0x80

  const KB4 := 0x1000
  const MB4 := 0x40_0000
  const ENTRIES := 1024

  /** Page tables live one after another from 8MB on. */
  const TABLES := 2 * MB4

  // ------------------------------------------------------------- the address map

  datatype Page = Page(frame: Word, user: bool)

  /** What one 4MB region of virtual addresses maps to. */
  datatype Region =
    | Absent
    | Big(frame: Word, user: bool)
    | Small(user: bool, pages: map<nat, Page>)

  type Space = s: seq<Region> | |s| == ENTRIES witness seq(ENTRIES, _ => Absent)

  function NothingMapped(): Space {
    seq(ENTRIES, _ => Absent)
  }

  datatype Access = Fault | At(phys: int, user: bool)

  function RegionOf(virt: Word): (i: nat)
    ensures i < ENTRIES
  {
    virt / MB4
  }

  function PageOf(virt: Word): (j: nat)
    ensures j < ENTRIES
  {
    virt % MB4 / KB4
  }

  /** Translation of one address by the address map. */
  function Lookup(space: Space, virt: Word): Access {
    match space[RegionOf(virt)]
    case Absent => Fault
    case Big(frame, user) => At(frame + virt % MB4, user)
    case Small(user, pages) =>
      if PageOf(virt) in pages then
        At(pages[PageOf(virt)].frame + virt % KB4, user && pages[PageOf(virt)].user)
      else Fault
  }

  function MapBig(space: Space, phys: Word, virt: Word, level: nat): Space {
    space[RegionOf(virt) := Big(phys - phys % MB4, level == 3)]
  }

  function PagesOf(r: Region): map<nat, Page> {
    if r.Small? then r.pages else map[]
  }

  function MapSmall(space: Space, phys: Word, virt: Word, level: nat): Space {
    var page := Page(phys - phys % KB4, level == 3);
    space[RegionOf(virt) := Small(level == 3, PagesOf(space[RegionOf(virt)])[PageOf(virt) := page])]
  }

  function UnmapBig(space: Space, virt: Word): Space {
    space[RegionOf(virt) := Absent]
  }

  function UnmapSmall(space: Space, virt: Word): Space {
    var r := space[RegionOf(virt)];
    if r.Small? then space[RegionOf(virt) := Small(r.user, r.pages - {PageOf(virt)})] else space
  }

  // ------------------------------------------------------------- runs of mapping calls

  datatype Call =
    | CallMapBig(phys: Word, virt: Word, level: nat)
    | CallMapSmall(phys: Word, virt: Word, level: nat)
    | CallUnmapBig(virt: Word)
    | CallUnmapSmall(virt: Word)

  function Perform(space: Space, call: Call): Space {
    match call
    case CallMapBig(phys, virt, level) => MapBig(space, phys, virt, level)
    case CallMapSmall(phys, virt, level) => MapSmall(space, phys, virt, level)
    case CallUnmapBig(virt) => UnmapBig(space, virt)
    case CallUnmapSmall(virt) => UnmapSmall(space, virt)
  }

  function PerformAll(space: Space, calls: seq<Call>): Space {
    if calls == [] then space
    else Perform(PerformAll(space, calls[..|calls| - 1]), calls[|calls| - 1])
  }

  /** The call does not set or free the 4KB page of virt. */
  predicate SparesPage(call: Call, virt: Word) {
    (call.CallMapSmall? || call.CallUnmapSmall?) && RegionOf(call.virt) == RegionOf(virt) ==>
      PageOf(call.virt) != PageOf(virt)
  }

  /** The call does not set or free the whole 4MB region of virt. */
  predicate SparesRegion(call: Call, virt: Word) {
    call.CallMapBig? || call.CallUnmapBig? ==> RegionOf(call.virt) != RegionOf(virt)
  }

  /** The level of the last 4KB mapping made in the region of virt, or the one before all calls. */
  function LastUser(calls: seq<Call>, virt: Word, before: bool): bool {
    if calls == [] then before
    else
      var c := calls[|calls| - 1];
      if c.CallMapSmall? && RegionOf(c.virt) == RegionOf(virt) then c.level == 3
      else LastUser(calls[..|calls| - 1], virt, before)
  }

  /** A 4KB page keeps its frame whatever is done to its siblings and to other regions; whether user code
      may reach it is settled by its own level and by the last level used anywhere in its 4MB region. */
  lemma {:induction false} SiblingsKeepFrames(space: Space, calls: seq<Call>, virt: Word)
    requires space[RegionOf(virt)].Small? && PageOf(virt) in space[RegionOf(virt)].pages
    requires forall c :: c in calls ==> SparesPage(c, virt) && SparesRegion(c, virt)
    ensures var r := space[RegionOf(virt)]; var q := PerformAll(space, calls)[RegionOf(virt)];
      q.Small? && q.user == LastUser(calls, virt, r.user) &&
      PageOf(virt) in q.pages && q.pages[PageOf(virt)] == r.pages[PageOf(virt)]
    ensures var r := space[RegionOf(virt)]; var page := r.pages[PageOf(virt)];
      Lookup(PerformAll(space, calls), virt) ==
        At(page.frame + virt % KB4, LastUser(calls, virt, r.user) && page.user)
  {
    if calls != [] {
      var front := calls[..|calls| - 1];
      forall c | c in front ensures c in calls {}
      SiblingsKeepFrames(space, front, virt);
      assert calls[|calls| - 1] in calls;
    }
  }

  /** Once a region has been mapped or freed as a whole, a 4KB page set before that never comes back:
      until that page is set again, its addresses fault or reach the new 4MB frame. */
  lemma {:induction false} StaleEntriesStayHidden(space: Space, reset: Call, calls: seq<Call>, virt: Word)
    requires reset.CallMapBig? || reset.CallUnmapBig?
    requires RegionOf(reset.virt) == RegionOf(virt)
    requires forall c :: c in calls ==> SparesPage(c, virt) && SparesRegion(c, virt)
    ensures var after := Lookup(PerformAll(Perform(space, reset), calls), virt);
      after == Fault || after == Lookup(Perform(space, reset), virt)
    ensures var r := PerformAll(Perform(space, reset), calls)[RegionOf(virt)];
      r == Perform(space, reset)[RegionOf(virt)] || (r.Small? && PageOf(virt) !in r.pages)
  {
    if calls != [] {
      var front := calls[..|calls| - 1];
      forall c | c in front ensures c in calls {}
      StaleEntriesStayHidden(space, reset, front, virt);
      assert calls[|calls| - 1] in calls;
    }
  }

  /** What one call means for each of the 2^32 addresses. A 4MB page takes over its 4MB of addresses. A 4KB page takes
      over its 4KB; the other 4KB pages of those 4MB keep their frames and get their user bit cut by the call's level,
      and if there was a 4MB page, or nothing, they fault. Freeing a page or region makes its addresses fault. */
  lemma CallReaches(space: Space, call: Call, a: Word)
    ensures var before, after := Lookup(space, a), Lookup(Perform(space, call), a);
      var same4MB := a / 0x40_0000 == call.virt / 0x40_0000;
      var same4KB := a / 0x1000 == call.virt / 0x1000;
      if !same4MB then after == before
      else match call
        case CallMapBig(phys, _, level) => after == At(phys / 0x40_0000 * 0x40_0000 + a % 0x40_0000, level == 3)
        case CallMapSmall(phys, _, level) =>
          if same4KB then after == At(phys / 0x1000 * 0x1000 + a % 0x1000, level == 3)
          else if InSmallPage(space, a) then
            after == At(before.phys, level == 3 && space[a / 0x40_0000].pages[a / 0x1000 % 1024].user)
          else after == Fault
        case CallUnmapBig(_) => after == Fault
        case CallUnmapSmall(_) =>
          if same4KB && !space[a / 0x40_0000].Big? then after == Fault else after == before
  {
    hide PageOf;
    PageNumber(a);
    PageNumber(call.virt);
  }

  /** The page number is made of the region and the place in it. */
  lemma PageNumber(a: Word)
    ensures PageOf(a) == a / 0x1000 % 1024 && a / 0x40_0000 == a / 0x1000 / 1024
    ensures a / 0x1000 == 1024 * (a / 0x40_0000) + PageOf(a)
  {
    var q, r := a / MB4, a % MB4;
    QuotientIs(a, KB4, 1024 * q + r / KB4, r % KB4);
    QuotientIs(a / KB4, 1024, q, r / KB4);
  }

  /** The address lies in a 4KB page that is mapped. */
  predicate InSmallPage(space: Space, a: Word)
    ensures InSmallPage(space, a) ==> Lookup(space, a).At?
  {
    PageNumber(a);
    space[a / 0x40_0000].Small? && a / 0x1000 % 1024 in space[a / 0x40_0000].pages
  }

  // ------------------------------------------------------------- entries as words

  predicate Has(e: Word, bit: int)
    requires bit > 0
  {
    e / bit % 2 == 1
  }

  function UserBit(level: nat): int {
    if level == 3 then US else 0
  }

  /** Adding a multiple of twice a bit leaves that bit as it was. */
  lemma BitKept(bit: int, q: int, low: int)
    requires bit > 0
    ensures (2 * bit * q + low) / bit % 2 == low / bit % 2
  {
    assert 2 * bit * q + low == bit * (2 * q + low / bit) + low % bit;
    QuotientIs(2 * bit * q + low, bit, 2 * q + low / bit, low % bit);
  }

  /** The flag bits of a word made of a multiple of 4096 and a low byte are those of the low byte. */
  lemma LowBits(pages: nat, low: Word)
    requires KB4 * pages + low < 0x1_0000_0000
    ensures var e := KB4 * pages + low;
      (Has(e, P) <==> Has(low, P)) && (Has(e, US) <==> Has(low, US)) && (Has(e, PS) <==> Has(low, PS))
  {
    BitKept(P, 0x800 * pages, low);
    BitKept(US, 0x200 * pages, low);
    BitKept(PS, 0x10 * pages, low);
  }

  lemma BigEntry(phys: Word, level: nat)
    ensures var e := phys - phys % MB4 + P + RW + PS + UserBit(level);
      && 0 <= e < 0x1_0000_0000 && Has(e, P) && Has(e, PS) && (Has(e, US) <==> level == 3)
      && e - e % MB4 == phys - phys % MB4
  {
    var k := phys / MB4;
    var low := P + RW + PS + UserBit(level);
    assert phys - phys % MB4 == MB4 * k;
    LowBits(0x400 * k, low);
    QuotientIs(MB4 * k + low, MB4, k, low);
  }

  lemma SmallEntry(phys: Word, level: nat)
    ensures var e := phys - phys % KB4 + P + RW + UserBit(level);
      && 0 <= e < 0x1_0000_0000 && Has(e, P) && !Has(e, PS) && (Has(e, US) <==> level == 3)
      && e - e % KB4 == phys - phys % KB4
  {
    var k := phys / KB4;
    var low := P + RW + UserBit(level);
    assert phys - phys % KB4 == KB4 * k;
    LowBits(k, low);
    QuotientIs(KB4 * k + low, KB4, k, low);
  }

  method BigWord(phys: Word, level: nat) returns (e: Word)
    ensures Has(e, P) && Has(e, PS) && (Has(e, US) <==> level == 3) && e - e % MB4 == phys - phys % MB4
  {
    BigEntry(phys, level);
    e := phys - phys % MB4 + P + RW + PS + UserBit(level);
  }

  method SmallWord(phys: Word, level: nat) returns (e: Word)
    ensures Has(e, P) && !Has(e, PS) && (Has(e, US) <==> level == 3) && e - e % KB4 == phys - phys % KB4
  {
    SmallEntry(phys, level);
    e := phys - phys % KB4 + P + RW + UserBit(level);
  }

  // ------------------------------------------------------------- directory and tables

  /** What memory held where the page tables lie. */
  type Garbage = (nat, nat) -> Word

  class Mmu {
    const dir: array<Word>
    const tables: array2<Word>

    /** A directory entry is a 4MB entry, present or not, or points at its own page table. */
    ghost predicate Valid()
      reads this, dir, tables
    {
      && dir.Length == ENTRIES && tables.Length0 == ENTRIES && tables.Length1 == ENTRIES
      && forall i :: 0 <= i < ENTRIES ==>
           Has(dir[i], PS) || (Has(dir[i], P) && dir[i] - dir[i] % KB4 == TABLES + KB4 * i)
    }

    ghost function TablePages(i: nat): map<nat, Page>
      requires tables.Length0 == ENTRIES && tables.Length1 == ENTRIES && i < ENTRIES
      reads this, tables
    {
      map j: nat | j < ENTRIES && Has(tables[i, j], P) ::
        Page(tables[i, j] - tables[i, j] % KB4, Has(tables[i, j], US))
    }

    ghost function RegionAt(i: nat): Region
      requires dir.Length == ENTRIES && tables.Length0 == ENTRIES && tables.Length1 == ENTRIES && i < ENTRIES
      reads this, dir, tables
    {
      if !Has(dir[i], P) then Absent
      else if Has(dir[i], PS) then Big(dir[i] - dir[i] % MB4, Has(dir[i], US))
      else Small(Has(dir[i], US), TablePages(i))
    }

    /** The address map this directory and these tables stand for. */
    ghost function Regions(): (space: Space)
      requires Valid()
      reads this, dir, tables
      ensures forall i :: 0 <= i < ENTRIES ==> space[i] == RegionAt(i)
    {
      seq(ENTRIES, i requires 0 <= i < ENTRIES && Valid() reads this, dir, tables => RegionAt(i))
    }

    /** The processor's walk: it follows the table address stored in the directory entry. */
    function Walk(virt: Word): Access
      requires dir.Length == ENTRIES && tables.Length0 == ENTRIES && tables.Length1 == ENTRIES
      reads this, dir, tables
    {
      var pde := dir[virt / MB4];
      if !Has(pde, P) then Fault
      else if Has(pde, PS) then At(pde - pde % MB4 + virt % MB4, Has(pde, US))
      else
        var t := (pde - pde % KB4 - TABLES) / KB4;
        if !(0 <= t < ENTRIES) then Fault
        else
          var pte := tables[t, virt / KB4 % ENTRIES];
          if !Has(pte, P) then Fault
          else At(pte - pte % KB4 + virt % KB4, Has(pde, US) && Has(pte, US))
    }

    /** The walk over the tables in memory agrees with the address map. */
    lemma WalkIsLookup(virt: Word)
      requires Valid()
      ensures Walk(virt) == Lookup(Regions(), virt)
    {
      var i := virt / MB4;
      assert PageOf(virt) == virt / KB4 % ENTRIES;
      assert Regions()[i] == RegionAt(i);
      if Has(dir[i], P) && !Has(dir[i], PS) {
        assert (dir[i] - dir[i] % KB4 - TABLES) / KB4 == i;
      }
    }

    /** fill_page_dir: no page is present, and every entry is marked 4MB. The tables hold whatever memory held. */
    constructor (garbage: Garbage)
      ensures Valid() && fresh(dir) && fresh(tables)
      ensures Regions() == NothingMapped()
      ensures forall virt: Word :: Lookup(Regions(), virt) == Fault
    {
      dir := new Word[ENTRIES];
      tables := new Word[ENTRIES, ENTRIES](garbage);
      new;
      var i := 0;
      while i < ENTRIES
        invariant 0 <= i <= ENTRIES
        invariant forall k :: 0 <= k < i ==> dir[k] == PS
      {
        dir[i] := PS;
        i := i + 1;
      }
      assert Has(PS, PS) && !Has(PS, P);
    }

    method FillPageTable(t: nat)
      requires tables.Length0 == ENTRIES && tables.Length1 == ENTRIES && t < ENTRIES
      modifies tables
      ensures forall i, j :: 0 <= i < ENTRIES && 0 <= j < ENTRIES ==>
        tables[i, j] == if i == t then 0 else old(tables[i, j])
    {
      var j := 0;
      while j < ENTRIES
        invariant 0 <= j <= ENTRIES
        invariant forall i, k :: 0 <= i < ENTRIES && 0 <= k < ENTRIES ==>
          tables[i, k] == if i == t && k < j then 0 else old(tables[i, k])
      {
        tables[t, j] := 0;
        j := j + 1;
      }
    }

    method Set4MB(phys: Word, virt: Word, level: nat)
      requires Valid()
      modifies dir
      ensures Valid() && Regions() == MapBig(old(Regions()), phys, virt, level)
    {
      var pde := virt / MB4;
      dir[pde] := BigWord(phys, level);
      assert forall i :: 0 <= i < ENTRIES && i != pde ==> RegionAt(i) == old(RegionAt(i));
    }

    /** The first 4KB page set in a 4MB region starts from an empty table. */
    method ClearStaleTable(pde: nat)
      requires Valid() && pde < ENTRIES
      modifies tables
      ensures Valid() && TablePages(pde) == PagesOf(old(RegionAt(pde)))
      ensures forall i :: 0 <= i < ENTRIES && i != pde ==> RegionAt(i) == old(RegionAt(i))
    {
      if Has(dir[pde], PS) {
        FillPageTable(pde);
        assert !Has(0, P);
      }
    }

    method PointAtTable(pde: nat, level: nat)
      requires Valid() && pde < ENTRIES
      modifies dir
      ensures Valid() && RegionAt(pde) == Small(level == 3, TablePages(pde)) && !Has(dir[pde], PS)
      ensures forall i :: 0 <= i < ENTRIES && i != pde ==> RegionAt(i) == old(RegionAt(i))
    {
      dir[pde] := SmallWord(TABLES + KB4 * pde, level);
    }

    method WriteTableEntry(phys: Word, pde: nat, pte: nat, level: nat)
      requires Valid() && pde < ENTRIES && pte < ENTRIES
      modifies tables
      ensures Valid() && TablePages(pde) == old(TablePages(pde))[pte := Page(phys - phys % KB4, level == 3)]
      ensures !Has(dir[pde], PS) ==> RegionAt(pde) == Small(Has(dir[pde], US), TablePages(pde))
      ensures forall i :: 0 <= i < ENTRIES && i != pde ==> RegionAt(i) == old(RegionAt(i))
    {
      tables[pde, pte] := SmallWord(phys, level);
    }

    method Set4KB(phys: Word, virt: Word, level: nat)
      requires Valid()
      modifies dir, tables
      ensures Valid() && Regions() == MapSmall(old(Regions()), phys, virt, level)
    {
      var pde := virt / MB4;
      var pte := virt % MB4 / KB4;
      ClearStaleTable(pde);
      PointAtTable(pde, level);
      WriteTableEntry(phys, pde, pte, level);
      assert RegionAt(pde) == MapSmall(old(Regions()), phys, virt, level)[pde];
    }

    method ClearTableEntry(pde: nat, pte: nat)
      requires Valid() && pde < ENTRIES && pte < ENTRIES
      modifies tables
      ensures Valid() && TablePages(pde) == old(TablePages(pde)) - {pte}
      ensures forall i :: 0 <= i < ENTRIES && i != pde ==> RegionAt(i) == old(RegionAt(i))
    {
      tables[pde, pte] := 0;
      assert !Has(0, P);
    }

    method Free4KB(virt: Word)
      requires Valid()
      modifies tables
      ensures Valid() && Regions() == UnmapSmall(old(Regions()), virt)
    {
      var pde := virt / MB4;
      var pte := virt % MB4 / KB4;
      ClearTableEntry(pde, pte);
      assert RegionAt(pde) == UnmapSmall(old(Regions()), virt)[pde];
      assert forall i :: 0 <= i < ENTRIES && i != pde ==> RegionAt(i) == old(RegionAt(i));
    }

    method Free4MB(virt: Word)
      requires Valid()
      modifies dir
      ensures Valid() && Regions() == UnmapBig(old(Regions()), virt)
    {
      var pde := virt / MB4;
      dir[pde] := PS;
      assert Has(PS, PS) && !Has(PS, P);
      assert forall i :: 0 <= i < ENTRIES && i != pde ==> RegionAt(i) == old(RegionAt(i));
    }

    method PagePresent(virt: Word) returns (present: bool)
      requires Valid()
      ensures present <==> Lookup(Regions(), virt) != Fault
    {
      WalkIsLookup(virt);
      var pde := virt / MB4;
      var pte := virt % MB4 / KB4;
      present := Has(dir[pde], P) && (if Has(dir[pde], PS) then true else Has(tables[pde, pte], P));
    }

    method PageUser(virt: Word) returns (user: bool)
      requires Valid()
      ensures user <==> Lookup(Regions(), virt).At? && Lookup(Regions(), virt).user
    {
      var present := PagePresent(virt);
      if !present {
        return false;
      }
      WalkIsLookup(virt);
      var pde := virt / MB4;
      var pte := virt % MB4 / KB4;
      user := Has(dir[pde], US) && (if Has(dir[pde], PS) then true else Has(tables[pde, pte], US));
    }

    method PerformOn(call: Call)
      requires Valid()
      modifies dir, tables
      ensures Valid() && Regions() == Perform(old(Regions()), call)
    {
      match call
      case CallMapBig(phys, virt, level) => Set4MB(phys, virt, level);
      case CallMapSmall(phys, virt, level) => Set4KB(phys, virt, level);
      case CallUnmapBig(virt) => Free4MB(virt);
      case CallUnmapSmall(virt) => Free4KB(virt);
    }

    method PerformAllOn(calls: seq<Call>)
      requires Valid()
      modifies dir, tables
      ensures Valid() && Regions() == PerformAll(old(Regions()), calls)
    {
      hide Perform;
      var i := 0;
      while i < |calls|
        invariant 0 <= i <= |calls| && Valid()
        invariant Regions() == PerformAll(old(Regions()), calls[..i])
      {
        assert calls[..i + 1][..i] == calls[..i];
        PerformOn(calls[i]);
        i := i + 1;
      }
      assert calls[..i] == calls;
    }
  }

  /** From the empty directory on, after any calls, the walk over the words in memory reaches for every address
      what the address map of those calls says, whatever the tables held at first. */
  method WalkAfter(garbage: Garbage, calls: seq<Call>, virt: Word) returns (a: Access)
    ensures a == Lookup(PerformAll(NothingMapped(), calls), virt)
  {
    hide PerformAll;
    var mmu := new Mmu(garbage);
    mmu.PerformAllOn(calls);
    mmu.WalkIsLookup(virt);
    a := mmu.Walk(virt);
  }
}
