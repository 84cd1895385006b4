/**
 Two-level page tables of 32-bit paging (section 4.3 of the Intel SDM, volume 3A), kept in physical
 memory. Memory is an array of frames of 1024 words.
 */
module Paging {
  import opened Errors

  const FRAMES: nat := 0x10_0000
  const TABLE_SIZE: nat := 1024
  const PAGE_SIZE: nat := 4096
  const X86_PAGE_RW: set<nat> := {1}

  /** A 32-bit entry: the frame number in bits 12-31, bit 0, and which of bits 1-11 are set. */
  datatype Word = Word(frame: nat, present: bool, attrs: set<nat>)

  function PageOf(w: Word): Page { Page(w.frame, w.attrs) }

  /** The numeric value of ENOPAGE, which x86_get_phys_addr returns in place of an address. */
  const ENOPAGE_CODE: nat := 0x11

  /** Directory index of a virtual page. */
  function Pd(v: nat): nat { v / TABLE_SIZE }

  // ---------- the value of an address space ----------

  /** What a page table entry grants: a frame, with attribute bits. */
  datatype Page = Page(frame: nat, attrs: set<nat>)

  /** Page tables by directory index, and the entry of every mapped virtual page. */
  datatype Space = Space(tables: map<nat, nat>, pages: map<nat, Page>)

  /** Map virtual page v to p; `spare` is the frame to take should a table be missing. */
  function MapOne(s: Space, v: nat, p: Page, spare: nat): Space {
    Space(if Pd(v) in s.tables then s.tables else s.tables[Pd(v) := spare], s.pages[v := p])
  }

  /** Number of tables taken for the first n pages from v. */
  function Used(s: Space, v: nat, n: nat): nat {
    if n == 0 then 0
    else Used(s, v, n - 1) + (if Pd(v + n - 1) in s.tables || (n > 1 && Pd(v + n - 2) == Pd(v + n - 1)) then 0 else 1)
  }

  /** x86_map_pages on values, page by page. */
  function MapRange(s: Space, v: nat, p: nat, a: set<nat>, n: nat, spare: nat): Space {
    if n == 0 then s
    else MapOne(MapRange(s, v, p, a, n - 1, spare), v + n - 1, Page(p + n - 1, a), spare + Used(s, v, n - 1))
  }

  /** n frames from `spare` on that are neither the directory nor a page table. */
  ghost predicate Spare(s: Space, dir: nat, spare: nat, n: nat) {
    && (n > 0 ==> 0 < spare) && spare + n <= FRAMES
    && !(spare <= dir < spare + n)
    && forall i | i in s.tables :: !(spare <= s.tables[i] < spare + n)
  }

  /** Mapping a range maps each of its pages in order and touches no other page. */
  lemma {:induction false} MapRangePages(s: Space, v: nat, p: nat, a: set<nat>, n: nat, spare: nat)
    ensures var r := MapRange(s, v, p, a, n, spare);
      && (forall w :: w in r.pages <==> w in s.pages || v <= w < v + n)
      && (forall w | w in r.pages :: r.pages[w] == if v <= w < v + n then Page(p + (w - v), a) else s.pages[w])
  {
    if n > 0 { MapRangePages(s, v, p, a, n - 1, spare); }
  }

  /** The tables of the range are there afterwards, old ones in place, new ones on spare frames of their own. */
  lemma {:induction false} MapRangeTables(s: Space, v: nat, p: nat, a: set<nat>, n: nat, spare: nat)
    ensures var r := MapRange(s, v, p, a, n, spare);
      && (forall i :: i in r.tables <==> i in s.tables || (n > 0 && Pd(v) <= i <= Pd(v + n - 1)))
      && (forall i | i in s.tables :: r.tables[i] == s.tables[i])
      && (forall i | i in r.tables && i !in s.tables :: spare <= r.tables[i] < spare + Used(s, v, n))
      && (forall i, j | i in r.tables && j in r.tables && i !in s.tables && j !in s.tables && i != j :: r.tables[i] != r.tables[j])
  {
    if n > 0 {
      MapRangeTables(s, v, p, a, n - 1, spare);
      var q, r := MapRange(s, v, p, a, n - 1, spare), MapRange(s, v, p, a, n, spare);
      var i, u := Pd(v + n - 1), Used(s, v, n - 1);
      assert n > 1 ==> Pd(v + n - 2) <= i <= Pd(v + n - 2) + 1;
      assert i in q.tables <==> i in s.tables || (n > 1 && Pd(v + n - 2) == i);
      assert r.tables == if i in q.tables then q.tables else q.tables[i := spare + u];
      assert Used(s, v, n) == if i in q.tables then u else u + 1;
    }
  }

  /** One table is taken for each directory entry that was missing, no more. */
  lemma {:induction false} UsedIsExact(s: Space, v: nat, p: nat, a: set<nat>, n: nat, spare: nat)
    ensures |MapRange(s, v, p, a, n, spare).tables| == |s.tables| + Used(s, v, n)
  {
    if n > 0 {
      UsedIsExact(s, v, p, a, n - 1, spare);
      var q := MapRange(s, v, p, a, n - 1, spare);
      var pd, u := Pd(v + (n - 1)), Used(s, v, n - 1);
      TableNeeded(s, q, v, p, a, n - 1, spare, pd);
      if pd !in q.tables { OneMoreTable(q.tables, pd, spare + u); }
    }
  }

  lemma OneMoreTable(tables: map<nat, nat>, i: nat, frame: nat)
    requires i !in tables
    ensures |tables[i := frame]| == |tables| + 1
  {
    assert tables[i := frame].Keys == tables.Keys + {i};
  }

  lemma PdMono(a: nat, b: nat)
    requires a <= b
    ensures Pd(a) <= Pd(b) && (b < FRAMES ==> Pd(b) < TABLE_SIZE)
  {
  }

  /** Every mapped page is below the last one and has its table. */
  ghost predicate Reachable(s: Space) {
    forall v | v in s.pages :: v < FRAMES && Pd(v) in s.tables
  }

  /** The table frames of distinct directory entries are distinct and none is the directory. */
  ghost predicate Distinct(s: Space, dir: nat) {
    && (forall i | i in s.tables :: i < TABLE_SIZE && 0 < s.tables[i] < FRAMES && s.tables[i] != dir)
    && (forall i, j | i in s.tables && j in s.tables && i != j :: s.tables[i] != s.tables[j])
  }

  lemma MapRangeReachable(s: Space, v: nat, p: nat, a: set<nat>, n: nat, spare: nat)
    requires Reachable(s) && v + n <= FRAMES
    ensures Reachable(MapRange(s, v, p, a, n, spare))
  {
    MapRangeTables(s, v, p, a, n, spare);
    MapRangePages(s, v, p, a, n, spare);
    var r := MapRange(s, v, p, a, n, spare);
    forall w | w in r.pages ensures w < FRAMES && Pd(w) in r.tables {
      if v <= w < v + n {
        PdMono(v, w);
        PdMono(w, v + n - 1);
      }
    }
  }

  lemma MapRangeDistinct(s: Space, dir: nat, v: nat, p: nat, a: set<nat>, n: nat, spare: nat)
    requires Distinct(s, dir) && Spare(s, dir, spare, Used(s, v, n)) && v + n <= FRAMES
    ensures Distinct(MapRange(s, v, p, a, n, spare), dir)
  {
    MapRangeTables(s, v, p, a, n, spare);
    if n > 0 { PdMono(v + n - 1, v + n - 1); }
  }

  lemma {:induction false} UsedMono(s: Space, v: nat, m: nat, n: nat)
    requires m <= n
    ensures Used(s, v, m) <= Used(s, v, n)
  {
    if m < n { UsedMono(s, v, m, n - 1); }
  }

  // ---------- page tables in memory ----------

  /** The shape of physical memory. */
  predicate Memory(mem: array2<Word>, dir: nat) {
    mem.Length0 == FRAMES && mem.Length1 == TABLE_SIZE && dir < FRAMES
  }

  /** Directory entry i. */
  function Pde(mem: array2<Word>, dir: nat, i: nat): Word
    requires Memory(mem, dir) && i < TABLE_SIZE
    reads mem
  {
    mem[dir, i]
  }

  /** Page table entry of virtual page v. */
  function Pte(mem: array2<Word>, dir: nat, v: nat): Word
    requires Memory(mem, dir) && v < FRAMES && Pde(mem, dir, Pd(v)).frame < FRAMES
    reads mem
  {
    mem[Pde(mem, dir, Pd(v)).frame, v % TABLE_SIZE]
  }

  /**
   Memory holds a well-formed map rooted at dir: absent entries have no frame, present tables are
   distinct frames other than the directory.
   */
  ghost predicate Tables(mem: array2<Word>, dir: nat)
    reads mem
  {
    && Memory(mem, dir)
    && (forall i: nat {:trigger Pde(mem, dir, i)} | i < TABLE_SIZE ::
          if Pde(mem, dir, i).present then 0 < Pde(mem, dir, i).frame < FRAMES && Pde(mem, dir, i).frame != dir
          else Pde(mem, dir, i).frame == 0)
    && (forall i: nat, j: nat {:trigger Pde(mem, dir, i), Pde(mem, dir, j)} | i < j < TABLE_SIZE && Pde(mem, dir, i).present && Pde(mem, dir, j).present ::
          Pde(mem, dir, i).frame != Pde(mem, dir, j).frame)
    && (forall v: nat {:trigger Pte(mem, dir, v)} | v < FRAMES && Pde(mem, dir, Pd(v)).present && !Pte(mem, dir, v).present ::
          Pte(mem, dir, v).frame == 0)
  }

  predicate Mapped(mem: array2<Word>, dir: nat, v: nat)
    requires Memory(mem, dir) && v < FRAMES
    reads mem
  {
    Pde(mem, dir, Pd(v)).present && Pde(mem, dir, Pd(v)).frame < FRAMES && Pte(mem, dir, v).present
  }

  /** The address space a directory in memory describes. */
  ghost function View(mem: array2<Word>, dir: nat): Space
    requires Memory(mem, dir)
    reads mem
  {
    Space(map i: nat | i < TABLE_SIZE && Pde(mem, dir, i).present :: Pde(mem, dir, i).frame,
          map v: nat | v < FRAMES && Mapped(mem, dir, v) :: PageOf(Pte(mem, dir, v)))
  }

  /** x86_construct_pagetable: an empty map in the given frame. */
  method ConstructPagetable(mem: array2<Word>, dir: nat)
    requires Memory(mem, dir)
    modifies mem
    ensures Holds(mem, dir, Space(map[], map[]))
    ensures forall f, k | 0 <= f < FRAMES && 0 <= k < TABLE_SIZE && f != dir :: mem[f, k] == old(mem[f, k])
  {
    for i := 0 to TABLE_SIZE
      invariant forall k | 0 <= k < i :: mem[dir, k] == Word(0, false, X86_PAGE_RW)
      invariant forall f, k | 0 <= f < FRAMES && 0 <= k < TABLE_SIZE && f != dir :: mem[f, k] == old(mem[f, k])
    {
      mem[dir, i] := Word(0, false, X86_PAGE_RW);
    }
    assert View(mem, dir).tables == map[] && View(mem, dir).pages == map[];
  }

  /** initialize_pagetable: clear the table and enter it in the directory. */
  method InitializePagetable(mem: array2<Word>, dir: nat, table: nat, pd: nat)
    requires Memory(mem, dir) && table < FRAMES && pd < TABLE_SIZE && table != dir
    modifies mem
    ensures forall k | 0 <= k < TABLE_SIZE :: mem[table, k] == Word(0, false, {})
    ensures mem[dir, pd] == Word(table, true, old(mem[dir, pd].attrs))
    ensures forall f, k | 0 <= f < FRAMES && 0 <= k < TABLE_SIZE && f != table && (f != dir || k != pd) :: mem[f, k] == old(mem[f, k])
  {
    for i := 0 to TABLE_SIZE
      invariant forall k | 0 <= k < i :: mem[table, k] == Word(0, false, {})
      invariant forall f, k | 0 <= f < FRAMES && 0 <= k < TABLE_SIZE && f != table :: mem[f, k] == old(mem[f, k])
    {
      mem[table, i] := Word(0, false, {});
    }
    mem[dir, pd] := Word(table, true, mem[dir, pd].attrs);
  }

  lemma UsedStep(s: Space, v: nat, n: nat)
    ensures Used(s, v, n + 1) == Used(s, v, n) + (if Pd(v + n) in s.tables || (n > 0 && Pd(v + n - 1) == Pd(v + n)) then 0 else 1)
  {
  }

  /** The directory entry of the page before page i of a range. */
  function Before(v: nat, i: nat): int { if i == 0 then -1 else Pd(v + (i - 1)) }

  lemma BeforeStep(s: Space, v: nat, i: nat, pd: nat)
    requires v + i < FRAMES && pd == Pd(v + i)
    ensures Before(v, i) <= Before(v, i + 1) == pd < TABLE_SIZE
    ensures Used(s, v, i + 1) == Used(s, v, i) + (if pd in s.tables || Before(v, i) == pd then 0 else 1)
  {
    UsedStep(s, v, i);
    PdMono(v + i, v + i);
    if i > 0 { PdMono(v + i - 1, v + i); }
  }

  /** Memory holds the well-formed map q at dir. */
  ghost predicate Holds(mem: array2<Word>, dir: nat, q: Space)
    reads mem
  {
    Tables(mem, dir) && View(mem, dir) == q
  }

  lemma EntryPresent(mem: array2<Word>, dir: nat, q: Space, i: nat)
    requires Holds(mem, dir, q) && i < TABLE_SIZE
    ensures Memory(mem, dir)
    ensures mem[dir, i].present <==> i in q.tables
    ensures i in q.tables ==> q.tables[i] == mem[dir, i].frame && 0 < mem[dir, i].frame < FRAMES && mem[dir, i].frame != dir
  {
    assert Pde(mem, dir, i) == mem[dir, i];
  }

  /** What the map of a directory means to the processor: a page is mapped if its directory entry and its table entry are present. */
  lemma MapMeans(mem: array2<Word>, dir: nat, q: Space, v: nat)
    requires Holds(mem, dir, q) && v < FRAMES
    ensures v / 1024 < 1024 && Memory(mem, dir)
    ensures v in q.pages <==>
      mem[dir, v / 1024].present && mem[dir, v / 1024].frame < FRAMES && mem[mem[dir, v / 1024].frame, v % 1024].present
    ensures v in q.pages ==>
      var entry := mem[mem[dir, v / 1024].frame, v % 1024];
      q.pages[v] == Page(entry.frame, entry.attrs)
  {
    PdMono(v, v);
    EntryPresent(mem, dir, q, Pd(v));
    assert Pde(mem, dir, Pd(v)) == mem[dir, Pd(v)];
    assert v in q.pages <==> Mapped(mem, dir, v);
    if Pde(mem, dir, Pd(v)).frame < FRAMES { assert Pte(mem, dir, v) == mem[Pde(mem, dir, Pd(v)).frame, v % TABLE_SIZE]; }
  }

  /**
   x86_map_pages_get_page_count; v is the page number of the aligned address, and the range does
   not run past the last page.
   */
  method GetPageCount(mem: array2<Word>, dir: nat, v: nat, pages: nat, ghost s: Space) returns (count: nat)
    requires Holds(mem, dir, s) && v + pages <= FRAMES
    ensures count == Used(s, v, pages)
  {
    var last := -1;
    count := 0;
    for i := 0 to pages
      invariant count == Used(s, v, i)
      invariant last <= Before(v, i) && (i > 0 && Before(v, i) !in s.tables ==> last == Before(v, i))
    {
      var pd := Pd(v + i);
      BeforeStep(s, v, i, pd);
      EntryPresent(mem, dir, s, pd);
      if !mem[dir, pd].present {
        if pd != last {
          last := pd;
          count := count + 1;
        }
      }
    }
  }

  /** Frame f holds a page table of q. */
  ghost predicate IsTable(q: Space, f: nat) {
    exists i :: i in q.tables && q.tables[i] == f
  }

  ghost predicate TablesKept(q: Space, r: Space) {
    forall i | i in q.tables :: i in r.tables && r.tables[i] == q.tables[i]
  }

  /** Only the directory and the tables of q were written. */
  twostate predicate OnlyMap(mem: array2<Word>, new dir: nat, new q: Space)
    reads mem
  {
    Memory(mem, dir) && forall f: nat, k: nat | f < FRAMES && k < TABLE_SIZE && f != dir && !IsTable(q, f) :: mem[f, k] == old(mem[f, k])
  }

  /** Writing one map leaves another alone that has no frame in common with it. */
  twostate lemma OtherMapStays(mem: array2<Word>, new dir: nat, new r: Space, new e: nat, new q: Space)
    requires old(Holds(mem, e, q)) && OnlyMap(mem, dir, r)
    requires e != dir && !IsTable(r, e) && forall i | i in q.tables :: q.tables[i] != dir && !IsTable(r, q.tables[i])
    ensures Holds(mem, e, q)
  {
    forall i: nat | i < TABLE_SIZE ensures Pde(mem, e, i) == old(Pde(mem, e, i)) {}
    forall v: nat | v < FRAMES && Pde(mem, e, Pd(v)).present ensures Pte(mem, e, v) == old(Pte(mem, e, v)) {
      PdMono(v, v);
      assert q.tables[Pd(v)] == Pde(mem, e, Pd(v)).frame;
    }
    assert View(mem, e).tables == old(View(mem, e)).tables;
    forall v: nat | v < FRAMES ensures Mapped(mem, e, v) == old(Mapped(mem, e, v)) { PdMono(v, v); }
    assert View(mem, e).pages == old(View(mem, e)).pages;
  }

  /** One round of x86_map_pages, first half: a missing page table is made. */
  method AddTable(mem: array2<Word>, dir: nat, pd: nat, spare: nat, ghost q: Space)
    requires Holds(mem, dir, q) && pd < TABLE_SIZE && pd !in q.tables && Spare(q, dir, spare, 1)
    modifies mem
    ensures Holds(mem, dir, Space(q.tables[pd := spare], q.pages))
    ensures OnlyMap(mem, dir, Space(q.tables[pd := spare], q.pages))
  {
    forall i: nat | i < TABLE_SIZE && mem[dir, i].present ensures mem[dir, i].frame != spare {
      EntryPresent(mem, dir, q, i);
    }
    EntryPresent(mem, dir, q, pd);
    InitializePagetable(mem, dir, spare, pd);
    TableAdded(mem, dir, pd, spare);
    ghost var r := Space(q.tables[pd := spare], q.pages);
    assert pd in r.tables && r.tables[pd] == spare;
  }

  /** Table pd was entered in the directory, empty; every other entry is as before. */
  twostate predicate TableEntered(mem: array2<Word>, new dir: nat, new pd: nat, new spare: nat)
    reads mem
  {
    && Memory(mem, dir) && pd < TABLE_SIZE && old(!Pde(mem, dir, pd).present)
    && Pde(mem, dir, pd).present && Pde(mem, dir, pd).frame == spare && 0 < spare < FRAMES && spare != dir
    && (forall i: nat {:trigger Pde(mem, dir, i)} | i < TABLE_SIZE && i != pd ::
          Pde(mem, dir, i) == old(Pde(mem, dir, i)) && (Pde(mem, dir, i).present ==> 0 < Pde(mem, dir, i).frame < FRAMES && Pde(mem, dir, i).frame != spare))
    && (forall w: nat {:trigger Pte(mem, dir, w)} | w < FRAMES && Pd(w) < TABLE_SIZE && Pde(mem, dir, Pd(w)).present && Pde(mem, dir, Pd(w)).frame < FRAMES ::
          Pte(mem, dir, w) == if Pd(w) == pd then Word(0, false, {}) else old(Pte(mem, dir, w)))
  }

  twostate lemma EntriesWithTable(mem: array2<Word>, new dir: nat, new pd: nat, new spare: nat)
    requires old(Tables(mem, dir)) && pd < TABLE_SIZE && 0 < spare < FRAMES && spare != dir
    requires forall i | 0 <= i < TABLE_SIZE && old(mem[dir, i].present) :: old(mem[dir, i].frame) != spare
    requires old(!mem[dir, pd].present) && mem[dir, pd].present && mem[dir, pd].frame == spare
    requires forall k | 0 <= k < TABLE_SIZE :: mem[spare, k] == Word(0, false, {})
    requires forall f, k | 0 <= f < FRAMES && 0 <= k < TABLE_SIZE && f != spare && (f != dir || k != pd) :: mem[f, k] == old(mem[f, k])
    ensures TableEntered(mem, dir, pd, spare)
  {
    forall i: nat | i < TABLE_SIZE && i != pd ensures Pde(mem, dir, i) == old(Pde(mem, dir, i)) {}
    assert old(Pde(mem, dir, pd)) == old(mem[dir, pd]);
    forall w: nat | w < FRAMES ensures Pd(w) < TABLE_SIZE && w % TABLE_SIZE < TABLE_SIZE { PdMono(w, w); }
  }

  twostate lemma PagesWithTable(mem: array2<Word>, new dir: nat, new pd: nat, new spare: nat)
    requires old(Tables(mem, dir)) && TableEntered(mem, dir, pd, spare)
    ensures View(mem, dir).pages == old(View(mem, dir)).pages
  {
    forall w: nat | w < FRAMES ensures Mapped(mem, dir, w) == old(Mapped(mem, dir, w)) { PdMono(w, w); }
  }

  twostate lemma DirectoryWithTable(mem: array2<Word>, new dir: nat, new pd: nat, new spare: nat)
    requires old(Tables(mem, dir)) && TableEntered(mem, dir, pd, spare)
    ensures View(mem, dir).tables == old(View(mem, dir)).tables[pd := spare]
  {
  }

  twostate lemma WellFormedWithTable(mem: array2<Word>, new dir: nat, new pd: nat, new spare: nat)
    requires old(Tables(mem, dir)) && TableEntered(mem, dir, pd, spare)
    ensures Tables(mem, dir)
  {
  }

  twostate lemma TableAdded(mem: array2<Word>, new dir: nat, new pd: nat, new spare: nat)
    requires old(Tables(mem, dir)) && pd < TABLE_SIZE && 0 < spare < FRAMES && spare != dir
    requires forall i | 0 <= i < TABLE_SIZE && old(mem[dir, i].present) :: old(mem[dir, i].frame) != spare
    requires old(!mem[dir, pd].present) && mem[dir, pd].present && mem[dir, pd].frame == spare
    requires forall k | 0 <= k < TABLE_SIZE :: mem[spare, k] == Word(0, false, {})
    requires forall f, k | 0 <= f < FRAMES && 0 <= k < TABLE_SIZE && f != spare && (f != dir || k != pd) :: mem[f, k] == old(mem[f, k])
    ensures var s := old(View(mem, dir)); Holds(mem, dir, Space(s.tables[pd := spare], s.pages))
  {
    EntriesWithTable(mem, dir, pd, spare);
    WellFormedWithTable(mem, dir, pd, spare);
    DirectoryWithTable(mem, dir, pd, spare);
    PagesWithTable(mem, dir, pd, spare);
  }

  /** One round of x86_map_pages, second half: write the directory flags and the page table entry. */
  method SetEntry(mem: array2<Word>, dir: nat, v: nat, p: nat, attrs: set<nat>, ghost q: Space)
    requires Holds(mem, dir, q) && v < FRAMES && p < FRAMES && Pd(v) in q.tables
    modifies mem
    ensures Holds(mem, dir, Space(q.tables, q.pages[v := Page(p, attrs)]))
    ensures OnlyMap(mem, dir, Space(q.tables, q.pages[v := Page(p, attrs)]))
    ensures mem[dir, Pd(v)].attrs == old(mem[dir, Pd(v)].attrs) + attrs
  {
    var indexPD, indexPT := v / TABLE_SIZE, v % TABLE_SIZE;
    EntryPresent(mem, dir, q, indexPD);
    var table := mem[dir, indexPD].frame;
    mem[dir, indexPD] := Word(table, true, mem[dir, indexPD].attrs + attrs);
    mem[table, indexPT] := Word(p, true, attrs);
    EntryWritten(mem, dir, v, p, attrs);
    ghost var r := Space(q.tables, q.pages[v := Page(p, attrs)]);
    assert Pd(v) in r.tables && r.tables[Pd(v)] == table;
  }

  twostate lemma EntryWritten(mem: array2<Word>, new dir: nat, new v: nat, new p: nat, new attrs: set<nat>)
    requires old(Tables(mem, dir)) && v < FRAMES && old(mem[dir, Pd(v)].present)
    requires var table := old(mem[dir, Pd(v)].frame);
      && table < FRAMES && table != dir
      && mem[dir, Pd(v)].present && mem[dir, Pd(v)].frame == table
      && mem[table, v % TABLE_SIZE] == Word(p, true, attrs)
      && forall f, k | 0 <= f < FRAMES && 0 <= k < TABLE_SIZE && (f != dir || k != Pd(v)) && (f != table || k != v % TABLE_SIZE) ::
           mem[f, k] == old(mem[f, k])
    ensures Holds(mem, dir, Space(old(View(mem, dir)).tables, old(View(mem, dir)).pages[v := Page(p, attrs)]))
  {
    var s, r := old(View(mem, dir)), View(mem, dir);
    assert old(Pde(mem, dir, Pd(v))) == old(mem[dir, Pd(v)]);
    DirectoryKept(mem, dir, Pd(v));
    forall w: nat | w < FRAMES && w != v && Pde(mem, dir, Pd(w)).present
      ensures Pte(mem, dir, w) == old(Pte(mem, dir, w))
    {
      PdMono(w, w);
      if Pd(w) == Pd(v) { assert w % TABLE_SIZE != v % TABLE_SIZE; }
    }
    forall w: nat | w < FRAMES && w != v ensures Mapped(mem, dir, w) == old(Mapped(mem, dir, w)) { PdMono(w, w); }
    assert Pte(mem, dir, v) == Word(p, true, attrs);
    assert r.pages == s.pages[v := Page(p, attrs)];
  }

  /** Writing the attributes of one directory entry leaves the tables where they are. */
  twostate lemma DirectoryKept(mem: array2<Word>, new dir: nat, new pd: nat)
    requires old(Tables(mem, dir)) && pd < TABLE_SIZE && Memory(mem, dir)
    requires forall k: nat | k < TABLE_SIZE && k != pd :: mem[dir, k] == old(mem[dir, k])
    requires mem[dir, pd].present == old(mem[dir, pd].present) && mem[dir, pd].frame == old(mem[dir, pd].frame)
    ensures View(mem, dir).tables == old(View(mem, dir)).tables
    ensures forall i: nat | i < TABLE_SIZE ::
      Pde(mem, dir, i).present == old(Pde(mem, dir, i).present) && Pde(mem, dir, i).frame == old(Pde(mem, dir, i).frame)
  {
    forall i: nat | i < TABLE_SIZE
      ensures Pde(mem, dir, i).present == old(Pde(mem, dir, i).present) && Pde(mem, dir, i).frame == old(Pde(mem, dir, i).frame) {}
    assert View(mem, dir).tables == old(View(mem, dir)).tables;
  }

  /** The body of the loop of x86_map_pages: ok is false when a table is needed and none is left. */
  method MapNext(mem: array2<Word>, dir: nat, v: nat, p: nat, attrs: set<nat>, spare: nat, exhausted: bool, taken: nat, ghost q: Space)
    returns (ok: bool, taken': nat, ghost q': Space)
    requires Holds(mem, dir, q) && v < FRAMES && p < FRAMES
    requires Pd(v) !in q.tables ==> Spare(q, dir, spare, 1)
    modifies mem
    ensures ok <==> Pd(v) in q.tables || !exhausted
    ensures taken' == if Pd(v) in q.tables then taken else taken + 1
    ensures Holds(mem, dir, q') && q' == if ok then MapOne(q, v, Page(p, attrs), spare) else q
    ensures OnlyMap(mem, dir, q') && TablesKept(q, q')
  {
    PdMono(v, v);
    EntryPresent(mem, dir, q, Pd(v));
    var missing := !mem[dir, v / TABLE_SIZE].present;
    taken' := if missing then taken + 1 else taken;
    ok := !missing || !exhausted;
    q' := q;
    if ok {
      if missing { AddTable(mem, dir, v / TABLE_SIZE, spare, q); }
      ghost var s := Space(if missing then q.tables[Pd(v) := spare] else q.tables, q.pages);
      SetEntry(mem, dir, v, p, attrs, s);
      q' := MapOne(q, v, Page(p, attrs), spare);
    }
  }

  /** How far x86_map_pages has come: i pages mapped, `taken` of the spare frames used. */
  ghost predicate MappedSoFar(s: Space, q: Space, dir: nat, v: nat, p: nat, a: set<nat>, i: nat, n: nat, alloc: nat, taken: nat) {
    && i <= n && v + n <= FRAMES && Spare(s, dir, alloc, Used(s, v, n))
    && q == MapRange(s, v, p, a, i, alloc) && taken == Used(s, v, i)
  }

  /** Page i and the frame it is to get; when it needs a new table, the next spare frame is still spare. */
  lemma MapStep(s: Space, q: Space, dir: nat, v: nat, p: nat, a: set<nat>, i: nat, n: nat, alloc: nat, taken: nat, vi: nat, pi: nat, si: nat)
    requires MappedSoFar(s, q, dir, v, p, a, i, n, alloc, taken) && i < n
    requires vi == v + i && pi == p + i && si == alloc + taken
    ensures vi < FRAMES && (Pd(vi) !in q.tables ==> Spare(q, dir, si, 1) && taken < Used(s, v, n))
    ensures var taken' := if Pd(vi) in q.tables then taken else taken + 1;
      MappedSoFar(s, MapOne(q, vi, Page(pi, a), si), dir, v, p, a, i + 1, n, alloc, taken')
  {
    TableNeeded(s, q, v, p, a, i, alloc, Pd(vi));
    UsedMono(s, v, i + 1, n);
    if Pd(vi) !in q.tables { StillSpare(s, q, dir, v, p, a, i, n, alloc); }
  }

  lemma RangeEntry(s: Space, q: Space, v: nat, p: nat, a: set<nat>, i: nat, alloc: nat)
    requires q == MapRange(s, v, p, a, i, alloc)
    ensures Pd(v + i) in q.tables <==> Pd(v + i) in s.tables || (i > 0 && Pd(v + i - 1) == Pd(v + i))
  {
    MapRangeTables(s, v, p, a, i, alloc);
    if i > 0 { PdMono(v + i - 1, v + i); }
  }

  /** Page i takes a table exactly if the range so far has none for it. */
  lemma TableNeeded(s: Space, q: Space, v: nat, p: nat, a: set<nat>, i: nat, alloc: nat, pd: nat)
    requires q == MapRange(s, v, p, a, i, alloc) && pd == Pd(v + i)
    ensures Used(s, v, i + 1) == Used(s, v, i) + if pd in q.tables then 0 else 1
  {
    UsedStep(s, v, i);
    RangeEntry(s, q, v, p, a, i, alloc);
  }

  lemma StillSpare(s: Space, q: Space, dir: nat, v: nat, p: nat, a: set<nat>, i: nat, n: nat, alloc: nat)
    requires Spare(s, dir, alloc, Used(s, v, n)) && q == MapRange(s, v, p, a, i, alloc) && Used(s, v, i) < Used(s, v, n)
    ensures Spare(q, dir, alloc + Used(s, v, i), 1)
  {
    MapRangeTables(s, v, p, a, i, alloc);
  }

  /** One round of x86_map_pages, with the bookkeeping of the whole range. */
  method MapRound(mem: array2<Word>, dir: nat, v: nat, p: nat, attrs: set<nat>, i: nat, alloc: nat, allocCount: nat, taken: nat,
                  ghost n: nat, ghost s: Space, ghost q: Space) returns (ok: bool, taken': nat, ghost q': Space)
    requires Holds(mem, dir, q) && MappedSoFar(s, q, dir, v, p, attrs, i, n, alloc, taken)
    requires i < n && p + n <= FRAMES && Used(s, v, n) <= allocCount
    modifies mem
    ensures ok && Holds(mem, dir, q') && MappedSoFar(s, q', dir, v, p, attrs, i + 1, n, alloc, taken')
    ensures OnlyMap(mem, dir, q') && TablesKept(q, q')
  {
    var vi, pi, si := v + i, p + i, alloc + taken;
    MapStep(s, q, dir, v, p, attrs, i, n, alloc, taken, vi, pi, si);
    var exhausted := taken >= allocCount;
    ok, taken', q' := MapNext(mem, dir, vi, pi, attrs, si, exhausted, taken, q);
  }

  /** x86_map_pages; v, p and alloc are page numbers, allocCount the number of spare frames from alloc on. */
  method MapPages(mem: array2<Word>, dir: nat, v: nat, p: nat, pages: nat, attrs: set<nat>, alloc: nat, allocCount: nat, ghost s: Space) returns (r: Err)
    requires Holds(mem, dir, s) && v + pages <= FRAMES && p + pages <= FRAMES
    requires Used(s, v, pages) <= allocCount ==> Spare(s, dir, alloc, Used(s, v, pages))
    modifies mem
    ensures r == if Used(s, v, pages) > allocCount then ENOMEM else ESUCCESS
    ensures Holds(mem, dir, if r == ENOMEM then s else MapRange(s, v, p, attrs, pages, alloc))
    ensures r == ESUCCESS ==> OnlyMap(mem, dir, MapRange(s, v, p, attrs, pages, alloc))
    ensures r == ENOMEM ==> forall f: nat, k: nat | f < FRAMES && k < TABLE_SIZE :: mem[f, k] == old(mem[f, k])
  {
    var reqPageCount := GetPageCount(mem, dir, v, pages, s);
    if reqPageCount > allocCount { return ENOMEM; }
    var taken: nat := 0;
    ghost var q := s;
    for i := 0 to pages
      invariant Holds(mem, dir, q) && MappedSoFar(s, q, dir, v, p, attrs, i, pages, alloc, taken)
      invariant OnlyMap(mem, dir, q)
    {
      ghost var q0 := q;
      var ok;
      ok, taken, q := MapRound(mem, dir, v, p, attrs, i, alloc, allocCount, taken, pages, s, q);
      forall f | IsTable(q0, f) ensures IsTable(q, f) {
        var i :| i in q0.tables && q0.tables[i] == f;
        assert i in q.tables && q.tables[i] == f;
      }
      if !ok { return ENOMEM; }
    }
    r := ESUCCESS;
  }

  /**
   x86_get_phys_addr (and x86_get_map). The present bits are never looked at: the C test
   `flags & PRESENT == 0` parses as `flags & (PRESENT == 0)`, which is 0. Only a null table
   pointer is reported, as the number ENOPAGE: an unmapped page is told apart exactly when its
   whole table is missing, or by accident at the one offset equal to that number.
   */
  method GetPhysAddr(mem: array2<Word>, dir: nat, vaddress: nat, ghost q: Space) returns (addr: nat)
    requires Holds(mem, dir, q) && vaddress < FRAMES * PAGE_SIZE
    ensures var v, offset := vaddress / PAGE_SIZE, vaddress % PAGE_SIZE;
      && (v in q.pages ==> Pd(v) in q.tables && addr == q.pages[v].frame * PAGE_SIZE + offset)
      && (v !in q.pages ==> addr == if Pd(v) in q.tables then offset else ENOPAGE_CODE)
      && (v !in q.pages ==> (addr == ENOPAGE_CODE <==> Pd(v) !in q.tables || offset == ENOPAGE_CODE))
  {
    var v, offset := vaddress / PAGE_SIZE, vaddress % PAGE_SIZE;
    PdMono(v, v);
    EntryPresent(mem, dir, q, Pd(v));
    assert Pde(mem, dir, Pd(v)) == mem[dir, Pd(v)];
    var table := mem[dir, v / TABLE_SIZE].frame;
    if table == 0 { return ENOPAGE_CODE; }
    assert Pte(mem, dir, v) == mem[table, v % TABLE_SIZE];
    assert v in q.pages <==> Mapped(mem, dir, v);
    addr := mem[table, v % TABLE_SIZE].frame * PAGE_SIZE + offset;
  }
}
