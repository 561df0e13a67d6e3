/**
 * The page-frame allocator: 32 frames of 4 MiB, handed out first fit and mapped through one page
 * directory. Translation follows section 4.3 (32-bit paging, 4-MByte pages) of volume 3A of the Intel
 * 64 and IA-32 Architectures Software Developer's Manual.
 */
module Paging {
  import opened Machine

  const FRAME_SIZE := 0x40_0000
  const FRAME_COUNT := 32
  const ENTRY_COUNT := 1024
  const KERNEL_PAGE := 0x300

  datatype Flag = Flag(present: bool, write: bool, user: bool, writeThrough: bool,
                       cacheDisable: bool, accessed: bool, dirty: bool, large: bool)

  const NO_FLAG := Flag(false, false, false, false, false, false, false, false)
  const KERNEL_FLAG := Flag(true, true, false, false, false, false, false, true)
  const USER_FLAG := Flag(true, true, true, false, false, false, false, true)

  type Frame = x: nat | x < ENTRY_COUNT

  // The flag byte and the ten-bit frame address; the other bits stay zero.
  datatype Entry = Entry(flag: Flag, lower: Frame)

  const NO_ENTRY := Entry(NO_FLAG, 0)

  type Directory = d: seq<Entry> | |d| == ENTRY_COUNT witness seq<Entry>(ENTRY_COUNT, _ => NO_ENTRY)
  type FrameMap = m: seq<bool> | |m| == FRAME_COUNT witness seq<bool>(FRAME_COUNT, _ => false)

  datatype State = State(used: FrameMap, free: uint32, dir: Directory)

  // Bits 31 to 22 of an address.
  function Page(address: uint32): Frame {
    address / FRAME_SIZE % ENTRY_COUNT
  }

  // The physical address a linear address maps to.
  function Translate(dir: Directory, address: uint32): Option<nat> {
    var e := dir[Page(address)];
    if e.flag.present && e.flag.large then Some(e.lower * FRAME_SIZE + address % FRAME_SIZE) else None
  }

  // The entry as the processor reads it: the flags from bit 0 up, the frame in bits 31 to 22.

  function Bit(b: bool): nat {
    if b then 1 else 0
  }

  // Four flags as a number, least significant first.
  function Nibble(b0: bool, b1: bool, b2: bool, b3: bool): (n: nat)
    ensures n < 16
  {
    Bit(b0) + 2 * Bit(b1) + 4 * Bit(b2) + 8 * Bit(b3)
  }

  function Flags(f: Flag): (n: nat)
    ensures n < 0x100
  {
    Nibble(f.present, f.write, f.user, f.writeThrough)
    + 0x10 * Nibble(f.cacheDisable, f.accessed, f.dirty, f.large)
  }

  function Word(e: Entry): uint32 {
    Flags(e.flag) + e.lower * 0x40_0000
  }

  datatype Mode = User | Supervisor

  // Where an access goes: bit 0 must be set, and bit 7 for a 4 MiB page; user mode needs bit 2, and bit 1 to
  // write. The kernel leaves bit WP of CR0 clear, so it may write everywhere itself.
  function Access(dir: Directory, address: uint32, mode: Mode, write: bool): Option<nat> {
    var w := Word(dir[address / 0x40_0000]);
    if w % 2 == 1 && w / 0x80 % 2 == 1 && (mode.User? ==> w / 4 % 2 == 1 && (write ==> w / 2 % 2 == 1))
    then Some(w / 0x40_0000 * 0x40_0000 + address % 0x40_0000) else None
  }

  lemma NibbleBits(b0: bool, b1: bool, b2: bool, b3: bool)
    ensures var n := Nibble(b0, b1, b2, b3);
      && (n % 2 == 1 <==> b0) && (n / 2 % 2 == 1 <==> b1) && (n / 4 % 2 == 1 <==> b2) && (n / 8 == 1 <==> b3)
      && n / 8 < 2
  {
  }

  lemma Half(a: nat, b: nat)
    ensures (a + 2 * b) % 2 == a % 2 && (a + 2 * b) / 2 == a / 2 + b
  {
  }

  lemma Sixteenth(a: nat, b: nat)
    requires a < 16
    ensures (a + 16 * b) / 16 == b
  {
  }

  lemma Eighth(a: nat, b: nat)
    requires a < 8
    ensures (a + 8 * b) / 8 == b
  {
  }

  lemma Upper(a: nat, b: nat)
    requires a < 0x4_0000
    ensures (a + 0x4_0000 * b) / 0x4_0000 == b
  {
  }

  lemma HighBits(high: nat, lower: nat)
    requires high < 16
    ensures (high + 16 * (lower * 0x4000)) / 8 % 2 == high / 8
    ensures (high + 16 * (lower * 0x4000)) / 0x4_0000 == lower
  {
    var k := high + 16 * (lower * 0x4000);
    var top := high / 8;
    assert k == high % 8 + 8 * (top + 2 * (lower * 0x4000));
    Eighth(high % 8, top + 2 * (lower * 0x4000));
    Half(top, lower * 0x4000);
    assert k == high + 0x4_0000 * lower;
    Upper(high, lower);
  }

  lemma LowBits(low: nat, high: nat, lower: nat)
    requires low < 16 && high < 16
    ensures var w := low + 0x10 * high + lower * 0x40_0000;
      && w % 2 == low % 2 && w / 2 % 2 == low / 2 % 2 && w / 4 % 2 == low / 4 % 2 && w / 0x80 % 2 == high / 8
      && w / 0x40_0000 == lower
  {
    var w, k := low + 0x10 * high + lower * 0x40_0000, high + 16 * (lower * 0x4000);
    assert w == low + 16 * k;
    Half(low, 8 * k);
    Half(low / 2, 4 * k);
    Half(low / 4, 2 * k);
    assert w / 4 == w / 2 / 2 && low / 4 == low / 2 / 2;
    Sixteenth(low, k);
    HighBits(high, lower);
    assert w / 0x80 == w / 16 / 8 && w / 0x40_0000 == w / 16 / 0x4_0000;
  }

  lemma WordBits(e: Entry)
    ensures var w := Word(e);
      && (w % 2 == 1 <==> e.flag.present) && (w / 2 % 2 == 1 <==> e.flag.write) && (w / 4 % 2 == 1 <==> e.flag.user)
      && (w / 0x80 % 2 == 1 <==> e.flag.large) && w / 0x40_0000 == e.lower
  {
    var f := e.flag;
    NibbleBits(f.present, f.write, f.user, f.writeThrough);
    NibbleBits(f.cacheDisable, f.accessed, f.dirty, f.large);
    hide Nibble;
    LowBits(Nibble(f.present, f.write, f.user, f.writeThrough),
            Nibble(f.cacheDisable, f.accessed, f.dirty, f.large), e.lower);
  }

  // Access is translation for those whom the entry admits.
  lemma AccessTranslates(dir: Directory, address: uint32, mode: Mode, write: bool)
    ensures var f := dir[address / 0x40_0000].flag;
      Access(dir, address, mode, write) ==
        if mode.User? ==> f.user && (write ==> f.write) then Translate(dir, address) else None
  {
    WordBits(dir[address / 0x40_0000]);
    assert Page(address) == address / 0x40_0000;
    hide Word;
  }

  function FirstFree(used: FrameMap, from: nat): (i: nat)
    requires from <= FRAME_COUNT
    ensures from <= i <= FRAME_COUNT
    ensures i < FRAME_COUNT ==> !used[i]
    ensures forall j :: from <= j < i ==> used[j]
    decreases FRAME_COUNT - from
  {
    if from == FRAME_COUNT || !used[from] then from else FirstFree(used, from + 1)
  }

  function CountFree(used: seq<bool>): nat {
    if used == [] then 0 else CountFree(used[..|used| - 1]) + if used[|used| - 1] then 0 else 1
  }

  ghost predicate Counted(s: State) {
    s.free == CountFree(s.used)
  }

  lemma {:induction false} CountBound(used: seq<bool>)
    ensures CountFree(used) <= |used|
  {
    if used != [] {
      CountBound(used[..|used| - 1]);
    }
  }

  lemma {:induction false} CountUpdate(used: seq<bool>, i: nat, b: bool)
    requires i < |used|
    ensures CountFree(used[i := b]) == CountFree(used) + (if used[i] then 1 else 0) - (if b then 1 else 0)
  {
    var init, last := used[..|used| - 1], used[|used| - 1];
    if i < |used| - 1 {
      CountUpdate(init, i, b);
      assert used[i := b][..|used| - 1] == init[i := b];
    } else {
      assert used[i := b][..|used| - 1] == init;
    }
  }

  function Mapped(dir: Directory, physical: uint32, virtual: uint32, flag: Flag): Directory {
    dir[Page(virtual) := Entry(flag, Page(physical))]
  }

  function Wrapped(x: int): uint32 {
    x % 0x1_0000_0000
  }

  function Allocate(s: State, virtual: uint32): (bool, State) {
    var i := FirstFree(s.used, 0);
    if i == FRAME_COUNT then (false, s)
    else (true, State(s.used[i := true], Wrapped(s.free - 1),
                      Mapped(s.dir, i * FRAME_SIZE, virtual, USER_FLAG)))
  }

  // The frame to free is taken from the virtual address.
  function Free(s: State, virtual: uint32): (bool, State)
    requires virtual < FRAME_COUNT * FRAME_SIZE
  {
    var i := virtual / FRAME_SIZE;
    if !s.used[i] then (false, s)
    else (true, State(s.used[i := false], Wrapped(s.free + 1), Mapped(s.dir, i * FRAME_SIZE, virtual, NO_FLAG)))
  }

  // Updating the entry of one page maps or unmaps that page, keeping offsets, and no other.
  lemma MappedTranslates(dir: Directory, physical: uint32, virtual: uint32, flag: Flag, address: uint32)
    ensures Translate(Mapped(dir, physical, virtual, flag), address) ==
      if Page(address) != Page(virtual) then Translate(dir, address)
      else if flag.present && flag.large then Some(physical / FRAME_SIZE * FRAME_SIZE + address % FRAME_SIZE)
      else None
  {
    assert physical / FRAME_SIZE < ENTRY_COUNT;
  }

  // Runs.

  datatype Op = AllocateOp(virtual: uint32) | FreeOp(virtual: uint32)

  function Step(s: State, op: Op): State
    requires op.FreeOp? ==> op.virtual < FRAME_COUNT * FRAME_SIZE
  {
    match op
    case AllocateOp(v) => Allocate(s, v).1
    case FreeOp(v) => Free(s, v).1
  }

  function Run(s: State, ops: seq<Op>): State
    requires forall i :: 0 <= i < |ops| && ops[i].FreeOp? ==> ops[i].virtual < FRAME_COUNT * FRAME_SIZE
  {
    if ops == [] then s else Step(Run(s, ops[..|ops| - 1]), ops[|ops| - 1])
  }

  lemma StepCounts(s: State, op: Op)
    requires Counted(s) && (op.FreeOp? ==> op.virtual < FRAME_COUNT * FRAME_SIZE)
    ensures Counted(Step(s, op))
  {
    match op
    case AllocateOp(v) => AllocateCounts(s, v);
    case FreeOp(v) => FreeCounts(s, v);
  }

  lemma AllocateCounts(s: State, v: uint32)
    requires Counted(s)
    ensures Counted(Allocate(s, v).1)
  {
    hide Mapped, FirstFree;
    var i := FirstFree(s.used, 0);
    if i < FRAME_COUNT {
      CountUpdate(s.used, i, true);
      CountBound(s.used);
    }
  }

  lemma FreeCounts(s: State, v: uint32)
    requires Counted(s) && v < FRAME_COUNT * FRAME_SIZE
    ensures Counted(Free(s, v).1)
  {
    hide Mapped;
    if s.used[v / FRAME_SIZE] {
      CountUpdate(s.used, v / FRAME_SIZE, false);
      CountBound(s.used[v / FRAME_SIZE := false]);
    }
  }

  // The free count is the number of free frames after every sequence of allocations and frees.
  lemma {:induction false} RunCounts(s: State, ops: seq<Op>)
    requires Counted(s)
    requires forall i :: 0 <= i < |ops| && ops[i].FreeOp? ==> ops[i].virtual < FRAME_COUNT * FRAME_SIZE
    ensures Counted(Run(s, ops))
  {
    if ops != [] {
      RunCounts(s, ops[..|ops| - 1]);
      StepCounts(Run(s, ops[..|ops| - 1]), ops[|ops| - 1]);
    }
  }

  // At boot frame 0 is taken and the kernel is mapped at page 0 and at page 0x300.
  function Boot(): State {
    State(seq(FRAME_COUNT, i => i == 0), FRAME_COUNT - 1,
          seq(ENTRY_COUNT, i => if i == 0 || i == KERNEL_PAGE then Entry(KERNEL_FLAG, 0) else NO_ENTRY))
  }

  function Allocations(pages: seq<uint32>): seq<Op> {
    seq(|pages|, i requires 0 <= i < |pages| => AllocateOp(pages[i]))
  }

  // Addresses on pairwise different pages, none of them the kernel's.
  predicate UserPages(addresses: seq<uint32>) {
    && (forall i, j :: 0 <= i < j < |addresses| ==> Page(addresses[i]) != Page(addresses[j]))
    && (forall i :: 0 <= i < |addresses| ==> Page(addresses[i]) != KERNEL_PAGE)
  }

  function Min(a: nat, b: nat): nat {
    if a < b then a else b
  }

  // After n allocations from boot exactly the frames 0 to min(n, 31) are taken, the k-th address is
  // mapped to frame k + 1, and every other entry is as at boot.
  ghost predicate Handed(s: State, addresses: seq<uint32>) {
    var n := Min(|addresses|, FRAME_COUNT - 1);
    && s.free == FRAME_COUNT - 1 - n
    && (forall i :: 0 <= i < FRAME_COUNT ==> (s.used[i] <==> i <= n))
    && (forall k :: 0 <= k < n ==> s.dir[Page(addresses[k])] == Entry(USER_FLAG, k + 1))
    && (forall e: Frame :: (forall k :: 0 <= k < n ==> Page(addresses[k]) != e) ==> s.dir[e] == Boot().dir[e])
  }

  // At boot frame 0 alone is taken, and entries 0 and 0x300 map it for the supervisor.
  lemma BootWords(i: nat, e: Frame)
    ensures i < 32 ==> (Boot().used[i] <==> i == 0)
    ensures Boot().free == 31
    ensures Word(Boot().dir[e]) == if e == 0 || e == 0x300 then 0x83 else 0
  {
  }

  lemma BootHanded()
    ensures Handed(Boot(), [])
  {
  }

  lemma {:induction false} BootRun(addresses: seq<uint32>)
    requires UserPages(addresses)
    ensures Handed(Run(Boot(), Allocations(addresses)), addresses)
  {
    hide Boot, Handed, Allocate;
    BootHanded();
    if addresses != [] {
      var init, last := addresses[..|addresses| - 1], addresses[|addresses| - 1];
      BootRun(init);
      assert Allocations(addresses)[..|addresses| - 1] == Allocations(init);
      HandNext(Run(Boot(), Allocations(init)), addresses);
    }
  }

  lemma HandNext(s: State, addresses: seq<uint32>)
    requires addresses != [] && UserPages(addresses) && Handed(s, addresses[..|addresses| - 1])
    ensures Handed(Allocate(s, addresses[|addresses| - 1]).1, addresses)
    ensures Allocate(s, addresses[|addresses| - 1]).0 <==> |addresses| < FRAME_COUNT
  {
    hide Boot, FirstFree;
    var last := addresses[|addresses| - 1];
    var n := Min(|addresses| - 1, FRAME_COUNT - 1);
    NextFrame(s, addresses[..|addresses| - 1]);
    if n < FRAME_COUNT - 1 {
      assert Page((n + 1) * FRAME_SIZE) == n + 1;
      var s' := Allocate(s, last).1;
      assert s' == State(s.used[n + 1 := true], s.free - 1, s.dir[Page(last) := Entry(USER_FLAG, n + 1)]);
      hide Allocate, Page;
      HandDirectory(s, s', addresses);
    }
  }

  lemma HandDirectory(s: State, s': State, addresses: seq<uint32>)
    requires 0 < |addresses| < FRAME_COUNT && UserPages(addresses) && Handed(s, addresses[..|addresses| - 1])
    requires var n := |addresses|;
      s' == State(s.used[n := true], s.free - 1, s.dir[Page(addresses[n - 1]) := Entry(USER_FLAG, n)])
    ensures Handed(s', addresses)
  {
    hide Boot, Page;
    var n := |addresses|;
    forall e: Frame | forall k :: 0 <= k < n ==> Page(addresses[k]) != e ensures s'.dir[e] == Boot().dir[e] {
      assert Page(addresses[n - 1]) != e;
      assert forall k :: 0 <= k < n - 1 ==> addresses[..n - 1][k] == addresses[k];
    }
    assert forall k :: 0 <= k < n - 1 ==> addresses[..n - 1][k] == addresses[k];
  }

  lemma NextFrame(s: State, addresses: seq<uint32>)
    requires Handed(s, addresses)
    ensures FirstFree(s.used, 0) == Min(|addresses|, FRAME_COUNT - 1) + 1
  {
    hide Boot;
    var n := Min(|addresses|, FRAME_COUNT - 1);
    if n < FRAME_COUNT - 1 {
      assert !s.used[n + 1];
    }
  }

  // Hence an allocation-only run from boot gives each page its own frame, never frame 0, fails from the
  // 32nd call on without effect, and leaves the kernel mapping alone.
  lemma BootTranslates(addresses: seq<uint32>, k: nat, address: uint32)
    requires UserPages(addresses)
    ensures var dir := Run(Boot(), Allocations(addresses)).dir;
      && (k < Min(|addresses|, FRAME_COUNT - 1) && Page(address) == Page(addresses[k]) ==>
            Translate(dir, address) == Some((k + 1) * FRAME_SIZE + address % FRAME_SIZE))
      && (Page(address) == KERNEL_PAGE ==> Translate(dir, address) == Some(address % FRAME_SIZE))
    ensures |addresses| >= FRAME_COUNT ==>
      Run(Boot(), Allocations(addresses)) == Run(Boot(), Allocations(addresses[..|addresses| - 1]))
  {
    hide Run, Boot, FirstFree;
    BootRun(addresses);
    KernelEntry();
    if |addresses| >= FRAME_COUNT {
      var init := addresses[..|addresses| - 1];
      BootRun(init);
      HandNext(Run(Boot(), Allocations(init)), addresses);
      RunLast(addresses);
    }
  }

  // After any run of allocations from boot, user code reads and writes frame k + 1 through the k-th page,
  // and reaches nothing through page 0x300, which stays the supervisor's way to frame 0.
  lemma BootAccess(addresses: seq<uint32>, k: nat, address: uint32, mode: Mode, write: bool)
    requires UserPages(addresses)
    ensures var dir := Run(Boot(), Allocations(addresses)).dir;
      && (k < |addresses| && k < 31 && address / 0x40_0000 == addresses[k] / 0x40_0000 ==>
            Access(dir, address, mode, write) == Some((k + 1) * 0x40_0000 + address % 0x40_0000))
      && (address / 0x40_0000 == 0x300 ==>
            Access(dir, address, mode, write) == if mode.User? then None else Some(address % 0x40_0000))
  {
    hide Run, Boot, FirstFree, Translate, Access;
    BootRun(addresses);
    KernelEntry();
    var dir := Run(Boot(), Allocations(addresses)).dir;
    AccessTranslates(dir, address, mode, write);
    BootTranslates(addresses, k, address);
    assert Page(address) == address / 0x40_0000;
    if k < |addresses| {
      assert Page(addresses[k]) == addresses[k] / 0x40_0000;
    }
  }

  // The first allocation of the kernel hands page 0 to the user, as frame 1.
  lemma ShellPage(address: uint32, write: bool)
    requires address < 0x40_0000
    ensures Allocate(Boot(), 0).0
    ensures Access(Allocate(Boot(), 0).1.dir, address, User, write) == Some(0x40_0000 + address)
  {
    hide Boot, FirstFree, Access, Translate;
    BootAccess([0], 0, address, User, write);
    BootHanded();
    HandNext(Boot(), [0]);
    RunLast([0]);
    RunNothing();
    assert [0][..0] == [];
  }

  lemma RunNothing()
    ensures Run(Boot(), Allocations([])) == Boot()
  {
  }

  lemma KernelEntry()
    ensures Boot().dir[KERNEL_PAGE] == Entry(KERNEL_FLAG, 0)
  {
  }

  lemma RunLast(addresses: seq<uint32>)
    requires addresses != []
    ensures Run(Boot(), Allocations(addresses))
         == Allocate(Run(Boot(), Allocations(addresses[..|addresses| - 1])), addresses[|addresses| - 1]).1
  {
    assert Allocations(addresses)[..|addresses| - 1] == Allocations(addresses[..|addresses| - 1]);
  }

  // An allocation succeeds exactly when a frame is free, takes the lowest one, and opens it to everybody
  // through the address's page; no other page changes. A refused one changes nothing.
  lemma AllocateMaps(s: State, virtual: uint32, i: nat, address: uint32, mode: Mode, write: bool)
    ensures var (ok, s') := Allocate(s, virtual);
      && (ok <==> exists j :: 0 <= j < 32 && !s.used[j])
      && (!ok ==> s' == s)
      && (i < 32 && !s.used[i] && (forall j :: 0 <= j < i ==> s.used[j]) ==>
            && s'.used == s.used[i := true] && s'.free == (s.free - 1) % 0x1_0000_0000
            && Word(s'.dir[virtual / 0x40_0000]) == i * 0x40_0000 + 0x87
            && Access(s'.dir, address, mode, write) ==
                 if address / 0x40_0000 == virtual / 0x40_0000 then Some(i * 0x40_0000 + address % 0x40_0000)
                 else Access(s.dir, address, mode, write))
  {
    var f := FirstFree(s.used, 0);
    if f < FRAME_COUNT {
      AllocateState(s, virtual, f);
      UserWord(f);
      UserAccess(s.dir, virtual, f, address, mode, write);
    }
    hide Access, Mapped, Word;
  }

  lemma UserWord(i: Frame)
    ensures Word(Entry(USER_FLAG, i)) == i * 0x40_0000 + 0x87
  {
  }

  lemma AllocateState(s: State, virtual: uint32, i: nat)
    requires i == FirstFree(s.used, 0) < FRAME_COUNT
    ensures Allocate(s, virtual) ==
      (true, State(s.used[i := true], (s.free - 1) % 0x1_0000_0000, s.dir[virtual / 0x40_0000 := Entry(USER_FLAG, i)]))
  {
    hide FirstFree;
    assert Page(virtual) == virtual / 0x40_0000;
    assert Page(i * FRAME_SIZE) == i;
  }

  lemma UserAccess(dir: Directory, virtual: uint32, i: Frame, address: uint32, mode: Mode, write: bool)
    ensures Access(dir[virtual / 0x40_0000 := Entry(USER_FLAG, i)], address, mode, write) ==
      if address / 0x40_0000 == virtual / 0x40_0000 then Some(i * 0x40_0000 + address % 0x40_0000)
      else Access(dir, address, mode, write)
  {
    var dir' := dir[virtual / 0x40_0000 := Entry(USER_FLAG, i)];
    AccessTranslates(dir, address, mode, write);
    AccessTranslates(dir', address, mode, write);
    assert Page(address) == address / 0x40_0000;
    hide Access;
  }

  // A free succeeds exactly when the frame of the address's number was used, and then unmaps every address
  // of the page, for everybody, and no other; a refused one changes nothing.
  lemma FreeUnmaps(s: State, virtual: uint32, address: uint32, mode: Mode, write: bool)
    requires virtual < 128 * 0x10_0000
    ensures var (ok, s') := Free(s, virtual);
      && (ok <==> s.used[virtual / 0x40_0000])
      && (!ok ==> s' == s)
      && (ok ==>
            && s'.used == s.used[virtual / 0x40_0000 := false] && s'.free == (s.free + 1) % 0x1_0000_0000
            && Word(s'.dir[virtual / 0x40_0000]) == virtual / 0x40_0000 * 0x40_0000
            && Translate(s'.dir, address) == (if address / 0x40_0000 == virtual / 0x40_0000 then None
                                              else Translate(s.dir, address))
            && Access(s'.dir, address, mode, write) == (if address / 0x40_0000 == virtual / 0x40_0000 then None
                                                        else Access(s.dir, address, mode, write)))
  {
    var s' := Free(s, virtual).1;
    AccessTranslates(s.dir, address, mode, write);
    AccessTranslates(s'.dir, address, mode, write);
    assert Page(address) == address / 0x40_0000 && Page(virtual) == virtual / 0x40_0000;
    hide Access;
  }

  // Freeing the address just mapped gives back the frame exactly when the address lies in the frame of
  // the same number.
  lemma FreeUndoesAllocateIff(s: State, virtual: uint32)
    requires virtual < FRAME_COUNT * FRAME_SIZE && Allocate(s, virtual).0
    ensures Free(Allocate(s, virtual).1, virtual).1.used == s.used <==> virtual / FRAME_SIZE == FirstFree(s.used, 0)
  {
    var f, i := FirstFree(s.used, 0), virtual / FRAME_SIZE;
    var used := Free(Allocate(s, virtual).1, virtual).1.used;
    if i == f {
      assert s.used[f := true][f := false] == s.used;
    } else if s.used[i] {
      assert !used[i];
    } else {
      assert used[f];
    }
  }

  class PageManager {
    const used: array<bool>
    var free: uint32

    ghost predicate Valid() {
      used.Length == FRAME_COUNT
    }

    ghost function Now(dir: array<Entry>): State
      requires Valid() && dir.Length == ENTRY_COUNT
      reads this, used, dir
    {
      State(used[..], free, dir[..])
    }

    constructor ()
      ensures Valid() && fresh(used)
      ensures used[..] == Boot().used && free == Boot().free
    {
      used := new bool[FRAME_COUNT](i => i == 0);
      free := FRAME_COUNT - 1;
    }

    method UpdateDirectory(dir: array<Entry>, physical: uint32, virtual: uint32, flag: Flag)
      requires dir.Length == ENTRY_COUNT
      modifies dir
      ensures dir[..] == Mapped(old(dir[..]), physical, virtual, flag)
    {
      dir[Page(virtual)] := Entry(flag, Page(physical));
    }

    method AllocateFrame(dir: array<Entry>, virtual: uint32) returns (ok: bool)
      requires Valid() && dir.Length == ENTRY_COUNT
      modifies this, used, dir
      ensures (ok, Now(dir)) == Allocate(old(Now(dir)), virtual)
      ensures old(Counted(Now(dir))) ==> Counted(Now(dir))
    {
      StepCountsIf(Now(dir), AllocateOp(virtual));
      var i := 0;
      while i < FRAME_COUNT && used[i]
        invariant i <= FRAME_COUNT && FirstFree(used[..], 0) == FirstFree(used[..], i)
      {
        i := i + 1;
      }
      hide FirstFree, CountFree;
      if i == FRAME_COUNT {
        return false;
      }
      used[i] := true;
      free := Wrapped(free - 1);
      UpdateDirectory(dir, i * FRAME_SIZE, virtual, USER_FLAG);
      return true;
    }

    method FreeFrame(dir: array<Entry>, virtual: uint32) returns (ok: bool)
      requires Valid() && dir.Length == ENTRY_COUNT && virtual < FRAME_COUNT * FRAME_SIZE
      modifies this, used, dir
      ensures (ok, Now(dir)) == Free(old(Now(dir)), virtual)
      ensures old(Counted(Now(dir))) ==> Counted(Now(dir))
    {
      StepCountsIf(Now(dir), FreeOp(virtual));
      hide CountFree;
      var i := virtual / FRAME_SIZE;
      if !used[i] {
        return false;
      }
      used[i] := false;
      free := Wrapped(free + 1);
      UpdateDirectory(dir, i * FRAME_SIZE, virtual, NO_FLAG);
      return true;
    }
  }

  lemma StepCountsIf(s: State, op: Op)
    requires op.FreeOp? ==> op.virtual < FRAME_COUNT * FRAME_SIZE
    ensures Counted(s) ==> Counted(Step(s, op))
  {
    if Counted(s) {
      StepCounts(s, op);
    }
  }
}
