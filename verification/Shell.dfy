/**
 * The user shell's walk over the tree: the recursive search of find, and the directory stack of cd.
 * Both read directories by name through the driver and compare names as C strings.
 */
module Shell {
  import opened Machine
  import opened Layout
  import opened Volume
  import opened Operations
  import opened Reading
  import opened Crash
  import opened Conservation
  import opened Strings
  import opened Driver

  const STACK_SIZE := 100

  datatype DirectoryState = DirectoryState(name: Name, cluster: uint32, parent: uint32)

  // Extensions are zero, names are zero-padded, and no entry bears its own directory's name.
  ghost predicate WellNamed(v: Vol) {
    forall d: ClusterNo, i: nat :: Reach(v, d) && LiveAt(v, d, i) ==>
      var e := v.table[d][i];
      e.ext == NO_EXT && ZeroPadded(e.name) && e.name != v.table[d][0].name
  }

  // How the shell matches a stored name: strcmp over the name and the extension behind it.
  predicate Matches(e: DirEntry, name: seq<byte>) {
    CString(e.name + e.ext) == CString(name)
  }

  function DirRequest(name: Name, parent: uint32): Request {
    Request(name, NO_EXT, parent, CLUSTER_SIZE)
  }

  // Asking for `name` in directory `parent` opens the directory at path p.
  ghost predicate Opens(v: Vol, parent: uint32, name: Name, p: seq<Key>) {
    DirAt(v, p) != 0 &&
    if p == [] then parent == ROOT_CLUSTER && name == v.table[ROOT_CLUSTER][0].name
    else parent == DirAt(v, p[..|p| - 1]) && p[|p| - 1] == Key(name, NO_EXT)
  }

  lemma NameFound(t: Table, d: ClusterNo, i: nat)
    requires TableOk(t, d) && 2 <= i < TABLE_SIZE && t[i].Live()
    requires forall j :: 2 <= j < TABLE_SIZE && t[j].Live() ==> t[j].ext == NO_EXT && t[j].name != t[0].name
    ensures ScanName(t, t[i].name, 0) == i
  {
    var j := ScanName(t, t[i].name, 0);
    assert t[i].Id() != NO_KEY && t[i].name != NO_NAME;
  }

  lemma OpenChild(v: Vol, p: seq<Key>, name: Name)
    requires Weak(v) && WellNamed(v) && p != [] && DirAt(v, p) != 0 && p[|p| - 1] == Key(name, NO_EXT)
    ensures var d := DirAt(v, p[..|p| - 1]); var i := ScanName(v.table[d], name, 0);
      i < TABLE_SIZE && v.table[d][i].Head() == DirAt(v, p) && v.table[d][i].IsFolder() && v.table[d][i].fileSize == 0
  {
    var d, i := FolderOwned(v, p);
    assert TableOk(v.table[d], d) && EntryOk(v, v.table[d][i]);
    forall j | 2 <= j < TABLE_SIZE && v.table[d][j].Live()
      ensures v.table[d][j].ext == NO_EXT && v.table[d][j].name != v.table[d][0].name
    {
      assert LiveAt(v, d, j);
    }
    hide Weak, WellNamed, DirAt;
    NameFound(v.table[d], d, i);
  }

  lemma OpenRoot(v: Vol)
    requires Weak(v)
    ensures var t := v.table[ROOT_CLUSTER];
      ScanName(t, t[0].name, 0) == 0 && t[0].Head() == ROOT_CLUSTER && t[0].IsFolder() && t[0].fileSize == 0
  {
    assert DirAt(v, []) == ROOT_CLUSTER;
    assert Reach(v, ROOT_CLUSTER);
  }

  // The request is answered with the table of that directory.
  lemma OpenSucceeds(v: Vol, parent: uint32, name: Name, p: seq<Key>)
    requires Weak(v) && WellNamed(v) && Opens(v, parent, name, p)
    ensures parent < CLUSTER_MAP_SIZE && ReadDirectoryCode(v.table[parent], DirRequest(name, parent)) == 0
    ensures var i := ScanName(v.table[parent], name, 0);
      i < TABLE_SIZE && v.table[parent][i].Head() == DirAt(v, p)
  {
    hide Weak, WellNamed, ScanName, DirAt;
    if p == [] {
      OpenRoot(v);
      RootAlone(v, p);
    } else {
      OpenChild(v, p, name);
    }
  }

  // read_directory answers what the tree says: no such name, a file, or the folder, whose table it opens.
  ghost predicate OpensAsTree(v: Vol, dp: seq<Key>, req: Request)
    requires req.parent < CLUSTER_MAP_SIZE
  {
    var t, path := v.table[req.parent], dp + [Key(req.name, NO_EXT)];
    match Lookup(v, path)
    case None => ReadDirectoryCode(t, req) == 2
    case Some(File(_, _)) => ReadDirectoryCode(t, req) == 1
    case Some(Folder) => ReadDirectoryCode(t, req) == 0 && t[ScanName(t, req.name, 0)].Head() == DirAt(v, path)
  }

  lemma NamedWell(v: Vol, dp: seq<Key>, key: Key)
    requires WellNamed(v) && DirAt(v, dp) != 0 && Lookup(v, dp + [key]) != None
    ensures key.ext == NO_EXT && key.name != v.table[DirAt(v, dp)][0].name
  {
    hide WellNamed, DirAt;
    Step(v, dp, key);
    ListedWell(v, DirAt(v, dp), Scan(v.table[DirAt(v, dp)], key, 2), dp);
  }

  lemma ListedWell(v: Vol, d: ClusterNo, i: nat, dp: seq<Key>)
    requires WellNamed(v) && DirAt(v, dp) == d != 0 && LiveAt(v, d, i)
    ensures v.table[d][i].ext == NO_EXT && v.table[d][i].name != v.table[d][0].name
  {
    assert Reach(v, d);
  }

  lemma FolderNode(v: Vol, dp: seq<Key>, key: Key)
    requires Weak(v) && DirAt(v, dp) != 0 && Lookup(v, dp + [key]) == Some(Folder)
    ensures DirAt(v, dp + [key]) != 0
  {
    Step(v, dp, key);
    var i := Scan(v.table[DirAt(v, dp)], key, 2);
    ReachVisible(v, dp);
    assert EntryOk(v, v.table[DirAt(v, dp)][i]);
    HeadInChain(v.fat, v.table[DirAt(v, dp)][i].Head());
  }

  lemma FolderOpened(v: Vol, dp: seq<Key>, name: Name)
    requires Weak(v) && WellNamed(v) && DirAt(v, dp) != 0
    requires Lookup(v, dp + [Key(name, NO_EXT)]) == Some(Folder)
    ensures var t := v.table[DirAt(v, dp)]; var i := ScanName(t, name, 0);
      i < TABLE_SIZE && t[i].Head() == DirAt(v, dp + [Key(name, NO_EXT)])
  {
    hide Weak, WellNamed, DirAt, Lookup, ScanName;
    var path := dp + [Key(name, NO_EXT)];
    assert path[..|path| - 1] == dp;
    FolderNode(v, dp, Key(name, NO_EXT));
    OpenChild(v, path, name);
  }

  lemma NoNameNoNode(v: Vol, dp: seq<Key>)
    requires Weak(v) && DirAt(v, dp) != 0
    ensures Lookup(v, dp + [Key(NO_NAME, NO_EXT)]) == None
  {
    Step(v, dp, NO_KEY);
    ReachVisible(v, dp);
  }

  // It does so exactly when the name is neither all zero nor the directory's own.
  lemma ReadDirectoryByTree(v: Vol, dp: seq<Key>, req: Request)
    requires Weak(v) && WellNamed(v) && DirAt(v, dp) == req.parent != 0
    ensures OpensAsTree(v, dp, req) <==> req.name != NO_NAME && req.name != v.table[req.parent][0].name
  {
    hide Weak, WellNamed, DirAt, Lookup, ScanName, ReadDirectoryCode;
    ReadDirectoryAnswers(v, dp, req);
    forall ext: Ext | Lookup(v, dp + [Key(req.name, ext)]) != None
      ensures ext == NO_EXT && req.name != v.table[req.parent][0].name
    {
      NamedWell(v, dp, Key(req.name, ext));
    }
    if Lookup(v, dp + [Key(req.name, NO_EXT)]) == Some(Folder) {
      FolderOpened(v, dp, req.name);
    }
    if req.name == NO_NAME {
      NoNameNoNode(v, dp);
    }
  }

  // The root answers to the name the shell starts with exactly when its self entry carries that name.
  lemma RootAnswersIff(v: Vol, name: Name)
    requires Weak(v) && name != NO_NAME
    requires forall i: nat :: LiveAt(v, ROOT_CLUSTER, i) ==> v.table[ROOT_CLUSTER][i].name != name
    ensures ReadDirectoryCode(v.table[ROOT_CLUSTER], DirRequest(name, ROOT_CLUSTER)) ==
      if v.table[ROOT_CLUSTER][0].name == name then 0 else 2
  {
    OpenRoot(v);
    var t := v.table[ROOT_CLUSTER];
    assert DirAt(v, []) == ROOT_CLUSTER;
    assert Reach(v, ROOT_CLUSTER) && TableOk(t, ROOT_CLUSTER);
    forall i: nat | 1 <= i < TABLE_SIZE ensures t[i].name != name {
      assert i == 1 || t[i] == ZERO_ENTRY || LiveAt(v, ROOT_CLUSTER, i);
    }
  }

  // Depth is bounded: the directories along a path are pairwise different clusters.

  ghost function Ancestors(v: Vol, p: seq<Key>): set<ClusterNo> {
    if p == [] then {DirAt(v, p)} else Ancestors(v, p[..|p| - 1]) + {DirAt(v, p)}
  }

  lemma {:induction false} AncestorPath(v: Vol, p: seq<Key>, d: ClusterNo) returns (q: seq<Key>)
    requires d in Ancestors(v, p)
    ensures q <= p && DirAt(v, q) == d
  {
    q := p;
    if d != DirAt(v, p) {
      q := AncestorPath(v, p[..|p| - 1], d);
    }
  }

  lemma {:induction false} AncestorCount(v: Vol, p: seq<Key>)
    requires Weak(v) && DirAt(v, p) != 0
    ensures |Ancestors(v, p)| == |p| + 1
  {
    hide Weak;
    if p != [] {
      AncestorCount(v, p[..|p| - 1]);
      hide DirAt;
      if DirAt(v, p) in Ancestors(v, p[..|p| - 1]) {
        var q := AncestorPath(v, p[..|p| - 1], DirAt(v, p));
        PathUnique(v, p, q);
      }
    }
  }

  lemma {:induction false} SubsetSize(s: set<ClusterNo>, t: set<ClusterNo>)
    requires s <= t
    ensures |s| <= |t|
  {
    if s != {} {
      var x :| x in s;
      SubsetSize(s - {x}, t - {x});
    }
  }

  lemma DepthBound(v: Vol, p: seq<Key>)
    requires Weak(v) && DirAt(v, p) != 0
    ensures |p| < CLUSTER_MAP_SIZE
  {
    AncestorCount(v, p);
    FreeAndUsed(v.fat, CLUSTER_MAP_SIZE);
    forall d | d in Ancestors(v, p) ensures d in UsedBelow(v.fat, CLUSTER_MAP_SIZE) {
      var q := AncestorPath(v, p, d);
      AncestorReached(v, p, q);
      ReachVisible(v, q);
      VisibleUsed(v, d);
    }
    SubsetSize(Ancestors(v, p), UsedBelow(v.fat, CLUSTER_MAP_SIZE));
  }

  lemma {:induction false} AncestorReached(v: Vol, p: seq<Key>, q: seq<Key>)
    requires DirAt(v, p) != 0 && q <= p
    ensures DirAt(v, q) != 0
  {
    if q != p {
      AncestorReached(v, p[..|p| - 1], q);
    }
  }

  // Searching.

  // Some live entry strictly below the directory at path p has the name.
  ghost predicate Present(v: Vol, p: seq<Key>, name: seq<byte>) {
    exists q :: p < q && EntryAt(v, q).Some? && Matches(EntryAt(v, q).value, name)
  }

  // Slot i of the directory at path p has the name, or has it somewhere below.
  ghost predicate Within(v: Vol, p: seq<Key>, i: nat, name: seq<byte>) {
    && LiveAt(v, DirAt(v, p), i)
    && var e := v.table[DirAt(v, p)][i];
       Matches(e, name) || (e.IsFolder() && Present(v, p + [e.Id()], name))
  }

  lemma SlotPath(v: Vol, p: seq<Key>, i: nat)
    requires Weak(v) && DirAt(v, p) != 0 && LiveAt(v, DirAt(v, p), i)
    ensures var e := v.table[DirAt(v, p)][i];
      && EntryAt(v, p + [e.Id()]) == Some(e)
      && (e.IsFolder() ==> DirAt(v, p + [e.Id()]) == e.Head() != 0)
  {
    var d := DirAt(v, p);
    assert Reach(v, d);
    FindLive(v.table[d], d, i);
    Step(v, p, v.table[d][i].Id());
    assert EntryOk(v, v.table[d][i]);
    HeadInChain(v.fat, v.table[d][i].Head());
  }

  lemma EntryAbove(v: Vol, q: seq<Key>)
    requires q != [] && EntryAt(v, q).Some?
    ensures DirAt(v, q[..|q| - 1]) != 0
    ensures q[..|q| - 1] != [] ==> EntryAt(v, q[..|q| - 1]).Some?
  {
    hide Find;
  }

  lemma {:induction false} BelowFolder(v: Vol, p: seq<Key>, q: seq<Key>)
    requires p < q && EntryAt(v, q).Some?
    ensures DirAt(v, p) != 0 && EntryAt(v, q[..|p| + 1]).Some?
    ensures |p| + 1 < |q| ==> DirAt(v, q[..|p| + 1]) != 0
    decreases |q|
  {
    hide DirAt, EntryAt;
    var init := q[..|q| - 1];
    EntryAbove(v, q);
    if |p| + 1 < |q| {
      BelowFolder(v, p, init);
      assert init[..|p| + 1] == q[..|p| + 1];
      if |init| == |p| + 1 {
        assert init == q[..|p| + 1];
      }
    } else {
      assert init == p && q[..|p| + 1] == q;
    }
  }

  // A name is present below a directory exactly when some slot has it or leads to it.
  lemma PresentIffWithin(v: Vol, p: seq<Key>, name: seq<byte>)
    requires Weak(v) && DirAt(v, p) != 0
    ensures Present(v, p, name) <==> exists i: nat :: Within(v, p, i, name)
  {
    hide Weak, DirAt, EntryAt, Matches, Within;
    if q :| p < q && EntryAt(v, q).Some? && Matches(EntryAt(v, q).value, name) {
      var i := PresentSlot(v, p, q, name);
    }
    if i: nat :| Within(v, p, i, name) {
      WithinPresent(v, p, i, name);
    }
  }

  lemma WithinPresent(v: Vol, p: seq<Key>, i: nat, name: seq<byte>)
    requires Weak(v) && DirAt(v, p) != 0 && Within(v, p, i, name)
    ensures Present(v, p, name)
  {
    hide Weak, DirAt, EntryAt, Matches;
    SlotPath(v, p, i);
    var r := p + [v.table[DirAt(v, p)][i].Id()];
    assert p < r;
    if !Matches(v.table[DirAt(v, p)][i], name) {
      var q :| r < q && EntryAt(v, q).Some? && Matches(EntryAt(v, q).value, name);
      assert p < q;
    }
  }

  lemma PresentSlot(v: Vol, p: seq<Key>, q: seq<Key>, name: seq<byte>) returns (i: nat)
    requires Weak(v) && DirAt(v, p) != 0
    requires p < q && EntryAt(v, q).Some? && Matches(EntryAt(v, q).value, name)
    ensures Within(v, p, i, name)
  {
    var r := q[..|p| + 1];
    BelowFolder(v, p, q);
    i := SlotOf(v, p, r);
    if r != q {
      assert r < q;
      assert Present(v, r, name);
    }
  }

  // The slot of the entry a path names.
  lemma SlotOf(v: Vol, p: seq<Key>, r: seq<Key>) returns (i: nat)
    requires |r| == |p| + 1 && p <= r && EntryAt(v, r).Some?
    ensures LiveAt(v, DirAt(v, p), i)
    ensures var e := v.table[DirAt(v, p)][i];
      EntryAt(v, r) == Some(e) && r == p + [e.Id()] && (DirAt(v, r) != 0 ==> e.IsFolder())
  {
    hide Scan;
    assert r[..|r| - 1] == p;
    i := Scan(v.table[DirAt(v, p)], r[|r| - 1], 2);
  }

  // What find prints for slot i of the directory at path p: its name when it matches, else what the search
  // of the folder it lists prints.
  ghost function SlotPrintout(v: Vol, p: seq<Key>, i: nat, name: seq<byte>): seq<Name>
    requires Weak(v) && DirAt(v, p) != 0 && LiveAt(v, DirAt(v, p), i)
    decreases CLUSTER_MAP_SIZE - |p|, TABLE_SIZE - i, 0
  {
    var e := v.table[DirAt(v, p)][i];
    DepthBound(v, p);
    SlotPath(v, p, i);
    if Matches(e, name) then [e.name]
    else if e.IsFolder() then Printout(v, p + [e.Id()], 2, name)
    else []
  }

  // What find prints from slot i of the directory at path p on: slot by slot, up to the first match.
  ghost function Printout(v: Vol, p: seq<Key>, i: nat, name: seq<byte>): seq<Name>
    requires Weak(v) && DirAt(v, p) != 0 && 2 <= i <= TABLE_SIZE
    decreases CLUSTER_MAP_SIZE - |p|, TABLE_SIZE - i, 1
  {
    DepthBound(v, p);
    if i == TABLE_SIZE then []
    else if !LiveAt(v, DirAt(v, p), i) then Printout(v, p, i + 1, name)
    else
      SlotPrintout(v, p, i, name)
      + if Matches(v.table[DirAt(v, p)][i], name) then [] else Printout(v, p, i + 1, name)
  }

  // Every printed name matches.
  ghost predicate AllMatch(names: seq<Name>, name: seq<byte>) {
    forall n :: n in names ==> CString(n + NO_EXT) == CString(name)
  }

  lemma {:induction false} SlotPrintoutIff(v: Vol, p: seq<Key>, i: nat, name: seq<byte>)
    requires Weak(v) && WellNamed(v) && DirAt(v, p) != 0 && LiveAt(v, DirAt(v, p), i)
    ensures SlotPrintout(v, p, i, name) != [] <==> Within(v, p, i, name)
    ensures AllMatch(SlotPrintout(v, p, i, name), name)
    decreases CLUSTER_MAP_SIZE - |p|, TABLE_SIZE - i, 0
  {
    hide Weak, WellNamed, DirAt, Printout, Present;
    var e := v.table[DirAt(v, p)][i];
    DepthBound(v, p);
    SlotPath(v, p, i);
    EntryFacts(v, p, i);
    if !Matches(e, name) && e.IsFolder() {
      PrintoutIff(v, p + [e.Id()], name);
    }
  }

  lemma {:induction false} PrintoutFrom(v: Vol, p: seq<Key>, i: nat, name: seq<byte>)
    requires Weak(v) && WellNamed(v) && DirAt(v, p) != 0 && 2 <= i <= TABLE_SIZE
    ensures Printout(v, p, i, name) != [] <==> exists j: nat :: i <= j && Within(v, p, j, name)
    ensures AllMatch(Printout(v, p, i, name), name)
    decreases CLUSTER_MAP_SIZE - |p|, TABLE_SIZE - i, 1
  {
    hide Weak, WellNamed, DirAt, SlotPrintout, Present;
    DepthBound(v, p);
    SlotsEnd(v, p, name);
    if i < TABLE_SIZE {
      PrintoutFrom(v, p, i + 1, name);
      if LiveAt(v, DirAt(v, p), i) {
        SlotPrintoutIff(v, p, i, name);
      }
    }
  }

  // The search prints something exactly when the name is present, and only matches.
  lemma {:induction false} PrintoutIff(v: Vol, p: seq<Key>, name: seq<byte>)
    requires Weak(v) && WellNamed(v) && DirAt(v, p) != 0
    ensures Printout(v, p, 2, name) != [] <==> Present(v, p, name)
    ensures AllMatch(Printout(v, p, 2, name), name)
    decreases CLUSTER_MAP_SIZE - |p|, TABLE_SIZE - 2, 2
  {
    hide Weak, WellNamed, DirAt, Printout, Present, AllMatch;
    PrintoutFrom(v, p, 2, name);
    PresentIffWithin(v, p, name);
    SlotsEnd(v, p, name);
    hide Within;
  }

  // Moving around.

  const NOWHERE := DirectoryState(NO_NAME, 0, 0)

  datatype ShellState = ShellState(current: DirectoryState, stack: seq<DirectoryState>)

  const DOT_DOT: seq<byte> := [0x2E, 0x2E, 0]

  // A full stack refuses the push.
  function Pushed(stack: seq<DirectoryState>, d: DirectoryState): seq<DirectoryState> {
    if |stack| < STACK_SIZE then stack + [d] else stack
  }

  function FolderSlot(t: Table, name: seq<byte>, from: nat): (i: nat)
    requires from <= TABLE_SIZE
    ensures from <= i <= TABLE_SIZE
    ensures i < TABLE_SIZE ==> t[i].Live() && t[i].IsFolder() && Matches(t[i], name)
    ensures forall j :: from <= j < i ==> !(t[j].Live() && t[j].IsFolder() && Matches(t[j], name))
    decreases TABLE_SIZE - from
  {
    if from == TABLE_SIZE || (t[from].Live() && t[from].IsFolder() && Matches(t[from], name)) then from
    else FolderSlot(t, name, from + 1)
  }

  predicate IsUp(name: seq<byte>) {
    CString(name) == CString(DOT_DOT)
  }

  function Up(s: ShellState): ShellState {
    if s.stack == [] then s else ShellState(s.stack[|s.stack| - 1], s.stack[..|s.stack| - 1])
  }

  // Down from the directory with table t.
  function Down(t: Table, s: ShellState, name: seq<byte>): ShellState
    requires 8 <= |name|
  {
    var i := FolderSlot(t, name, 2);
    if i == TABLE_SIZE then s
    else ShellState(DirectoryState(name[..8], t[i].Head(), s.current.cluster), Pushed(s.stack, s.current))
  }

  // cd, given the table of the current directory.
  function CdResult(t: Table, s: ShellState, name: seq<byte>): ShellState
    requires 8 <= |name|
  {
    if IsUp(name) then Up(s) else Down(t, s, name)
  }

  class UserShell {
    const driver: Fat32Driver
    const stack: array<DirectoryState>
    var current: DirectoryState
    var top: int
    var output: seq<Name>

    ghost predicate Valid()
      reads this
    {
      driver.Valid() && stack.Length == STACK_SIZE && -1 <= top < STACK_SIZE
    }

    ghost function View(): Vol
      requires driver.Valid()
      reads driver.dev.blocks
    {
      ViewOf(driver.Content())
    }

    constructor (driver: Fat32Driver, name: Name)
      requires driver.Valid()
      ensures Valid() && this.driver == driver && output == [] && top == -1
      ensures current == DirectoryState(name, ROOT_CLUSTER, ROOT_CLUSTER) && fresh(stack)
    {
      this.driver := driver;
      stack := new DirectoryState[STACK_SIZE];
      current := DirectoryState(name, ROOT_CLUSTER, ROOT_CLUSTER);
      top := -1;
      output := [];
    }

    // The READ_DIR call; a failed one leaves the caller's table as it was.
    method Open(name: Name, parent: uint32, ghost p: seq<Key>) returns (table: Table)
      requires driver.Valid() && Weak(View()) && WellNamed(View()) && Opens(View(), parent, name, p)
      ensures DirAt(View(), p) != 0 && table == View().table[DirAt(View(), p)]
    {
      var buf := new DirEntry[TABLE_SIZE];
      OpenSucceeds(View(), parent, name, p);
      Views(driver.Content(), parent);
      Views(driver.Content(), DirAt(View(), p));
      hide ViewOf, Weak, WellNamed, DirAt, ScanName, ReadDirectoryCode, TableAt;
      var _ := driver.ReadDirectory(DirRequest(name, parent), buf);
      table := buf[..];
    }

    // Prints the first match of each directory it visits, and descends into the folders before it.
    method Find(name: seq<byte>, cluster: uint32, currentDir: Name, next: uint32, ghost p: seq<Key>)
      requires driver.Valid() && 0 in name && Weak(View()) && WellNamed(View())
      requires Opens(View(), cluster, currentDir, p) && next == DirAt(View(), p)
      modifies `output
      ensures View() == old(View())
      ensures DirAt(View(), p) != 0 && output == old(output) + Printout(View(), p, 2, name)
      ensures Printed(old(output), output, name)
      ensures old(output) < output <==> Present(View(), p, name)
      decreases CLUSTER_MAP_SIZE - |p|, 3
    {
      hide ViewOf, Weak, WellNamed, Present, DirAt, Printout;
      DepthBound(View(), p);
      PrintoutIff(View(), p, name);
      var table := Open(currentDir, cluster, p);
      SearchTable(name, next, table, p);
    }

    // Stops at the first slot that matches.
    method SearchTable(name: seq<byte>, next: uint32, table: Table, ghost p: seq<Key>)
      requires driver.Valid() && 0 in name && Weak(View()) && WellNamed(View())
      requires next == DirAt(View(), p) && next != 0 && table == View().table[next]
      modifies `output
      ensures View() == old(View())
      ensures output == old(output) + Printout(View(), p, 2, name)
      decreases CLUSTER_MAP_SIZE - |p|, 2
    {
      hide ViewOf, Weak, WellNamed, DirAt, DirEntry.Live, UserShell.View, SlotPrintout;
      ghost var v, before := View(), output;
      for i := 2 to TABLE_SIZE
        invariant View() == v && before + Printout(v, p, 2, name) == output + Printout(v, p, i, name)
      {
        var found := VisitSlot(name, next, table, p, i);
        if found {
          return;
        }
      }
    }

    // Skips a slot that is not live.
    method VisitSlot(name: seq<byte>, next: uint32, table: Table, ghost p: seq<Key>, i: nat) returns (found: bool)
      requires driver.Valid() && 0 in name && Weak(View()) && WellNamed(View()) && 2 <= i < TABLE_SIZE
      requires next == DirAt(View(), p) && next != 0 && table == View().table[next]
      modifies `output
      ensures View() == old(View())
      ensures old(output) + Printout(View(), p, i, name)
           == output + if found then [] else Printout(View(), p, i + 1, name)
      decreases CLUSTER_MAP_SIZE - |p|, 1
    {
      hide ViewOf, Weak, WellNamed, DirAt, SlotPrintout;
      found := false;
      if table[i].Live() {
        found := Visit(name, next, table[i], p, i);
      }
    }

    ghost function Directories(): ShellState
      requires Valid()
      reads this, stack
    {
      ShellState(current, stack[..top + 1])
    }

    method PushDirectory(d: DirectoryState)
      requires Valid()
      modifies this`top, stack
      ensures Valid()
      ensures Directories() == ShellState(current, Pushed(old(Directories()).stack, d))
    {
      if top < STACK_SIZE - 1 {
        top := top + 1;
        stack[top] := d;
      }
    }

    // An empty stack yields an empty directory.
    method PopDirectory() returns (d: DirectoryState)
      requires Valid()
      modifies this`top
      ensures Valid() && Directories().current == old(Directories()).current
      ensures old(Directories()).stack == [] ==>
        d == DirectoryState([0, 0, 0, 0, 0, 0, 0, 0], 0, 0) && Directories() == old(Directories())
      ensures old(Directories()).stack != [] ==> old(Directories()).stack == Directories().stack + [d]
    {
      if top < 0 {
        return NOWHERE;
      }
      d := stack[top];
      top := top - 1;
    }

    method Cd(name: seq<byte>, ghost p: seq<Key>)
      requires Valid() && 0 in name && 8 <= |name| && Weak(View()) && WellNamed(View())
      requires Opens(View(), current.parent, current.name, p) && current.cluster == DirAt(View(), p)
      modifies this`current, this`top, stack
      ensures Valid()
      ensures Directories() == CdResult(View().table[DirAt(View(), p)], old(Directories()), name)
    {
      hide ViewOf, Weak, WellNamed, DirAt, Opens, FolderSlot;
      var up := Strcmp(name, DOT_DOT);
      if up == 1 {
        CdUp();
      } else {
        CdDown(name, p);
      }
    }

    // Back to the directory on top of the stack.
    method CdUp()
      requires Valid()
      modifies this`current, this`top
      ensures Valid()
      ensures Directories() == Up(old(Directories()))
    {
      if top < 0 {
        return;
      }
      var d := PopDirectory();
      current := d;
    }

    // Into the first folder of the current directory that matches.
    method CdDown(name: seq<byte>, ghost p: seq<Key>)
      requires Valid() && 0 in name && 8 <= |name| && Weak(View()) && WellNamed(View())
      requires Opens(View(), current.parent, current.name, p) && current.cluster == DirAt(View(), p)
      modifies this`current, this`top, stack
      ensures Valid()
      ensures Directories() == Down(View().table[DirAt(View(), p)], old(Directories()), name)
    {
      hide ViewOf, Weak, WellNamed, DirAt, Opens, FolderSlot;
      var table := Open(current.name, current.parent, p);
      var i := FindFolderSlot(table, name, p);
      if i < TABLE_SIZE {
        PushDirectory(current);
        current := DirectoryState(name[..8], table[i].Head(), current.cluster);
      }
    }

    // The first live folder whose name matches.
    method FindFolderSlot(table: Table, name: seq<byte>, ghost p: seq<Key>) returns (i: nat)
      requires driver.Valid() && 0 in name && Weak(View()) && WellNamed(View())
      requires DirAt(View(), p) != 0 && table == View().table[DirAt(View(), p)]
      ensures i == FolderSlot(table, name, 2)
    {
      hide ViewOf, Weak, WellNamed, DirAt, Opens;
      i := 2;
      while i < TABLE_SIZE
        invariant 2 <= i <= TABLE_SIZE && FolderSlot(table, name, 2) == FolderSlot(table, name, i)
      {
        if table[i].Live() && table[i].attribute == ATTR_SUBDIRECTORY {
          EntryFacts(View(), p, i);
          var r := Strcmp(table[i].name + table[i].ext, name);
          if r == 1 {
            return i;
          }
        }
        i := i + 1;
      }
    }

    // One live entry: print it and stop, or search below it when it is a folder.
    method Visit(name: seq<byte>, next: uint32, e: DirEntry, ghost p: seq<Key>, ghost i: nat) returns (found: bool)
      requires driver.Valid() && 0 in name && Weak(View()) && WellNamed(View())
      requires next == DirAt(View(), p) && next != 0 && LiveAt(View(), next, i) && e == View().table[next][i]
      modifies `output
      ensures View() == old(View())
      ensures found <==> Matches(e, name)
      ensures output == old(output) + SlotPrintout(View(), p, i, name)
      decreases CLUSTER_MAP_SIZE - |p|, 0
    {
      hide ViewOf, Weak, WellNamed, Present, DirAt, Opens, Printout;
      EntryFacts(View(), p, i);
      DepthBound(View(), p);
      var r := Strcmp(e.name + e.ext, name);
      if r == 1 {
        output := output + [e.name];
        return true;
      } else if e.attribute == ATTR_SUBDIRECTORY {
        Find(name, next, e.name, e.Head(), p + [e.Id()]);
      }
      return false;
    }
  }

  // The output has only grown, by names that match.
  ghost predicate Printed(before: seq<Name>, after: seq<Name>, name: seq<byte>) {
    before <= after && AllMatch(after[|before|..], name)
  }

  lemma SlotsEnd(v: Vol, p: seq<Key>, name: seq<byte>)
    ensures forall j: nat :: Within(v, p, j, name) ==> 2 <= j < TABLE_SIZE
  {
  }

  // What the walk knows about a live entry of the directory it reads.
  lemma EntryFacts(v: Vol, p: seq<Key>, i: nat)
    requires Weak(v) && WellNamed(v) && DirAt(v, p) != 0 && LiveAt(v, DirAt(v, p), i)
    ensures var e := v.table[DirAt(v, p)][i];
      && e.ext == NO_EXT && e.Id() == Key(e.name, NO_EXT) && ZeroPadded(e.name)
      && (e.IsFolder() ==>
            Opens(v, DirAt(v, p), e.name, p + [e.Id()]) && e.Head() == DirAt(v, p + [e.Id()]))
  {
    SlotPath(v, p, i);
    assert Reach(v, DirAt(v, p));
    assert (p + [v.table[DirAt(v, p)][i].Id()])[..|p|] == p;
  }

  // The directory stack is the path to the current directory.

  // The state names the directory at path p and, by its parent, the directory above it.
  ghost predicate Describes(v: Vol, s: DirectoryState, p: seq<Key>) {
    Opens(v, s.parent, s.name, p) && s.cluster == DirAt(v, p)
  }

  ghost predicate StackIsPath(v: Vol, s: ShellState, p: seq<Key>) {
    && Describes(v, s.current, p)
    && |s.stack| == |p| <= STACK_SIZE
    && forall k :: 0 <= k < |p| ==> Describes(v, s.stack[k], p[..k])
  }

  // A path has one description, so the stack is determined by where the shell is.
  lemma StackDetermined(v: Vol, s: ShellState, s': ShellState, p: seq<Key>)
    requires StackIsPath(v, s, p) && StackIsPath(v, s', p)
    ensures s == s'
  {
    forall k | 0 <= k < |p| ensures s.stack[k] == s'.stack[k] {
      assert Describes(v, s.stack[k], p[..k]) && Describes(v, s'.stack[k], p[..k]);
    }
  }

  // A name as the shell receives it: terminated, and zero-padded to eight bytes.
  predicate Typed(name: seq<byte>) {
    8 <= |name| && 0 in name && ZeroPadded(name[..8])
  }

  // A typed name that matches a stored one has the same eight bytes.
  lemma TypedName(e: DirEntry, name: seq<byte>)
    requires Typed(name) && e.ext == NO_EXT && ZeroPadded(e.name) && Matches(e, name)
    ensures name[..8] == e.name
  {
    PaddedCString(e.name);
    var n := Index(e.name, 0);
    assert |CString(name)| == n;
    forall k | 0 <= k < 8 ensures name[k] == e.name[k] {
      if k < n {
        assert CString(name)[k] == e.name[..n][k];
      } else {
        assert name[..8][n] == 0;
      }
    }
  }

  // Where cd leads: up, down into a folder, or nowhere.
  ghost function CdPath(v: Vol, p: seq<Key>, name: seq<byte>): seq<Key> {
    if IsUp(name) then if p == [] then p else p[..|p| - 1]
    else
      var i := FolderSlot(v.table[DirAt(v, p)], name, 2);
      if i == TABLE_SIZE then p else p + [v.table[DirAt(v, p)][i].Id()]
  }

  // One cd keeps the stack equal to the path, unless it goes down from a full stack.
  lemma CdKeepsPath(v: Vol, s: ShellState, p: seq<Key>, name: seq<byte>)
    requires Weak(v) && WellNamed(v) && StackIsPath(v, s, p) && Typed(name)
    ensures var s' := CdResult(v.table[DirAt(v, p)], s, name);
      && Describes(v, s'.current, CdPath(v, p, name))
      && (StackIsPath(v, s', CdPath(v, p, name)) <==> |CdPath(v, p, name)| <= STACK_SIZE)
  {
    hide Weak, WellNamed, DirAt, IsUp, Matches;
    var d := DirAt(v, p);
    if IsUp(name) {
      if p != [] {
        assert Describes(v, s.stack[|p| - 1], p[..|p| - 1]);
        UpKeeps(v, s, p);
      }
    } else {
      var i := FolderSlot(v.table[d], name, 2);
      if i < TABLE_SIZE {
        EntryFacts(v, p, i);
        TypedName(v.table[d][i], name);
        DownKeeps(v, s, p, v.table[d][i]);
      }
    }
  }

  // Whether a typed name is two dots.
  lemma UpName(name: seq<byte>)
    requires Typed(name)
    ensures IsUp(name) <==> name[..3] == [0x2E, 0x2E, 0]
  {
    var n := Index(name, 0);
    assert CString(DOT_DOT) == DOT_DOT[..2] by {
      IndexIs(DOT_DOT, 0, 2);
    }
    if name[..3] == [0x2E, 0x2E, 0] {
      assert name[0] == name[..3][0] && name[1] == name[..3][1] && name[2] == name[..3][2];
      IndexIs(name, 0, 2);
    }
  }

  // What cd does, by what is typed and what the tree holds. Two dots lead up one directory, and nowhere
  // from the root; any other name leads into the folder it names in the current directory, if it is no
  // longer than the eight bytes a name may have, and nowhere otherwise.
  lemma CdAnswers(v: Vol, s: ShellState, p: seq<Key>, name: seq<byte>)
    requires Weak(v) && WellNamed(v) && StackIsPath(v, s, p) && Typed(name)
    ensures var s' := CdResult(v.table[DirAt(v, p)], s, name);
      var q := p + [Key(name[..8], NO_EXT)];
      if name[..3] == [0x2E, 0x2E, 0] then
        if p == [] then s' == s
        else Describes(v, s'.current, p[..|p| - 1]) && s'.stack == s.stack[..|s.stack| - 1]
      else if |CString(name)| <= 8 && Lookup(v, q) == Some(Folder) then
        Describes(v, s'.current, q) && s'.stack == if |p| < 100 then s.stack + [s.current] else s.stack
      else s' == s
  {
    hide Weak, WellNamed, DirAt, Lookup, IsUp, FolderSlot, Describes, Typed;
    UpName(name);
    if IsUp(name) {
      if p != [] {
        assert Describes(v, s.stack[|p| - 1], p[..|p| - 1]);
      }
    } else {
      CdDownAnswers(v, s, p, name);
    }
  }

  lemma CdDownAnswers(v: Vol, s: ShellState, p: seq<Key>, name: seq<byte>)
    requires Weak(v) && WellNamed(v) && StackIsPath(v, s, p) && Typed(name) && !IsUp(name)
    ensures var i := FolderSlot(v.table[DirAt(v, p)], name, 2); var q := p + [Key(name[..8], NO_EXT)];
      if i < TABLE_SIZE then
        && |CString(name)| <= 8 && Lookup(v, q) == Some(Folder)
        && Describes(v, CdResult(v.table[DirAt(v, p)], s, name).current, q)
      else |CString(name)| > 8 || Lookup(v, q) != Some(Folder)
  {
    hide Weak, WellNamed, DirAt, Lookup, IsUp, FolderSlot, Typed, Opens, Matches;
    var d := DirAt(v, p);
    var i := FolderSlot(v.table[d], name, 2);
    AtDirectory(v, s, p);
    if i < TABLE_SIZE {
      EntryFacts(v, p, i);
      TypedName(v.table[d][i], name);
      MatchedLength(v.table[d][i], name);
      ListedNode(v, p, i);
      CdKeepsPath(v, s, p, name);
    } else {
      NamedFolderSlot(v, p, name);
    }
  }

  lemma MatchedLength(e: DirEntry, name: seq<byte>)
    requires Matches(e, name) && ZeroPadded(e.name) && e.ext == NO_EXT
    ensures |CString(name)| <= 8
  {
    PaddedCString(e.name);
  }

  lemma AtDirectory(v: Vol, s: ShellState, p: seq<Key>)
    requires StackIsPath(v, s, p)
    ensures DirAt(v, p) != 0
  {
  }

  // A folder the path names sits in a slot that matches.
  lemma NamedFolderSlot(v: Vol, p: seq<Key>, name: seq<byte>)
    requires Weak(v) && DirAt(v, p) != 0 && Typed(name)
    ensures |CString(name)| <= 8 && Lookup(v, p + [Key(name[..8], NO_EXT)]) == Some(Folder) ==>
      FolderSlot(v.table[DirAt(v, p)], name, 2) < TABLE_SIZE
  {
    hide Weak, DirAt, FolderSlot, Matches, CString;
    var key := Key(name[..8], NO_EXT);
    if |CString(name)| <= 8 && Lookup(v, p + [key]) == Some(Folder) {
      Step(v, p, key);
      var j := Scan(v.table[DirAt(v, p)], key, 2);
      var e := v.table[DirAt(v, p)][j];
      PaddedMatches(e, name);
      assert e.Live() && e.IsFolder() && Matches(e, name);
    }
  }

  lemma PaddedMatches(e: DirEntry, name: seq<byte>)
    requires Typed(name) && e.Id() == Key(name[..8], NO_EXT) && |CString(name)| <= 8
    ensures Matches(e, name)
  {
    PaddedCString(e.name);
    IndexIn(name, 0);
    var n, m := Index(name, 0), Index(e.name, 0);
    hide Index;
    if n < 8 {
      assert name[..8][n] == 0 && forall k :: 0 <= k < n ==> name[..8][k] == name[..n][k] != 0;
      IndexIs(e.name, 0, n);
    } else {
      assert forall k :: 0 <= k < 8 ==> e.name[k] == name[..n][k] != 0;
      assert m == 8;
    }
    assert name[..n] == name[..8][..n];
  }

  lemma UpKeeps(v: Vol, s: ShellState, p: seq<Key>)
    requires StackIsPath(v, s, p) && p != []
    ensures StackIsPath(v, ShellState(s.stack[|s.stack| - 1], s.stack[..|s.stack| - 1]), p[..|p| - 1])
  {
    hide Describes;
    assert forall k :: 0 <= k < |p| - 1 ==> p[..|p| - 1][..k] == p[..k];
  }

  lemma DownKeeps(v: Vol, s: ShellState, p: seq<Key>, e: DirEntry)
    requires StackIsPath(v, s, p) && Opens(v, DirAt(v, p), e.name, p + [e.Id()]) && e.Head() == DirAt(v, p + [e.Id()])
    ensures var s' := ShellState(DirectoryState(e.name, e.Head(), s.current.cluster), Pushed(s.stack, s.current));
      && Describes(v, s'.current, p + [e.Id()])
      && (StackIsPath(v, s', p + [e.Id()]) <==> |p| < STACK_SIZE)
  {
    var q := p + [e.Id()];
    assert forall k :: 0 <= k < |p| ==> q[..k] == p[..k];
    assert q[..|p|] == p;
  }

  // cd into a folder and back up is the identity, unless the stack was full.
  lemma CdThereAndBack(v: Vol, s: ShellState, p: seq<Key>, name: seq<byte>, up: seq<byte>)
    requires Weak(v) && WellNamed(v) && StackIsPath(v, s, p) && Typed(name) && Typed(up)
    requires !IsUp(name) && IsUp(up) && FolderSlot(v.table[DirAt(v, p)], name, 2) < TABLE_SIZE
    ensures var q := CdPath(v, p, name);
      var s' := CdResult(v.table[DirAt(v, q)], CdResult(v.table[DirAt(v, p)], s, name), up);
      s' == s <==> |p| < STACK_SIZE
  {
    hide Weak, WellNamed, DirAt, Opens, IsUp, Matches, FolderSlot;
    var below := CdResult(v.table[DirAt(v, p)], s, name);
    if |p| < STACK_SIZE {
      assert below.stack[..|s.stack|] == s.stack;
    } else {
      assert |below.stack[..|below.stack| - 1]| < |s.stack|;
    }
  }

  // Runs of cd on an unchanged tree.

  ghost function CdRun(v: Vol, s: ShellState, p: seq<Key>, names: seq<seq<byte>>): (ShellState, seq<Key>)
    requires forall i :: 0 <= i < |names| ==> Typed(names[i])
    decreases |names|
  {
    if names == [] then (s, p)
    else
      assert Typed(names[0]);
      CdRun(v, CdResult(v.table[DirAt(v, p)], s, names[0]), CdPath(v, p, names[0]), names[1..])
  }

  // The run never goes deeper than the stack is long.
  ghost predicate Shallow(v: Vol, p: seq<Key>, names: seq<seq<byte>>)
    decreases |names|
  {
    |p| <= STACK_SIZE && (names == [] || Shallow(v, CdPath(v, p, names[0]), names[1..]))
  }

  lemma {:induction false} CdRunKeepsPath(v: Vol, s: ShellState, p: seq<Key>, names: seq<seq<byte>>)
    requires Weak(v) && WellNamed(v) && StackIsPath(v, s, p)
    requires (forall i :: 0 <= i < |names| ==> Typed(names[i])) && Shallow(v, p, names)
    ensures StackIsPath(v, CdRun(v, s, p, names).0, CdRun(v, s, p, names).1)
    decreases |names|
  {
    if names != [] {
      hide Weak, WellNamed, StackIsPath, Typed, CdResult, CdPath, DirAt, Describes;
      CdKeepsPath(v, s, p, names[0]);
      CdRunKeepsPath(v, CdResult(v.table[DirAt(v, p)], s, names[0]), CdPath(v, p, names[0]), names[1..]);
    }
  }

  // The shell starts at the root when the root's self entry carries its starting name.
  lemma StartsAtRoot(v: Vol, name: Name)
    requires Weak(v)
    ensures StackIsPath(v, ShellState(DirectoryState(name, ROOT_CLUSTER, ROOT_CLUSTER), []), [])
      <==> v.table[ROOT_CLUSTER][0].name == name
  {
    RootAlone(v, []);
  }
}
