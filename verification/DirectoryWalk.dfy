/** The recursive directory search of tm_stm32_fatfs.c: one path buffer is shared by all
    levels, extended before a descent and cut back after it. */
module DirectoryWalk {
  import opened Bytes
  import opened FatResults

  // ---- The volume -----------------------------------------------------------

  datatype Option<+T> = None | Some(value: T)

  datatype Entry = FileEntry(name: string) | DirEntry(name: string, kids: seq<Entry>)

  const NUL: char := '\0'

  predicate GoodName(name: string)
  {
    name != "" && '/' !in name && NUL !in name
  }

  /** What FAT guarantees: proper names, no two alike in one folder. */
  predicate WellFormed(kids: seq<Entry>)
  {
    kids != [] ==>
      && GoodName(kids[0].name)
      && (forall k :: 1 <= k < |kids| ==> kids[k].name != kids[0].name)
      && (kids[0].DirEntry? ==> WellFormed(kids[0].kids))
      && WellFormed(kids[1..])
  }

  function Lookup(kids: seq<Entry>, name: string): Option<Entry>
  {
    if kids == [] then None
    else if kids[0].name == name then Some(kids[0])
    else Lookup(kids[1..], name)
  }

  /** The first component of a path that has lost its leading slash. */
  function Component(path: string): (c: string)
    ensures |c| <= |path| && path[..|c|] == c && '/' !in c
    ensures |c| < |path| ==> path[|c|] == '/'
  {
    if path == "" || path[0] == '/' then "" else [path[0]] + Component(path[1..])
  }

  /** The folder a path denotes, as its list of entries. */
  function Resolve(kids: seq<Entry>, path: string): Option<seq<Entry>>
    decreases |path|
  {
    if path == "" then Some(kids)
    else if path[0] != '/' then None
    else
      var name := Component(path[1..]);
      match Lookup(kids, name)
      case Some(DirEntry(_, sub)) => Resolve(sub, path[1 + |name|..])
      case _ => None
  }

  lemma {:induction false} LookupAt(kids: seq<Entry>, k: nat)
    requires WellFormed(kids) && k < |kids|
    ensures Lookup(kids, kids[k].name) == Some(kids[k]) && GoodName(kids[k].name)
    ensures kids[k].DirEntry? ==> WellFormed(kids[k].kids)
  {
    if k > 0 {
      LookupAt(kids[1..], k - 1);
    }
  }

  lemma {:induction false} ComponentAppend(path: string, tail: string)
    requires tail == "" || tail[0] == '/'
    ensures Component(path + tail) == Component(path)
  {
    if path == "" || path[0] == '/' {
      assert path == "" ==> path + tail == tail;
    } else {
      assert (path + tail)[1..] == path[1..] + tail;
      ComponentAppend(path[1..], tail);
    }
  }

  lemma Slashed(path: string, name: string)
    ensures path + "/" + name == path + ("/" + name)
  {
  }

  lemma TailSlices(path: string, tail: string)
    requires path != "" && tail != "" && tail[0] == '/'
    ensures var c := Component(path[1..]);
            Component((path + tail)[1..]) == c && (path + tail)[1 + |c|..] == path[1 + |c|..] + tail
  {
    ComponentAppend(path[1..], tail);
    hide Component;
    assert (path + tail)[1..] == path[1..] + tail;
  }

  /** Extending a path that has a first component does not change that component. */
  lemma ExtendedSlices(path: string, name: string)
    requires path != "" && path[0] == '/'
    ensures var c, longer := Component(path[1..]), path + "/" + name;
            && longer[0] == '/'
            && Component(longer[1..]) == c
            && longer[1 + |c|..] == path[1 + |c|..] + "/" + name
  {
    hide Component;
    TailSlices(path, "/" + name);
    Slashed(path, name);
    Slashed(path[1 + |Component(path[1..])|..], name);
  }

  /** Extending the path by a folder's name moves on to that folder. */
  lemma {:induction false} ResolveChild(root: seq<Entry>, path: string, name: string)
    requires GoodName(name) && Resolve(root, path).Some?
    requires Lookup(Resolve(root, path).value, name).Some?
    requires Lookup(Resolve(root, path).value, name).value.DirEntry?
    ensures Resolve(root, path + "/" + name)
         == Some(Lookup(Resolve(root, path).value, name).value.kids)
    decreases |path|
  {
    if path == "" {
      var tail := "/" + name;
      assert path + "/" + name == tail && tail[1..] == name;
      ComponentWhole(name);
      assert tail[1 + |name|..] == "";
    } else {
      var c := Component(path[1..]);
      ExtendedSlices(path, name);
      ResolveChild(Lookup(root, c).value.kids, path[1 + |c|..], name);
    }
  }

  /** An entry of the folder at `path`, and the folder that it may be. */
  lemma EntryAt(root: seq<Entry>, path: string, kids: seq<Entry>, k: nat)
    requires Resolve(root, path) == Some(kids) && WellFormed(kids) && k < |kids|
    ensures GoodName(kids[k].name) && kids[k].name != ""
    ensures kids[k].DirEntry? ==>
              Resolve(root, path + "/" + kids[k].name) == Some(kids[k].kids) && WellFormed(kids[k].kids)
  {
    LookupAt(kids, k);
    if kids[k].DirEntry? {
      ResolveChild(root, path, kids[k].name);
    }
  }

  lemma {:induction false} ComponentWhole(name: string)
    requires '/' !in name
    ensures Component(name) == name
  {
    if name != "" {
      ComponentWhole(name[1..]);
    }
  }

  // ---- What the search visits -----------------------------------------------

  datatype Visit = Visit(path: string, isFile: bool)

  /** The callback: false asks for the search to stop. */
  type Callback = (string, bool) -> bool

  /** The visits of a scan, whether the path buffer was long enough for it, and the path that is
      left in the buffer. */
  datatype Outcome = Outcome(visits: seq<Visit>, room: bool, left: string)

  /** One folder, entry by entry, until the room or the callback's patience runs out. */
  function Scan(kids: seq<Entry>, path: string, size: nat, cb: Callback): (o: Outcome)
  {
    if kids == [] then Outcome([], true, path)
    else
      var one := ScanOne(kids[0], path, size, cb);
      if !one.room || !Continues(kids[0], path, cb) then one
      else
        var rest := Scan(kids[1..], path, size, cb);
        Outcome(one.visits + rest.visits, rest.room, rest.left)
  }

  /** Running out of room in a folder below leaves the path as it is there. */
  function ScanOne(e: Entry, path: string, size: nat, cb: Callback): (o: Outcome)
    ensures o.room ==> o.left == path
  {
    if Hidden(e) then Outcome([], true, path)
    else if |path| + |e.name| + 1 >= size then Outcome([], false, path)
    else
      var p := path + "/" + e.name;
      var sub := if e.DirEntry? && cb(p, false) then Scan(e.kids, p, size, cb) else Outcome([], true, p);
      Outcome([Visit(p, e.FileEntry?)] + sub.visits, sub.room, if sub.room then path else sub.left)
  }

  /** A callback that says stop ends the folder it was called in, not the folders above. */
  predicate Continues(e: Entry, path: string, cb: Callback)
  {
    Hidden(e) || cb(path + "/" + e.name, e.FileEntry?)
  }

  predicate Hidden(e: Entry)
  {
    e.name != "" && e.name[0] == '.'
  }

  /** All entries reachable without passing a dot-named one, with their paths. */
  function Listing(kids: seq<Entry>, path: string): seq<Visit>
  {
    if kids == [] then []
    else if Hidden(kids[0]) then Listing(kids[1..], path)
    else
      var p := path + "/" + kids[0].name;
      var below := if kids[0].DirEntry? then Listing(kids[0].kids, p) else [];
      [Visit(p, kids[0].FileEntry?)] + below + Listing(kids[1..], path)
  }

  // The same by another way: the tree without its dot-named entries, and everything in it.

  /** Entries whose names begin with a dot, and all below them, taken out. */
  function Undotted(kids: seq<Entry>): seq<Entry>
  {
    if kids == [] then []
    else
      var rest := Undotted(kids[1..]);
      if kids[0].name != "" && kids[0].name[0] == '.' then rest
      else
        match kids[0]
        case FileEntry(_) => [kids[0]] + rest
        case DirEntry(name, sub) => [DirEntry(name, Undotted(sub))] + rest
  }

  /** Every entry of a tree, with its path. */
  function AllPaths(kids: seq<Entry>, path: string): seq<Visit>
  {
    if kids == [] then []
    else
      var p := path + "/" + kids[0].name;
      [Visit(p, kids[0].FileEntry?)]
      + (if kids[0].DirEntry? then AllPaths(kids[0].kids, p) else [])
      + AllPaths(kids[1..], path)
  }

  /** What is listed is everything in the tree without its dot-named entries, and what is counted
      are its files and folders. */
  lemma {:induction false} ListingIsUndotted(kids: seq<Entry>, path: string)
    ensures Listing(kids, path) == AllPaths(Undotted(kids), path)
    ensures CountFiles(kids) == Tally(AllPaths(Undotted(kids), path), true)
    ensures CountFolders(kids) == Tally(AllPaths(Undotted(kids), path), false)
  {
    ListingTally(kids, path);
    if kids != [] {
      ListingIsUndotted(kids[1..], path);
      if kids[0].DirEntry? {
        ListingIsUndotted(kids[0].kids, path + "/" + kids[0].name);
      }
    }
  }

  /** No component of the path, from character `from` on, begins with a dot. */
  predicate DotFree(path: string, from: nat)
  {
    forall k :: from <= k < |path| - 1 && path[k] == '/' ==> path[k + 1] != '.'
  }

  /** No listed path passes a component that begins with a dot. */
  lemma {:induction false} ListingIsDotFree(kids: seq<Entry>, path: string)
    requires WellFormed(kids)
    ensures forall v :: v in Listing(kids, path) ==> path <= v.path && DotFree(v.path, |path|)
  {
    if kids != [] {
      ListingIsDotFree(kids[1..], path);
      if !Hidden(kids[0]) {
        var p := path + "/" + kids[0].name;
        ChildIsDotFree(path, kids[0].name, p);
        if kids[0].DirEntry? {
          ListingIsDotFree(kids[0].kids, p);
          forall v | v in Listing(kids[0].kids, p)
            ensures path <= v.path && DotFree(v.path, |path|)
          {
            ChildIsDotFree(path, kids[0].name, v.path);
          }
        }
      }
    }
  }

  lemma ChildIsDotFree(path: string, name: string, longer: string)
    requires GoodName(name) && name[0] != '.'
    requires path + "/" + name <= longer && DotFree(longer, |path| + 1 + |name|)
    ensures path <= longer && DotFree(longer, |path|)
  {
    var p := path + "/" + name;
    forall k | |path| <= k < |longer| - 1 && longer[k] == '/'
      ensures longer[k + 1] != '.'
    {
      OneSlash(path, name);
      if k < |p| {
        assert longer[k] == p[k];
        assert longer[k + 1] == p[k + 1] == name[0];
      }
    }
  }

  lemma OneSlash(path: string, name: string)
    requires '/' !in name
    ensures var p := path + "/" + name; forall k :: |path| < k < |p| ==> p[k] != '/'
  {
    var p := path + "/" + name;
    assert forall k :: |path| < k < |p| ==> p[k] == name[k - |path| - 1];
  }

  /** Files reachable without passing a dot-named entry. */
  function CountFiles(kids: seq<Entry>): nat
  {
    if kids == [] then 0
    else
      var here :=
        if Hidden(kids[0]) then 0
        else if kids[0].FileEntry? then 1
        else CountFiles(kids[0].kids);
      here + CountFiles(kids[1..])
  }

  function CountFolders(kids: seq<Entry>): nat
  {
    if kids == [] then 0
    else
      var here :=
        if Hidden(kids[0]) || kids[0].FileEntry? then 0
        else 1 + CountFolders(kids[0].kids);
      here + CountFolders(kids[1..])
  }

  /** Every reachable path, with its closing zero, fits in `size` characters. */
  predicate Fits(kids: seq<Entry>, length: nat, size: nat)
  {
    kids != [] ==>
      && (Hidden(kids[0]) ||
          (&& length + 1 + |kids[0].name| + 1 <= size
           && (kids[0].DirEntry? ==> Fits(kids[0].kids, length + 1 + |kids[0].name|, size))))
      && Fits(kids[1..], length, size)
  }

  function Tally(visits: seq<Visit>, files: bool): nat
  {
    if visits == [] then 0
    else (if visits[0].isFile == files then 1 else 0) + Tally(visits[1..], files)
  }

  lemma {:induction false} TallyAppend(a: seq<Visit>, b: seq<Visit>, files: bool)
    ensures Tally(a + b, files) == Tally(a, files) + Tally(b, files)
  {
    if a == [] {
      assert a + b == b;
    } else {
      assert (a + b)[1..] == a[1..] + b;
      TallyAppend(a[1..], b, files);
    }
  }

  /** What one more visit does to the two 32-bit counters. */
  lemma OneMoreVisit(visits: seq<Visit>, v: Visit)
    ensures ToU32(Tally(visits + [v], v.isFile)) == ToU32(ToU32(Tally(visits, v.isFile)) + 1)
    ensures Tally(visits + [v], !v.isFile) == Tally(visits, !v.isFile)
  {
    TallyOneMore(visits, v, true);
    TallyOneMore(visits, v, false);
    hide Tally;
    CountOneMore(Tally(visits, v.isFile));
  }

  lemma TallyOneMore(visits: seq<Visit>, v: Visit, files: bool)
    ensures Tally(visits + [v], files) == Tally(visits, files) + if v.isFile == files then 1 else 0
  {
    TallyAppend(visits, [v], files);
  }

  lemma CountOneMore(n: nat)
    ensures ToU32(n + 1) == ToU32(ToU32(n) + 1)
  {
  }

  /** With a callback that always continues, the search visits the whole tree in order
      exactly when every path fits. */
  lemma {:induction false} ScanVisitsAll(kids: seq<Entry>, path: string, size: nat, cb: Callback)
    requires forall p, f :: cb(p, f)
    ensures Scan(kids, path, size, cb).room <==> Fits(kids, |path|, size)
    ensures Fits(kids, |path|, size) ==> Scan(kids, path, size, cb).visits == Listing(kids, path)
  {
    if kids != [] {
      assert Continues(kids[0], path, cb);
      hide ScanOne, Continues, Hidden;
      ScanVisitsAll(kids[1..], path, size, cb);
      ScanVisitsEntry(kids[0], path, size, cb);
    }
  }

  lemma {:induction false} ScanVisitsEntry(e: Entry, path: string, size: nat, cb: Callback)
    requires forall p, f :: cb(p, f)
    ensures var o, p := ScanOne(e, path, size, cb), path + "/" + e.name;
            && (o.room <==> Hidden(e) || (|p| + 1 <= size && (e.DirEntry? ==> Fits(e.kids, |p|, size))))
            && (o.room ==> o.visits == if Hidden(e) then []
                                       else [Visit(p, e.FileEntry?)] + if e.DirEntry? then Listing(e.kids, p) else [])
  {
    if e.DirEntry? {
      ScanVisitsAll(e.kids, path + "/" + e.name, size, cb);
      hide Scan, Fits, Listing;
    }
  }

  lemma TallyThree(v: Visit, below: seq<Visit>, rest: seq<Visit>, files: bool)
    ensures Tally([v] + below + rest, files)
         == (if v.isFile == files then 1 else 0) + Tally(below, files) + Tally(rest, files)
  {
    TallyAppend([v] + below, rest, files);
    TallyAppend([v], below, files);
  }

  lemma {:induction false} ListingTally(kids: seq<Entry>, path: string)
    ensures Tally(Listing(kids, path), true) == CountFiles(kids)
    ensures Tally(Listing(kids, path), false) == CountFolders(kids)
  {
    if kids != [] {
      ListingTally(kids[1..], path);
      if !Hidden(kids[0]) {
        var p := path + "/" + kids[0].name;
        var v := Visit(p, kids[0].FileEntry?);
        var below := if kids[0].DirEntry? then Listing(kids[0].kids, p) else [];
        if kids[0].DirEntry? {
          ListingTally(kids[0].kids, p);
        }
        TallyThree(v, below, Listing(kids[1..], path), true);
        TallyThree(v, below, Listing(kids[1..], path), false);
      }
    }
  }

  /** Every folder handed to the callback is named by the path handed with it. */
  lemma {:induction false} ListedFoldersResolve(root: seq<Entry>, path: string, kids: seq<Entry>, k: nat)
    requires Resolve(root, path).Some? && k <= |Resolve(root, path).value|
    requires WellFormed(Resolve(root, path).value) && kids == Resolve(root, path).value[k..]
    ensures forall v :: v in Listing(kids, path) && !v.isFile ==> Resolve(root, v.path).Some?
    decreases kids
  {
    if kids != [] {
      ListedFoldersResolve(root, path, kids[1..], k + 1);
      if !Hidden(kids[0]) && kids[0].DirEntry? {
        LookupAt(Resolve(root, path).value, k);
        ResolveChild(root, path, kids[0].name);
        ListedFoldersResolve(root, path + "/" + kids[0].name, kids[0].kids, 0);
      }
    }
  }

  // ---- The search -----------------------------------------------------------

  /** The DIR object: an open folder and the next entry to be read. */
  datatype DirObject = DirObject(entries: seq<Entry>, next: nat)

  /** FatFs: either call may fail for reasons of its own, and then sets `faulted`. */
  class Volume {
    const root: seq<Entry>
    ghost var faulted: bool

    constructor (entries: seq<Entry>)
      ensures root == entries && !faulted
    {
      root, faulted := entries, false;
    }

    method OpenDir(path: string) returns (res: FResult, dir: DirObject)
      modifies this
      ensures old(faulted) ==> faulted
      ensures res.FR_OK? ==> Resolve(root, path) == Some(dir.entries) && dir.next == 0
      ensures !faulted ==> res == if Resolve(root, path).Some? then FR_OK else FR_NO_PATH
    {
      dir := DirObject([], 0);
      var fails := *;
      if fails {
        faulted := true;
        return FR_DISK_ERR, dir;
      }
      match Resolve(root, path)
      case Some(entries) => res, dir := FR_OK, DirObject(entries, 0);
      case None => res := FR_NO_PATH;
    }

    /** An empty name marks the end of the folder. */
    method ReadDir(dir: DirObject) returns (res: FResult, name: string, isDir: bool, dir': DirObject)
      requires dir.next <= |dir.entries|
      modifies this
      ensures old(faulted) ==> faulted
      ensures !faulted ==> res.FR_OK?
      ensures res.FR_OK? && dir.next == |dir.entries| ==> name == "" && dir' == dir
      ensures res.FR_OK? && dir.next < |dir.entries| ==>
                && name == dir.entries[dir.next].name
                && isDir == dir.entries[dir.next].DirEntry?
                && dir' == dir.(next := dir.next + 1)
      ensures !res.FR_OK? ==> dir' == dir
    {
      name, isDir, dir' := "", false, dir;
      var fails := *;
      if fails {
        faulted := true;
        return FR_DISK_ERR, name, isDir, dir;
      }
      res := FR_OK;
      if dir.next < |dir.entries| {
        name := dir.entries[dir.next].name;
        isDir := dir.entries[dir.next].DirEntry?;
        dir' := dir.(next := dir.next + 1);
      }
    }
  }

  /** The search structure. `calls` lists what the callback has been called with. */
  class Search {
    var filesCount: uint32
    var foldersCount: uint32
    const callback: Callback
    ghost var calls: seq<Visit>

    constructor (cb: Callback)
      ensures callback == cb
    {
      callback := cb;
    }

    ghost predicate Valid()
      reads this
    {
      && filesCount == ToU32(Tally(calls, true))
      && foldersCount == ToU32(Tally(calls, false))
    }

    /** Counts an entry and calls the callback with it. */
    method Report(path: string, isFile: bool) returns (gonext: bool)
      requires Valid()
      modifies this
      ensures Valid()
      ensures calls == old(calls) + [Visit(path, isFile)]
      ensures gonext == callback(path, isFile)
    {
      hide Tally;
      OneMoreVisit(calls, Visit(path, isFile));
      if isFile {
        filesCount := ToU32(filesCount + 1);
      } else {
        foldersCount := ToU32(foldersCount + 1);
      }
      gonext := callback(path, isFile);
      calls := calls + [Visit(path, isFile)];
    }
  }

  /** `mem` holds the C string `text`. */
  ghost predicate Holds(mem: seq<char>, text: string)
  {
    |text| < |mem| && mem[..|text|] == text && mem[|text|] == NUL && NUL !in text
  }

  method StrLen(path: array<char>, ghost text: string) returns (n: nat)
    requires Holds(path[..], text)
    ensures n == |text|
  {
    n := 0;
    assert forall k :: 0 <= k < |text| ==> path[..][..|text|][k] == path[k];
    while path[n] != NUL
      invariant n <= |text|
      decreases |text| - n
    {
      n := n + 1;
    }
  }

  /** sprintf of a slash and `name` at position `at`. */
  method AppendName(path: array<char>, at: nat, name: string, ghost text: string)
    requires Holds(path[..], text) && at == |text| && NUL !in name
    requires at + |name| + 1 < path.Length
    modifies path
    ensures Holds(path[..], text + "/" + name)
  {
    path[at] := '/';
    forall k | 0 <= k < |name| {
      path[at + 1 + k] := name[k];
    }
    path[at + 1 + |name|] := NUL;
    assert path[..at] == text;
    assert path[at + 1..at + 1 + |name|] == name;
    assert path[..at + 1 + |name|] == text + "/" + name;
  }

  /** Puts the path back to what it was before AppendName. */
  method CutBack(path: array<char>, at: nat, ghost text: string, ghost name: string)
    requires Holds(path[..], text + "/" + name) && at == |text|
    modifies path
    ensures Holds(path[..], text)
  {
    assert path[..at] == (text + "/" + name)[..at] == text;
    path[at] := NUL;
    assert path[..at] == text;
    assert forall k :: 0 <= k < at ==> text[k] == (text + "/" + name)[k];
  }

  /** A scan with the outcome `whole`, when the calls made so far have grown from `before` to
      `calls` and what is left has the outcome `rest`. */
  ghost predicate ScannedTo(whole: Outcome, before: seq<Visit>, calls: seq<Visit>, rest: Outcome)
  {
    before + whole.visits == calls + rest.visits && whole.room == rest.room && whole.left == rest.left
  }

  lemma ScanStart(kids: seq<Entry>, path: string, size: nat, cb: Callback, before: seq<Visit>)
    ensures ScannedTo(Scan(kids, path, size, cb), before, before, Scan(kids[0..], path, size, cb))
  {
    assert kids[0..] == kids;
  }

  lemma ScanStep(whole: Outcome, kids: seq<Entry>, k: nat, path: string, size: nat, cb: Callback,
                 before: seq<Visit>, calls: seq<Visit>)
    requires k < |kids| && ScannedTo(whole, before, calls, Scan(kids[k..], path, size, cb))
    ensures var one := ScanOne(kids[k], path, size, cb);
            if one.room && Continues(kids[k], path, cb) then
              ScannedTo(whole, before, calls + one.visits, Scan(kids[k + 1..], path, size, cb))
            else
              before + whole.visits == calls + one.visits && whole.room == one.room && whole.left == one.left
  {
    assert kids[k..][0] == kids[k] && kids[k..][1..] == kids[k + 1..];
  }

  lemma ScanEnd(whole: Outcome, kids: seq<Entry>, path: string, size: nat, cb: Callback,
                before: seq<Visit>, calls: seq<Visit>)
    requires ScannedTo(whole, before, calls, Scan(kids[|kids|..], path, size, cb))
    ensures before + whole.visits == calls && whole.room && whole.left == path
  {
  }

  // ---- The path after a failing search, and stop requests -----------------------------

  /** There is room for every path the search comes to: hidden entries need none, and the search
      comes to no entry after one the callback has refused. */
  predicate RoomForAll(kids: seq<Entry>, path: string, size: nat, cb: Callback)
  {
    kids != [] ==>
      && RoomForOne(kids[0], path, size, cb)
      && (Continues(kids[0], path, cb) ==> RoomForAll(kids[1..], path, size, cb))
  }

  predicate RoomForOne(e: Entry, path: string, size: nat, cb: Callback)
  {
    Hidden(e) ||
    (&& |path| + |e.name| + 1 < size
     && (e.DirEntry? && cb(path + "/" + e.name, false) ==> RoomForAll(e.kids, path + "/" + e.name, size, cb)))
  }

  /** The first entry there is no room for lies in the folder itself. */
  predicate FailsHere(kids: seq<Entry>, path: string, size: nat, cb: Callback)
  {
    kids != [] &&
    ((!Hidden(kids[0]) && |path| + |kids[0].name| + 1 >= size)
     || (RoomForOne(kids[0], path, size, cb) && Continues(kids[0], path, cb) && FailsHere(kids[1..], path, size, cb)))
  }

  lemma {:induction false} ScanHasRoom(kids: seq<Entry>, path: string, size: nat, cb: Callback)
    ensures Scan(kids, path, size, cb).room <==> RoomForAll(kids, path, size, cb)
  {
    if kids != [] {
      hide Hidden;
      ScanOneHasRoom(kids[0], path, size, cb);
      ScanHasRoom(kids[1..], path, size, cb);
    }
  }

  lemma {:induction false} ScanOneHasRoom(e: Entry, path: string, size: nat, cb: Callback)
    ensures ScanOne(e, path, size, cb).room <==> RoomForOne(e, path, size, cb)
  {
    if e.DirEntry? {
      ScanHasRoom(e.kids, path + "/" + e.name, size, cb);
    }
  }

  /** The path is back in the buffer exactly if there is room for all the search comes to, or the
      first entry there is no room for lies in the searched folder itself. Otherwise it is left
      longer than it was. */
  lemma {:induction false} PathLeft(kids: seq<Entry>, path: string, size: nat, cb: Callback)
    ensures var left := Scan(kids, path, size, cb).left;
            && (left == path <==> RoomForAll(kids, path, size, cb) || FailsHere(kids, path, size, cb))
            && (left != path ==> |left| > |path|)
  {
    if kids != [] {
      hide Hidden;
      ScanOneHasRoom(kids[0], path, size, cb);
      PathLeft(kids[1..], path, size, cb);
      PathLeftByOne(kids[0], path, size, cb);
    }
  }

  lemma {:induction false} PathLeftByOne(e: Entry, path: string, size: nat, cb: Callback)
    ensures var left := ScanOne(e, path, size, cb).left;
            && (left == path <==> RoomForOne(e, path, size, cb) || (!Hidden(e) && |path| + |e.name| + 1 >= size))
            && (left != path ==> |left| > |path|)
  {
    ScanOneHasRoom(e, path, size, cb);
    if e.DirEntry? {
      PathLeft(e.kids, path + "/" + e.name, size, cb);
    }
  }

  /** One such tree: no room for the path "/a/b" leaves "/a" in the buffer. */
  lemma PathLeftBehind(cb: Callback)
    requires cb("/a", false)
    ensures Scan([DirEntry("a", [FileEntry("b")])], "", 4, cb).left == "/a"
  {
    assert "" + "/" + "a" == "/a";
    assert !ScanOne(FileEntry("b"), "/a", 4, cb).room;
  }

  predicate Wanted(visits: seq<Visit>, cb: Callback)
  {
    forall k :: 0 <= k < |visits| ==> cb(visits[k].path, visits[k].isFile)
  }

  /** Nothing is visited once the callback has said stop. */
  predicate Obedient(visits: seq<Visit>, cb: Callback)
  {
    visits != [] ==> Wanted(visits[..|visits| - 1], cb)
  }

  /** No entry is visited: up to the first there is no room for, all are hidden. */
  predicate Deserted(kids: seq<Entry>, length: nat, size: nat)
  {
    kids != [] ==> if Hidden(kids[0]) then Deserted(kids[1..], length, size) else length + |kids[0].name| + 1 >= size
  }

  /** The callback refuses nothing that is not hidden, in the folder or below. */
  predicate NothingRefused(kids: seq<Entry>, path: string, cb: Callback)
  {
    kids != [] ==>
      && (Hidden(kids[0]) || NoneRefusedBy(kids[0], path, cb))
      && NothingRefused(kids[1..], path, cb)
  }

  predicate NoneRefusedBy(e: Entry, path: string, cb: Callback)
  {
    var p := path + "/" + e.name;
    cb(p, e.FileEntry?) && (e.DirEntry? ==> NothingRefused(e.kids, p, cb))
  }

  /** Where the callback says stop in a folder below, nothing that could be visited follows in
      this one, nor in any folder between. A stop in the folder itself needs no such luck. */
  predicate StopsAtOnce(kids: seq<Entry>, path: string, size: nat, cb: Callback)
  {
    kids != [] ==>
      && StopsAtOnceIn(kids[0], path, size, cb)
      && (RoomForOne(kids[0], path, size, cb) && Continues(kids[0], path, cb) ==>
            if Hidden(kids[0]) || NoneRefusedBy(kids[0], path, cb) then StopsAtOnce(kids[1..], path, size, cb)
            else Deserted(kids[1..], |path|, size))
  }

  predicate StopsAtOnceIn(e: Entry, path: string, size: nat, cb: Callback)
  {
    var p := path + "/" + e.name;
    e.DirEntry? && !Hidden(e) && |path| + |e.name| + 1 < size && cb(p, false) ==> StopsAtOnce(e.kids, p, size, cb)
  }

  /** A search with room for all it comes to is never told to stop exactly if nothing is
      refused. */
  lemma {:induction false} WantedIsUnrefused(kids: seq<Entry>, path: string, size: nat, cb: Callback)
    requires RoomForAll(kids, path, size, cb)
    ensures Wanted(Scan(kids, path, size, cb).visits, cb) <==> NothingRefused(kids, path, cb)
  {
    hide Wanted;
    NoVisits(cb);
    if kids != [] {
      hide Hidden;
      var one, rest := ScanOne(kids[0], path, size, cb), Scan(kids[1..], path, size, cb);
      ScanOneHasRoom(kids[0], path, size, cb);
      OneIsUnrefused(kids[0], path, size, cb);
      if Continues(kids[0], path, cb) {
        WantedIsUnrefused(kids[1..], path, size, cb);
        WantedJoin(one.visits, rest.visits, cb);
      }
    }
  }

  lemma {:induction false} OneIsUnrefused(e: Entry, path: string, size: nat, cb: Callback)
    requires RoomForOne(e, path, size, cb)
    ensures Wanted(ScanOne(e, path, size, cb).visits, cb) <==> Hidden(e) || NoneRefusedBy(e, path, cb)
  {
    hide Wanted;
    NoVisits(cb);
    if !Hidden(e) {
      var p := path + "/" + e.name;
      var below := if e.DirEntry? && cb(p, false) then Scan(e.kids, p, size, cb).visits else [];
      WantedJoin([Visit(p, e.FileEntry?)], below, cb);
      WantedOne(Visit(p, e.FileEntry?), cb);
      if e.DirEntry? && cb(p, false) {
        WantedIsUnrefused(e.kids, p, size, cb);
      }
    }
  }

  lemma WantedOne(v: Visit, cb: Callback)
    ensures Wanted([v], cb) <==> cb(v.path, v.isFile)
  {
    assert [v][0] == v;
  }

  lemma WantedJoin(a: seq<Visit>, b: seq<Visit>, cb: Callback)
    ensures Wanted(a + b, cb) <==> Wanted(a, cb) && Wanted(b, cb)
  {
    assert forall k :: 0 <= k < |a| ==> (a + b)[k] == a[k];
    assert forall k :: |a| <= k < |a + b| ==> (a + b)[k] == b[k - |a|];
    assert forall k :: 0 <= k < |b| ==> (a + b)[|a| + k] == b[k];
  }

  lemma {:induction false} DesertedIsUnvisited(kids: seq<Entry>, path: string, size: nat, cb: Callback)
    ensures Deserted(kids, |path|, size) <==> Scan(kids, path, size, cb).visits == []
  {
    if kids != [] {
      DesertedIsUnvisited(kids[1..], path, size, cb);
    }
  }

  lemma ObedientJoin(a: seq<Visit>, b: seq<Visit>, cb: Callback)
    ensures Obedient(a + b, cb) <==> if b == [] then Obedient(a, cb) else Wanted(a, cb) && Obedient(b, cb)
  {
    hide Wanted;
    if b == [] {
      assert a + b == a;
    } else {
      var front := b[..|b| - 1];
      assert (a + b)[..|a + b| - 1] == a + front;
      WantedJoin(a, front, cb);
    }
  }

  lemma NoVisits(cb: Callback)
    ensures Obedient([], cb) && Wanted([], cb)
  {
  }

  lemma WantedIsObedient(visits: seq<Visit>, cb: Callback)
    ensures Wanted(visits, cb) ==> Obedient(visits, cb)
  {
  }

  /** A stop request ends the search there and then exactly if it comes in the searched folder
      itself, or nothing that could be visited follows in the folders above it. */
  lemma {:induction false} StopsExactly(kids: seq<Entry>, path: string, size: nat, cb: Callback)
    ensures Obedient(Scan(kids, path, size, cb).visits, cb) <==> StopsAtOnce(kids, path, size, cb)
  {
    hide Obedient, Wanted;
    NoVisits(cb);
    if kids != [] {
      hide Hidden, NoneRefusedBy, StopsAtOnceIn, RoomForOne, Continues;
      var e := kids[0];
      var one, rest := ScanOne(e, path, size, cb), Scan(kids[1..], path, size, cb);
      StopsExactlyIn(e, path, size, cb);
      ScanOneHasRoom(e, path, size, cb);
      if RoomForOne(e, path, size, cb) && Continues(e, path, cb) {
        StopsExactly(kids[1..], path, size, cb);
        DesertedIsUnvisited(kids[1..], path, size, cb);
        ObedientJoin(one.visits, rest.visits, cb);
        OneIsUnrefused(e, path, size, cb);
        WantedIsObedient(one.visits, cb);
      }
    }
  }

  lemma {:induction false} StopsExactlyIn(e: Entry, path: string, size: nat, cb: Callback)
    ensures Obedient(ScanOne(e, path, size, cb).visits, cb) <==> StopsAtOnceIn(e, path, size, cb)
  {
    hide Obedient, Wanted;
    NoVisits(cb);
    var p := path + "/" + e.name;
    if !Hidden(e) && |path| + |e.name| + 1 < size {
      var v := Visit(p, e.FileEntry?);
      var below := if e.DirEntry? && cb(p, false) then Scan(e.kids, p, size, cb).visits else [];
      ObedientJoin([v], below, cb);
      WantedOne(v, cb);
      ObedientJoin([], [v], cb);
      OneVisit(v, cb);
      if e.DirEntry? && cb(p, false) {
        StopsExactly(e.kids, p, size, cb);
      }
    }
  }

  lemma OneVisit(v: Visit, cb: Callback)
    ensures Obedient([v], cb)
  {
  }

  /** One tree where it does not: a stop at "/a/b" is followed by a visit to "/c". */
  lemma StopIsPassedOver()
    ensures var tree := [DirEntry("a", [FileEntry("b")]), FileEntry("c")];
            Scan(tree, "", 100, (path, isFile) => path != "/a/b").visits
              == [Visit("/a", false), Visit("/a/b", true), Visit("/c", true)]
  {
    var cb: Callback := (path, isFile) => path != "/a/b";
    var a, b, c := DirEntry("a", [FileEntry("b")]), FileEntry("b"), FileEntry("c");
    assert "" + "/" + "a" == "/a" && "/a" + "/" + "b" == "/a/b" && "" + "/" + "c" == "/c";
    assert ScanOne(b, "/a", 100, cb) == Outcome([Visit("/a/b", true)], true, "/a");
    assert Scan([b], "/a", 100, cb) == ScanOne(b, "/a", 100, cb);
    assert ScanOne(a, "", 100, cb).visits == [Visit("/a", false)] + [Visit("/a/b", true)];
    assert ScanOne(c, "", 100, cb) == Outcome([Visit("/c", true)], true, "");
    assert [a, c][1..] == [c];
    assert Scan([c], "", 100, cb).visits == [Visit("/c", true)];
  }

  // ---- The search, on the path buffer ---------------------------------------------------

  /** The search of one folder. No write to `path` goes past its end: `size` in the source
      is path.Length here. */
  method ScanFiles(vol: Volume, path: array<char>, find: Search, ghost text: string, ghost kids: seq<Entry>)
    returns (res: FResult)
    requires Holds(path[..], text) && find.Valid()
    requires Resolve(vol.root, text) == Some(kids) && WellFormed(kids)
    modifies vol, path, find
    ensures find.Valid() && (old(vol.faulted) ==> vol.faulted)
    ensures res.FR_OK? ==> Holds(path[..], text)
    ensures !vol.faulted ==>
              var o := Scan(kids, text, path.Length, find.callback);
              && find.calls == old(find.calls) + o.visits
              && res == (if o.room then FR_OK else FR_NOT_ENOUGH_CORE)
              && Holds(path[..], o.left)
    decreases kids
  {
    hide Scan, ScanOne, Continues, ScannedTo, Resolve, WellFormed, GoodName, Tally, Search.Valid;
    ghost var whole := Scan(kids, text, path.Length, find.callback);
    var n := StrLen(path, text);
    var dir;
    res, dir := vol.OpenDir(path[..n]);
    if !res.FR_OK? {
      return;
    }
    hide Holds;
    ScanStart(kids, text, path.Length, find.callback, find.calls);
    while true
      invariant res.FR_OK? && Holds(path[..], text)
      invariant find.Valid() && (old(vol.faulted) ==> vol.faulted)
      invariant dir.entries == kids && dir.next <= |kids|
      invariant !vol.faulted ==>
                  ScannedTo(whole, old(find.calls), find.calls,
                            Scan(kids[dir.next..], text, path.Length, find.callback))
      decreases |kids| - dir.next
    {
      var name, isDir;
      ghost var k := dir.next;
      res, name, isDir, dir := vol.ReadDir(dir);
      if !res.FR_OK? {
        return;
      }
      if k < |kids| {
        EntryAt(vol.root, text, kids, k);
        if !vol.faulted {
          ScanStep(whole, kids, k, text, path.Length, find.callback, old(find.calls), find.calls);
        }
      } else if !vol.faulted {
        ScanEnd(whole, kids, text, path.Length, find.callback, old(find.calls), find.calls);
      }
      if name == "" {
        return;
      }
      var gonext;
      res, gonext := ScanEntry(vol, path, n, find, name, isDir, text, kids[k]);
      if !gonext || !res.FR_OK? {
        return;
      }
    }
  }

  /** Calls the callback with the string in the path buffer. */
  method ReportPath(path: array<char>, find: Search, isFile: bool, ghost text: string) returns (gonext: bool)
    requires Holds(path[..], text) && find.Valid()
    modifies find
    ensures find.Valid()
    ensures find.calls == old(find.calls) + [Visit(text, isFile)]
    ensures gonext == find.callback(text, isFile)
  {
    var n := StrLen(path, text);
    gonext := find.Report(path[..n], isFile);
  }

  /** The loop body of the search. After a failing descent the path stays extended. */
  method ScanEntry(vol: Volume, path: array<char>, i: nat, find: Search, name: string, isDir: bool,
                   ghost text: string, ghost e: Entry)
    returns (res: FResult, gonext: bool)
    requires Holds(path[..], text) && i == |text| && find.Valid()
    requires GoodName(name) && name == e.name && isDir == e.DirEntry?
    requires isDir ==> Resolve(vol.root, text + "/" + name) == Some(e.kids) && WellFormed(e.kids)
    modifies vol, path, find
    ensures find.Valid() && (old(vol.faulted) ==> vol.faulted)
    ensures res.FR_OK? ==> Holds(path[..], text)
    ensures !vol.faulted ==>
              var o := ScanOne(e, text, path.Length, find.callback);
              && find.calls == old(find.calls) + o.visits
              && res == (if o.room then FR_OK else FR_NOT_ENOUGH_CORE)
              && (res.FR_OK? ==> gonext == Continues(e, text, find.callback))
              && Holds(path[..], o.left)
    decreases e
  {
    hide Scan, Resolve, WellFormed;
    if name[0] == '.' {
      return FR_OK, true;
    }
    if i + |name| + 1 >= path.Length {
      return FR_NOT_ENOUGH_CORE, true;
    }
    ghost var longer := text + "/" + name;
    hide Holds;
    AppendName(path, i, name, text);
    gonext := ReportPath(path, find, !isDir, longer);
    res := FR_OK;
    if isDir && gonext {
      res := ScanFiles(vol, path, find, longer, e.kids);
      if !res.FR_OK? {
        return;
      }
    }
    CutBack(path, i, text, name);
  }

  /** TM_FATFS_Search. With no buffer given one is allocated, which may fail. */
  method SearchFolder(vol: Volume, folder: string, tmpBuffer: array?<char>, tmpSize: uint16, find: Search)
    returns (res: FResult)
    requires tmpBuffer != null ==> tmpBuffer.Length == tmpSize
    requires NUL !in folder
    requires Resolve(vol.root, folder).Some? && WellFormed(Resolve(vol.root, folder).value)
    modifies vol, find
    modifies if tmpBuffer == null then {} else {tmpBuffer}
    ensures old(vol.faulted) ==> vol.faulted
    ensures tmpBuffer != null && res.FR_OK? ==> Holds(tmpBuffer[..], folder)
    ensures !vol.faulted && (tmpBuffer != null || res.FR_OK?) ==>
              && find.Valid()
              && (res.FR_OK? <==> |folder| < tmpSize
                                  && Scan(Resolve(vol.root, folder).value, folder, tmpSize, find.callback).room)
              && (tmpBuffer != null && |folder| < tmpSize ==>
                    Holds(tmpBuffer[..], Scan(Resolve(vol.root, folder).value, folder, tmpSize, find.callback).left))
              && (res.FR_OK? ==>
                    find.calls == Scan(Resolve(vol.root, folder).value, folder, tmpSize, find.callback).visits)
  {
    find.filesCount, find.foldersCount, find.calls := 0, 0, [];
    var buffer: array<char>;
    if tmpBuffer == null {
      var available := *;
      if !available {
        return FR_NOT_ENOUGH_CORE;
      }
      buffer := new char[tmpSize](_ => NUL);
    } else {
      buffer := tmpBuffer;
    }
    if |folder| < tmpSize {
      forall k | 0 <= k < |folder| {
        buffer[k] := folder[k];
      }
      buffer[|folder|] := NUL;
      assert buffer[..][..|folder|] == folder;
      res := ScanFiles(vol, buffer, find, folder, Resolve(vol.root, folder).value);
    } else {
      res := FR_NOT_ENOUGH_CORE;
    }
  }

  /** The whole tree is visited: with no FatFs failure, a callback that always continues and
      a caller's buffer, the search succeeds exactly when every path fits, and then both
      counts are those of the tree. */
  method SearchWholeTree(vol: Volume, folder: string, tmpBuffer: array<char>, find: Search)
    returns (res: FResult)
    requires tmpBuffer.Length < 0x1_0000 && NUL !in folder
    requires Resolve(vol.root, folder).Some? && WellFormed(Resolve(vol.root, folder).value)
    requires forall p, f :: find.callback(p, f)
    modifies vol, find, tmpBuffer
    ensures var kids := Resolve(vol.root, folder).value;
            !vol.faulted ==>
              && (res.FR_OK? <==> |folder| < tmpBuffer.Length && Fits(kids, |folder|, tmpBuffer.Length))
              && (res.FR_OK? ==>
                    && Holds(tmpBuffer[..], folder)
                    && find.calls == Listing(kids, folder)
                    && find.filesCount == ToU32(CountFiles(kids))
                    && find.foldersCount == ToU32(CountFolders(kids)))
  {
    res := SearchFolder(vol, folder, tmpBuffer, tmpBuffer.Length, find);
    ghost var kids := Resolve(vol.root, folder).value;
    ScanVisitsAll(kids, folder, tmpBuffer.Length, find.callback);
    ListingTally(kids, folder);
  }
}
