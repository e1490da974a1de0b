/** A running container as the controller sees it: its files under `/dev`, its mounts and its device
  filter, and the operations that change them from the outside. */
module ContainerState {
  import opened Devices
  import opened DeviceFilter
  import opened IdMap
  import opened Mounts

  datatype Entry =
    | Directory
    | Node(ty: DeviceType, major: U32, minor: U32, owner: Option<(U32, U32)>)
    | Link(target: Path)
    | Regular

  type Files = map<Path, Entry>

  /** What may go wrong with a foreign call: the namespaces cannot be entered, or the kernel refuses to
    create the file although its place is free. */
  datatype Fault = Fine | NotEntered | Refused

  predicate IsDirectory(files: Files, p: Path) {
    p == [] || (p in files && files[p].Directory?)
  }

  function Parent(p: Path): Path
    requires p != []
  {
    p[..|p| - 1]
  }

  /** `create_dir_all`, stopping quietly at the first component that cannot become a directory. */
  function MakeDirs(files: Files, p: Path): Files
    decreases |p|
  {
    if p == [] || p in files then files
    else
      var made := MakeDirs(files, Parent(p));
      if IsDirectory(made, Parent(p)) then made[p := Directory] else made
  }

  /** `remove_file`, which leaves directories alone. */
  function RemoveFile(files: Files, p: Path): Files {
    if p in files && !files[p].Directory? then files - {p} else files
  }

  function Cleared(files: Files, p: Path): Files {
    RemoveFile(if p == [] then files else MakeDirs(files, Parent(p)), p)
  }

  predicate Vacant(files: Files, p: Path) {
    p != [] && p !in files && IsDirectory(files, Parent(p))
  }

  /** Create a file, replacing the one that is there and making parent directories as needed. */
  function Place(files: Files, p: Path, entry: Entry, fault: Fault): (Files, Result<()>) {
    if fault.NotEntered? then (files, Err(NoNamespace))
    else
      var cleared := Cleared(files, p);
      if fault.Refused? || !Vacant(cleared, p) then (cleared, Err(NotCreated))
      else (cleared[p := entry], Ok(()))
  }

  /** A device node is created first and given to the container's user afterwards. */
  function PlaceNode(files: Files, node: DevNode, owner: Option<(U32, U32)>, fault: Fault): (Files, Result<()>) {
    var (placed, r) := Place(files, node.path, Node(node.ty, node.major, node.minor, None), fault);
    if r.Err? then (placed, r)
    else if owner.None? then (placed, Err(Unmapped))
    else (placed[node.path := Node(node.ty, node.major, node.minor, owner)], Ok(()))
  }

  function Delete(files: Files, p: Path, fault: Fault): (Files, Result<()>) {
    if fault.NotEntered? then (files, Err(NoNamespace)) else (RemoveFile(files, p), Ok(()))
  }

  class Container {
    const ns: UserNamespace
    const uid: U32
    const gid: U32
    const filter: DeviceAccessController
    var files: Files
    var mounts: Mount

    constructor (ns: UserNamespace, uid: U32, gid: U32, files: Files, mounts: Mount)
      ensures this.ns == ns && this.uid == uid && this.gid == gid
      ensures this.files == files && this.mounts == mounts
      ensures fresh(filter) && filter.entries == map[] && filter.pinned
    {
      this.ns, this.uid, this.gid := ns, uid, gid;
      this.files, this.mounts := files, mounts;
      this.filter := new DeviceAccessController();
    }

    function Owner(): Option<(U32, U32)> {
      ns.Owner(uid, gid)
    }

    method Device(ty: DeviceType, major: U32, minor: U32, access: bv32) returns (r: Result<()>)
      modifies filter`entries
      ensures (filter.entries, r) == Permit(old(filter.entries), Key(TypeCode(ty), major, minor), access)
    {
      r := filter.SetPermission(ty, major, minor, access);
    }

    method Mknod(node: DevNode, fault: Fault) returns (r: Result<()>)
      modifies this`files
      ensures (files, r) == PlaceNode(old(files), node, Owner(), fault)
    {
      if fault.NotEntered? {
        return Err(NoNamespace);
      }
      if node.path != [] {
        files := MakeDirs(files, Parent(node.path));
      }
      files := RemoveFile(files, node.path);
      if fault.Refused? || !Vacant(files, node.path) {
        return Err(NotCreated);
      }
      files := files[node.path := Node(node.ty, node.major, node.minor, None)];
      var u := Translate(ns.uids, uid);
      if u.None? {
        return Err(Unmapped);
      }
      var g := Translate(ns.gids, gid);
      if g.None? {
        return Err(Unmapped);
      }
      files := files[node.path := Node(node.ty, node.major, node.minor, Some((u.value, g.value)))];
      r := Ok(());
    }

    method Symlink(source: Path, link: Path, fault: Fault) returns (r: Result<()>)
      modifies this`files
      ensures (files, r) == Place(old(files), link, Link(source), fault)
    {
      if fault.NotEntered? {
        return Err(NoNamespace);
      }
      if link != [] {
        files := MakeDirs(files, Parent(link));
      }
      files := RemoveFile(files, link);
      if fault.Refused? || !Vacant(files, link) {
        return Err(NotCreated);
      }
      files := files[link := Link(source)];
      r := Ok(());
    }

    method Rm(p: Path, fault: Fault) returns (r: Result<()>)
      modifies this`files
      ensures (files, r) == Delete(old(files), p, fault)
    {
      if fault.NotEntered? {
        return Err(NoNamespace);
      }
      files := RemoveFile(files, p);
      r := Ok(());
    }

    /** `succeeds` sums up every kernel call on the way, and that the directory exists inside. */
    method BindSysfs(syspath: Path, succeeds: bool) returns (r: Result<()>)
      modifies this`mounts
      ensures mounts == if succeeds then Bind(old(mounts), syspath) else old(mounts)
      ensures r == if succeeds then Ok(()) else Err(NotMounted)
    {
      if !succeeds {
        return Err(NotMounted);
      }
      mounts := Bind(mounts, syspath);
      r := Ok(());
    }

    method UnbindSysfs(syspath: Path, fault: Fault) returns (r: Result<()>)
      modifies this`mounts
      ensures mounts == if fault.NotEntered? then old(mounts) else Unbind(old(mounts), syspath)
      ensures r == if fault.NotEntered? then Err(NoNamespace) else Ok(())
    {
      if fault.NotEntered? {
        return Err(NoNamespace);
      }
      mounts := Unbind(mounts, syspath);
      r := Ok(());
    }
  }

  // ----- What the operations do to the files, directories aside -----

  function FileAt(files: Files, p: Path): Option<Entry> {
    if p in files && !files[p].Directory? then Some(files[p]) else None
  }

  lemma {:induction false} MakeDirsFiles(files: Files, p: Path, q: Path)
    ensures FileAt(MakeDirs(files, p), q) == FileAt(files, q)
    decreases |p|
  {
    if p != [] && p !in files {
      MakeDirsFiles(files, Parent(p), q);
      MakeDirsFiles(files, Parent(p), p);
    }
  }

  lemma ClearedFiles(files: Files, p: Path, q: Path)
    ensures FileAt(Cleared(files, p), q) == if q == p then None else FileAt(files, q)
  {
    if p != [] {
      MakeDirsFiles(files, Parent(p), q);
    }
  }

  lemma PlaceFiles(files: Files, p: Path, entry: Entry, fault: Fault, q: Path)
    requires !entry.Directory? && Place(files, p, entry, fault).1.Ok?
    ensures FileAt(Place(files, p, entry, fault).0, q) == if q == p then Some(entry) else FileAt(files, q)
  {
    ClearedFiles(files, p, q);
  }

  /** A placement that fails inside the container has removed the file that was in its place, and one that does
    not get there has done nothing. */
  lemma PlaceFails(files: Files, p: Path, entry: Entry, fault: Fault, q: Path)
    requires Place(files, p, entry, fault).1.Err?
    ensures fault == NotEntered ==> Place(files, p, entry, fault) == (files, Err(NoNamespace))
    ensures fault != NotEntered ==>
              && Place(files, p, entry, fault).1.error == NotCreated
              && FileAt(Place(files, p, entry, fault).0, q) == if q == p then None else FileAt(files, q)
  {
    ClearedFiles(files, p, q);
  }

  /** The same for a node; one that cannot be given away is left behind with the owner it was made with. */
  lemma PlaceNodeFails(files: Files, node: DevNode, owner: Option<(U32, U32)>, fault: Fault, q: Path)
    requires PlaceNode(files, node, owner, fault).1.Err?
    ensures var (placed, r) := PlaceNode(files, node, owner, fault);
            match r.error
            case NoNamespace => fault == NotEntered && placed == files
            case NotCreated => FileAt(placed, q) == if q == node.path then None else FileAt(files, q)
            case _ =>
              && r.error == Unmapped && owner == None && fault == Fine
              && FileAt(placed, q) ==
                 if q == node.path then Some(Node(node.ty, node.major, node.minor, None)) else FileAt(files, q)
  {
    var entry := Node(node.ty, node.major, node.minor, None);
    if Place(files, node.path, entry, fault).1.Ok? {
      PlaceFiles(files, node.path, entry, fault, q);
    } else {
      PlaceFails(files, node.path, entry, fault, q);
    }
  }

  lemma PlaceNodeFiles(files: Files, node: DevNode, owner: Option<(U32, U32)>, fault: Fault, q: Path)
    requires PlaceNode(files, node, owner, fault).1.Ok?
    ensures owner.Some?
    ensures FileAt(PlaceNode(files, node, owner, fault).0, q) ==
            if q == node.path then Some(Node(node.ty, node.major, node.minor, owner)) else FileAt(files, q)
  {
    PlaceFiles(files, node.path, Node(node.ty, node.major, node.minor, None), fault, q);
  }

  lemma DeleteFiles(files: Files, p: Path, fault: Fault, q: Path)
    requires Delete(files, p, fault).1.Ok?
    ensures FileAt(Delete(files, p, fault).0, q) == if q == p then None else FileAt(files, q)
  {
  }

  // ----- When a file can be placed -----

  /** The nearest ancestor of `p` that exists is `p[..k]`. */
  ghost predicate IsNearest(files: Files, p: Path, k: nat) {
    k <= |p| && (k == 0 || p[..k] in files) && forall j | k < j <= |p| :: p[..j] !in files
  }

  lemma {:induction false} Nearest(files: Files, p: Path) returns (k: nat)
    ensures IsNearest(files, p, k)
    decreases |p|
  {
    if p == [] || p in files {
      k := |p|;
      assert p[..|p|] == p;
    } else {
      k := Nearest(files, Parent(p));
      forall j | k < j <= |p| ensures p[..j] !in files {
        if j == |p| {
          assert p[..j] == p;
        } else {
          assert p[..j] == Parent(p)[..j];
        }
      }
      assert k > 0 ==> p[..k] == Parent(p)[..k];
    }
  }

  predicate IsOpen(files: Files, p: Path, k: nat)
    requires k <= |p|
  {
    k == 0 || (p[..k] in files && files[p[..k]].Directory?)
  }

  lemma NearestOfParent(files: Files, p: Path, k: nat)
    requires p != [] && k < |p| && IsNearest(files, p, k)
    ensures IsNearest(files, Parent(p), k)
    ensures IsOpen(files, Parent(p), k) <==> IsOpen(files, p, k)
  {
    forall j | k < j <= |Parent(p)| ensures Parent(p)[..j] !in files { assert Parent(p)[..j] == p[..j]; }
    assert Parent(p)[..k] == p[..k];
  }

  /** `q` is `p` or an ancestor of it with more than `k` components. */
  ghost predicate OnTheWay(p: Path, k: nat, q: Path) {
    exists j | k < j <= |p| :: q == p[..j]
  }

  /** `made` is `files` with directories on the way from `p[..k]` to `p`. */
  ghost predicate MadeBelow(files: Files, made: Files, p: Path, k: nat) {
    forall q :: if q in files then q in made && made[q] == files[q]
                else if OnTheWay(p, k, q) then q in made && made[q].Directory?
                else q !in made
  }

  /** All missing directories below the nearest existing one are made if that is a directory, and none
    otherwise; nothing else changes. */
  lemma {:induction false} MakeDirsExact(files: Files, p: Path, k: nat)
    requires IsNearest(files, p, k)
    ensures if IsOpen(files, p, k) then MadeBelow(files, MakeDirs(files, p), p, k) else MakeDirs(files, p) == files
    decreases |p|
  {
    if k < |p| {
      NearestOfParent(files, p, k);
      MakeDirsExact(files, Parent(p), k);
      MadeMore(files, p, k);
    } else {
      assert p[..|p|] == p;
    }
  }

  lemma MadeMore(files: Files, p: Path, k: nat)
    requires k < |p| && IsNearest(files, p, k)
    requires var made := MakeDirs(files, Parent(p));
             if IsOpen(files, p, k) then MadeBelow(files, made, Parent(p), k) else made == files
    ensures if IsOpen(files, p, k) then MadeBelow(files, MakeDirs(files, p), p, k) else MakeDirs(files, p) == files
  {
    var made := MakeDirs(files, Parent(p));
    assert p[..|p|] == p && p !in files;
    assert Parent(p) == p[..|p| - 1];
    if IsOpen(files, p, k) {
      if k < |p| - 1 { assert Parent(p) == Parent(p)[..|p| - 1]; }
      assert IsDirectory(made, Parent(p));
      forall q ensures OnTheWay(p, k, q) <==> q == p || OnTheWay(Parent(p), k, q) {
        AncestorsMore(p, k, q);
      }
    } else {
      assert !IsDirectory(files, Parent(p)) by {
        if k < |p| - 1 { assert p[..|p| - 1] !in files; }
      }
    }
  }

  lemma AncestorsMore(p: Path, k: nat, q: Path)
    requires k < |p|
    ensures OnTheWay(p, k, q) <==> q == p || OnTheWay(Parent(p), k, q)
  {
    assert p[..|p|] == p;
    forall j | k < j <= |Parent(p)| ensures Parent(p)[..j] == p[..j] {
    }
  }

  /** If nothing but directories is on the way, all of the way is made of directories afterwards, and nothing
    else changes. */
  lemma MakesTheWay(files: Files, p: Path, q: Path)
    requires forall j | 0 < j <= |p| :: p[..j] in files ==> files[p[..j]].Directory?
    requires forall j, k | 0 < j < k <= |p| :: p[..k] in files ==> p[..j] in files
    ensures q != [] && q <= p ==> q in MakeDirs(files, p) && MakeDirs(files, p)[q].Directory?
    ensures !(q != [] && q <= p) ==> (q in MakeDirs(files, p) <==> q in files)
    ensures q in files ==> q in MakeDirs(files, p) && MakeDirs(files, p)[q] == files[q]
  {
    var k := Nearest(files, p);
    MakeDirsExact(files, p, k);
    if q != [] && q <= p {
      assert q == p[..|q|];
    }
  }

  /** The place can be taken: it is not the root or a directory, and the nearest of its ancestors that exists is
    a directory. */
  ghost predicate Placeable(files: Files, p: Path) {
    && p != []
    && !(p in files && files[p].Directory?)
    && exists k | 0 <= k < |p| ::
         && (k == 0 || (p[..k] in files && files[p[..k]].Directory?))
         && forall j | k < j < |p| :: p[..j] !in files
  }

  lemma NearestDecides(files: Files, p: Path, k: nat)
    requires p != [] && IsNearest(files, Parent(p), k)
    ensures Placeable(files, p) <==> !(p in files && files[p].Directory?) && IsOpen(files, Parent(p), k)
  {
    assert Parent(p)[..k] == p[..k];
    forall j | k < j < |p| ensures p[..j] !in files { assert Parent(p)[..j] == p[..j]; }
  }

  /** A file is placed if and only if no call fails and the place can be taken. */
  lemma PlaceSucceedsIff(files: Files, p: Path, entry: Entry, fault: Fault)
    ensures Place(files, p, entry, fault).1.Ok? <==> fault == Fine && Placeable(files, p)
  {
    if p != [] {
      var k := Nearest(files, Parent(p));
      MakeDirsExact(files, Parent(p), k);
      NearestDecides(files, p, k);
      ParentMade(files, p, k);
    }
  }

  lemma ParentMade(files: Files, p: Path, k: nat)
    requires p != [] && IsNearest(files, Parent(p), k)
    requires if IsOpen(files, Parent(p), k) then MadeBelow(files, MakeDirs(files, Parent(p)), Parent(p), k)
             else MakeDirs(files, Parent(p)) == files
    ensures Vacant(Cleared(files, p), p) <==>
            !(p in files && files[p].Directory?) && IsOpen(files, Parent(p), k)
  {
    var made, parent := MakeDirs(files, Parent(p)), Parent(p);
    assert parent != p && parent[..|parent|] == parent;
    assert p in made <==> p in files;
    assert IsDirectory(made, parent) <==> IsOpen(files, parent, k) by {
      if k < |parent| { assert parent !in files; }
    }
  }

  lemma PlaceNodeSucceedsIff(files: Files, node: DevNode, owner: Option<(U32, U32)>, fault: Fault)
    ensures PlaceNode(files, node, owner, fault).1.Ok? <==>
            fault == Fine && owner.Some? && Placeable(files, node.path)
    ensures PlaceNode(files, node, owner, fault).1.Ok? ==>
              PlaceNode(files, node, owner, fault)
              == Place(files, node.path, Node(node.ty, node.major, node.minor, owner), fault)
  {
    PlaceSucceedsIff(files, node.path, Node(node.ty, node.major, node.minor, None), fault);
    var cleared, entry := Cleared(files, node.path), Node(node.ty, node.major, node.minor, None);
    assert cleared[node.path := entry][node.path := Node(node.ty, node.major, node.minor, owner)]
           == cleared[node.path := Node(node.ty, node.major, node.minor, owner)];
  }

  predicate StrictlyAbove(a: Path, b: Path) {
    a <= b && a != b
  }

  /** Placing one file decides nothing about places that lie neither above nor below it. */
  lemma PlaceKeepsPlaceable(files: Files, p: Path, entry: Entry, fault: Fault, q: Path)
    requires !entry.Directory? && Place(files, p, entry, fault).1.Ok?
    requires !StrictlyAbove(p, q) && !StrictlyAbove(q, p)
    ensures Placeable(Place(files, p, entry, fault).0, q) <==> Placeable(files, q)
  {
    var placed := Place(files, p, entry, fault).0;
    PlaceSucceedsIff(files, p, entry, fault);
    var k := Nearest(files, Parent(p));
    MakeDirsExact(files, Parent(p), k);
    NearestDecides(files, p, k);
    PlacedEntries(files, p, entry, fault, k);
    if q != [] {
      var m := Nearest(files, Parent(q));
      var m' := Nearest(placed, Parent(q));
      NearestDecides(files, q, m);
      NearestDecides(placed, q, m');
      SameOpen(files, placed, p, k, q, m, m');
      SelfPlaced(files, placed, p, k, q);
    }
  }

  /** After placing `p`: its missing ancestors are directories, it is not, and the rest is as it was. */
  ghost predicate PlacedAt(files: Files, placed: Files, p: Path, k: nat)
    requires p != []
  {
    && p in placed && !placed[p].Directory?
    && !(p in files && files[p].Directory?)
    && IsNearest(files, Parent(p), k) && IsOpen(files, Parent(p), k)
    && forall q | q != p ::
         if q in files then q in placed && placed[q] == files[q]
         else if OnTheWay(Parent(p), k, q) then q in placed && placed[q].Directory?
         else q !in placed
  }

  lemma PlacedEntries(files: Files, p: Path, entry: Entry, fault: Fault, k: nat)
    requires !entry.Directory? && Place(files, p, entry, fault).1.Ok? && p != []
    requires IsNearest(files, Parent(p), k) && IsOpen(files, Parent(p), k)
    requires MadeBelow(files, MakeDirs(files, Parent(p)), Parent(p), k)
    ensures PlacedAt(files, Place(files, p, entry, fault).0, p, k)
  {
    assert p in MakeDirs(files, Parent(p)) <==> p in files;
  }

  lemma SelfPlaced(files: Files, placed: Files, p: Path, k: nat, q: Path)
    requires p != [] && PlacedAt(files, placed, p, k) && !StrictlyAbove(q, p)
    ensures (q in placed && placed[q].Directory?) <==> (q in files && files[q].Directory?)
  {
    if q != p && q !in files {
      forall j | k < j <= |Parent(p)| ensures q != Parent(p)[..j] {
        assert Parent(p)[..j] == p[..j] && StrictlyAbove(p[..j], p);
      }
    }
  }

  lemma SameOpen(files: Files, placed: Files, p: Path, k: nat, q: Path, m: nat, m': nat)
    requires p != [] && q != [] && PlacedAt(files, placed, p, k) && !StrictlyAbove(p, q)
    requires IsNearest(files, Parent(q), m) && IsNearest(placed, Parent(q), m')
    ensures IsOpen(placed, Parent(q), m') <==> IsOpen(files, Parent(q), m)
  {
    var way := Parent(q);
    forall j | 0 <= j <= |way| ensures way[..j] != p {
      assert way[..j] == q[..j] && StrictlyAbove(q[..j], q);
    }
    assert m <= m';
    if m < m' {
      NewAncestor(files, placed, p, k, way, m, m');
    }
  }

  /** If a directory was made on the way, the nearest one before was that of `p`. */
  lemma NewAncestor(files: Files, placed: Files, p: Path, k: nat, way: Path, m: nat, m': nat)
    requires p != [] && PlacedAt(files, placed, p, k) && forall j | 0 <= j <= |way| :: way[..j] != p
    requires IsNearest(files, way, m) && IsNearest(placed, way, m') && m < m'
    ensures IsOpen(placed, way, m') && IsOpen(files, way, m)
  {
    assert way[..m'] in placed && way[..m'] !in files;
    var j :| k < j <= |Parent(p)| && way[..m'] == Parent(p)[..j];
    assert |way[..m']| == m' == j;
    forall i | 0 <= i <= m' ensures way[..i] == Parent(p)[..i] {
      assert way[..i] == way[..m'][..i] && Parent(p)[..i] == Parent(p)[..j][..i];
    }
    SameNearest(files, way, Parent(p), k, m, m');
  }

  lemma SameNearest(files: Files, a: Path, b: Path, k: nat, m: nat, n: nat)
    requires IsNearest(files, a, m) && IsNearest(files, b, k) && m < n <= |a| && k < n <= |b|
    requires forall i | 0 <= i <= n :: a[..i] == b[..i]
    ensures k == m
  {
    assert a[..k] == b[..k] && a[..m] == b[..m];
  }
}
