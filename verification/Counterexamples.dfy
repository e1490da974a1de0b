/** Runs that show why three of the assumptions are needed: the code itself does not enforce them. */
module Counterexamples {
  import opened Devices
  import opened Monitor
  import opened DeviceFilter
  import opened ContainerState
  import opened Controller
  import opened Effects
  import opened Pipeline
  import opened Ordering
  import opened Sysfs
  import opened SysfsRuns
  import Mounts

  // ----- Playing a script -----

  const ROOTS: seq<Path> := [["sys"]]

  /** A configuration without rules, for a container outside a user namespace. */
  function Simple(sysfs: bool): Config {
    Config([], sysfs, Some((0, 0)))
  }

  function Calm(bind: bool): Env {
    Env(0, Fine, bind)
  }

  /** The steps are possible and lead from `s` to `t`. */
  predicate Leads(c: Config, s: System, steps: seq<Step>, t: System) {
    Possible(c, s, steps) && Run(c, s, steps) == t
  }

  lemma Extend(c: Config, s: System, steps: seq<Step>, t: System, step: Step)
    requires Leads(c, s, steps, t)
    requires step.HostEvent? ==> Enabled(Host(t.past.history), step.e)
    ensures Leads(c, s, steps + [step], Apply(c, t, step))
    ensures AlwaysSafe(c, s, steps) && SafeStep(t.machine.plant, Apply(c, t, step).machine.plant) ==>
              AlwaysSafe(c, s, steps + [step])
  {
    var more := steps + [step];
    assert more[..|more| - 1] == steps;
  }

  /** The start, after listening to all but the first `listen` events. */
  function Fresh(history: seq<UdevEvent>, listen: nat, scan: seq<Device>, files: Files, mounts: Mounts.Mount): System
    requires listen <= |history|
  {
    var plant := Plant(map[], {}, map[], files, mounts, 0, []);
    System(Past(history, listen, |history|, listen),
           Machine(Start(ROOTS, scan, history[listen..]), plant, Draining), [], [])
  }

  /** Where a run stands, apart from the container. */
  predicate Stands(t: System, history: seq<UdevEvent>, listen: nat, scan: nat, mon: State) {
    && t.past.history == history && t.past.listen == listen && t.past.scan == scan
    && t.machine.mon == mon && t.machine.phase == Draining
  }

  lemma AddTurn(c: Config, s: System, env: Env, history: seq<UdevEvent>, listen: nat, scan: nat,
                mon: State, mon': State, d: Device)
    requires Stands(s, history, listen, scan, mon) && Read(mon) == (mon', Some(Add(d)))
    requires AddDevice(c, s.machine.plant, d, env).1.Ok?
    ensures Stands(Apply(c, s, Turn(env)), history, listen, scan, mon')
    ensures Apply(c, s, Turn(env)).machine.plant == AddDevice(c, s.machine.plant, d, env).0
  {
  }

  lemma RemoveTurn(c: Config, s: System, env: Env, history: seq<UdevEvent>, listen: nat, scan: nat,
                   mon: State, mon': State, d: Device)
    requires Stands(s, history, listen, scan, mon) && Read(mon) == (mon', Some(Remove(d)))
    requires RemoveDevice(s.machine.plant, d.syspath, env).1.Ok?
    ensures Stands(Apply(c, s, Turn(env)), history, listen, scan, mon')
    ensures Apply(c, s, Turn(env)).machine.plant == RemoveDevice(s.machine.plant, d.syspath, env).0
  {
  }

  // ----- What events do to a container with room in `/dev` -----

  predicate HasRoom(files: Files, nodes: set<Path>) {
    && ["dev"] in files && files[["dev"]].Directory?
    && forall p | p in nodes :: |p| == 2 && p[0] == "dev" && (p in files ==> !files[p].Directory?)
  }

  lemma PlaceInDev(files: Files, nodes: set<Path>, node: DevNode, owner: (U32, U32))
    requires HasRoom(files, nodes) && node.path in nodes
    ensures PlaceNode(files, node, Some(owner), Fine).1.Ok?
    ensures HasRoom(PlaceNode(files, node, Some(owner), Fine).0, nodes)
  {
    assert Parent(node.path) == ["dev"] && node.path != ["dev"];
    assert MakeDirs(files, ["dev"]) == files;
    assert ["dev"] in Cleared(files, node.path);
  }

  lemma DeviceAdded(c: Config, s: Plant, d: Device, nodes: set<Path>, bind: bool)
    requires c == Simple(c.sysfs) && d.node.Some? && d.node.value.path in nodes
    requires HasRoom(s.files, nodes) && |s.perms| < MAX_ENTRIES
    ensures var (t, r) := AddDevice(c, s, d, Calm(bind));
            && r.Ok? && HasRoom(t.files, nodes)
            && t.devices == s.devices[d.syspath := Attached(d, [])]
            && t.perms == s.perms[KeyOf(d.node.value) := ALL]
            && t.mounts == (if c.sysfs && bind then Mounts.Bind(s.mounts, d.syspath) else s.mounts)
            && t.bound == (if c.sysfs && bind then s.bound + {d.syspath} else s.bound)
  {
    PlaceInDev(s.files, nodes, d.node.value, (0, 0));
    assert MatchingLinks([], d) == [];
  }

  lemma DeviceRemoved(s: Plant, d: Device, nodes: set<Path>, bind: bool)
    requires d.node.Some? && d.node.value.path in nodes && HasRoom(s.files, nodes)
    requires d.syspath in s.devices && s.devices[d.syspath] == Attached(d, []) && KeyOf(d.node.value) in s.perms
    ensures var (t, r) := RemoveDevice(s, d.syspath, Calm(bind));
            && r.Ok? && HasRoom(t.files, nodes)
            && t.devices == s.devices - {d.syspath}
            && t.perms == s.perms - {KeyOf(d.node.value)}
            && t.mounts == (if d.syspath in s.bound then Mounts.Unbind(s.mounts, d.syspath) else s.mounts)
            && t.bound == s.bound - {d.syspath}
  {
    assert ["dev"] != d.node.value.path;
  }

  // ----- A device number that moves within the overlap -----

  function Disk(syspath: Path, node: Path): Device {
    Device(syspath, Some(DevNode(node, Block, 8, 0)), [], 0, 0)
  }

  const OLD: Device := Disk(["sys", "a"], ["dev", "a"])
  const NEW: Device := Disk(["sys", "b"], ["dev", "b"])
  const DISKS: set<Path> := {["dev", "a"], ["dev", "b"]}

  /** The number 8:0 moves from one device to another between listening and enumerating. */
  const MOVED: seq<UdevEvent> := [Added(OLD), Removed(OLD.syspath), Added(NEW)]

  lemma MovedHost()
    ensures Lawful(MOVED) && Host(MOVED) == map[NEW.syspath := NEW]
    ensures Host(MOVED[..1]) == map[OLD.syspath := OLD]
  {
    var h1, h2 := MOVED[..1], MOVED[..2];
    assert h1[..0] == [] && h2[..1] == h1 && MOVED[..3] == MOVED;
    HostSnoc(MOVED, 0);
    HostSnoc(MOVED, 1);
    HostSnoc(MOVED, 2);
    assert OLD.syspath != NEW.syspath;
  }

  lemma IsBelow(d: Device)
    requires d.syspath != [] && d.syspath[0] == "sys"
    ensures Below(ROOTS, d.syspath)
  {
    assert ROOTS[0] in ROOTS && ROOTS[0] <= d.syspath;
  }

  /** The monitor at the start and after each of its three reports. */
  function DiskMonitor(n: nat): State {
    if n == 0 then State(ROOTS, map[NEW.syspath := NEW], [NEW], MOVED, true)
    else if n == 1 then State(ROOTS, map[NEW.syspath := NEW], [], MOVED, true)
    else if n == 2 then State(ROOTS, map[NEW.syspath := NEW][OLD.syspath := OLD], [], MOVED[1..], true)
    else State(ROOTS, map[NEW.syspath := NEW], [], MOVED[2..], true)
  }

  lemma DiskStart()
    ensures Start(ROOTS, [NEW], MOVED) == DiskMonitor(0)
  {
    IsBelow(NEW);
    assert [NEW][..0] == [];
    assert Filtered([], ROOTS) == [];
    assert Filtered([NEW], ROOTS) == [NEW];
    assert Index([]) == map[] && Index([NEW]) == Index([])[NEW.syspath := NEW];
  }

  lemma FirstDisk()
    ensures Read(DiskMonitor(0)) == (DiskMonitor(1), Some(Add(NEW)))
  {
    assert [NEW][1..] == [];
  }

  lemma SecondDisk()
    ensures Read(DiskMonitor(1)) == (DiskMonitor(2), Some(Add(OLD)))
  {
    IsBelow(OLD);
    assert MOVED[0] == Added(OLD) && OLD.syspath != NEW.syspath;
  }

  lemma ThirdDisk()
    ensures Read(DiskMonitor(2)) == (DiskMonitor(3), Some(Remove(OLD)))
  {
    assert OLD.syspath != NEW.syspath;
    assert MOVED[1..][0] == Removed(OLD.syspath) && MOVED[1..][1..] == MOVED[2..];
    assert map[NEW.syspath := NEW][OLD.syspath := OLD] - {OLD.syspath} == map[NEW.syspath := NEW];
  }

  function DiskStarts(files: Files, mounts: Mounts.Mount): System {
    Fresh(MOVED, 0, [NEW], files, mounts)
  }

  /** Which disks the container has, with their one permission entry. */
  predicate DiskHas(s: Plant, devices: map<Path, Attached>, granted: bool) {
    HasRoom(s.files, DISKS) && s.devices == devices
    && s.perms == if granted then map[KeyOf(NEW.node.value) := ALL] else map[]
  }

  const FIRST: map<Path, Attached> := map[NEW.syspath := Attached(NEW, [])]
  const SECOND: map<Path, Attached> := FIRST[OLD.syspath := Attached(OLD, [])]

  lemma NewAdded(s: Plant)
    requires DiskHas(s, map[], false)
    ensures AddDevice(Simple(false), s, NEW, Calm(true)).1.Ok?
    ensures DiskHas(AddDevice(Simple(false), s, NEW, Calm(true)).0, FIRST, true)
  {
    DeviceAdded(Simple(false), s, NEW, DISKS, true);
  }

  lemma OldAdded(s: Plant)
    requires DiskHas(s, FIRST, true)
    ensures AddDevice(Simple(false), s, OLD, Calm(true)).1.Ok?
    ensures DiskHas(AddDevice(Simple(false), s, OLD, Calm(true)).0, SECOND, true)
  {
    DeviceAdded(Simple(false), s, OLD, DISKS, true);
    assert KeyOf(NEW.node.value) == KeyOf(OLD.node.value);
    Regranted(s.perms, KeyOf(NEW.node.value));
  }

  lemma Regranted(perms: Permissions, k: Key)
    requires perms == map[k := ALL]
    ensures perms[k := ALL] == perms
  {
  }

  lemma OldRemoved(s: Plant)
    requires DiskHas(s, SECOND, true)
    ensures RemoveDevice(s, OLD.syspath, Calm(true)).1.Ok?
    ensures DiskHas(RemoveDevice(s, OLD.syspath, Calm(true)).0, FIRST, false)
  {
    assert OLD.syspath != NEW.syspath && KeyOf(NEW.node.value) == KeyOf(OLD.node.value);
    DeviceRemoved(s, OLD, DISKS, true);
    assert SECOND - {OLD.syspath} == FIRST;
  }

  predicate DiskStands(t: System, n: nat, devices: map<Path, Attached>, granted: bool) {
    Stands(t, MOVED, 0, 3, DiskMonitor(n)) && DiskHas(t.machine.plant, devices, granted)
  }

  lemma DiskComes(s0: System, steps: seq<Step>, s: System) returns (more: seq<Step>, t: System)
    requires Leads(Simple(false), s0, steps, s) && DiskStands(s, 0, map[], false)
    ensures Leads(Simple(false), s0, more, t) && DiskStands(t, 1, FIRST, true)
  {
    FirstDisk();
    NewAdded(s.machine.plant);
    AddTurn(Simple(false), s, Calm(true), MOVED, 0, 3, DiskMonitor(0), DiskMonitor(1), NEW);
    Extend(Simple(false), s0, steps, s, Turn(Calm(true)));
    more, t := steps + [Turn(Calm(true))], Apply(Simple(false), s, Turn(Calm(true)));
  }

  lemma OldDiskComes(s0: System, steps: seq<Step>, s: System) returns (more: seq<Step>, t: System)
    requires Leads(Simple(false), s0, steps, s) && DiskStands(s, 1, FIRST, true)
    ensures Leads(Simple(false), s0, more, t) && DiskStands(t, 2, SECOND, true)
  {
    SecondDisk();
    OldAdded(s.machine.plant);
    AddTurn(Simple(false), s, Calm(true), MOVED, 0, 3, DiskMonitor(1), DiskMonitor(2), OLD);
    Extend(Simple(false), s0, steps, s, Turn(Calm(true)));
    more, t := steps + [Turn(Calm(true))], Apply(Simple(false), s, Turn(Calm(true)));
  }

  lemma OldDiskGoes(s0: System, steps: seq<Step>, s: System) returns (more: seq<Step>, t: System)
    requires Leads(Simple(false), s0, steps, s) && DiskStands(s, 2, SECOND, true)
    ensures Leads(Simple(false), s0, more, t) && DiskStands(t, 3, FIRST, false)
  {
    ThirdDisk();
    OldRemoved(s.machine.plant);
    RemoveTurn(Simple(false), s, Calm(true), MOVED, 0, 3, DiskMonitor(2), DiskMonitor(3), OLD);
    Extend(Simple(false), s0, steps, s, Turn(Calm(true)));
    more, t := steps + [Turn(Calm(true))], Apply(Simple(false), s, Turn(Calm(true)));
  }

  /** Devices present together after enumerating do not share a number, but two of the window do. */
  lemma DiskAssumption(past: Past)
    requires past.history == MOVED && past.listen == 0 && past.scan == 3
    ensures HostPairwise(past, ROOTS, DistinctNumbers())
    ensures !WindowPairwise(past, ROOTS, DistinctNumbers())
  {
    MovedHost();
    assert MOVED[..3] == MOVED;
    assert PresentAt(MOVED, 1, OLD) && PresentAt(MOVED, 3, NEW);
    assert InWindow(past, OLD) && InWindow(past, NEW);
    IsBelow(OLD);
    IsBelow(NEW);
    assert OLD.syspath != NEW.syspath && !KeysApart(OLD, NEW);
    assert !DistinctNumbers()(OLD, NEW);
  }

  /** With no permission left, the attached device is denied and cannot be removed any more. */
  lemma DiskRevoked(t: System)
    requires DiskStands(t, 3, FIRST, false)
    ensures !InStep(t)
    ensures CheckDevice(t.machine.plant.perms, Pack(READ, BLOCK_CODE), 8, 0) == 0
    ensures RemoveDevice(t.machine.plant, NEW.syspath, Calm(true)).1 == Err(MissingKey)
  {
    PackUnpack(READ, BLOCK_CODE);
    var held := Delivered(DiskMonitor(3));
    assert NEW.syspath in held && held[NEW.syspath].node == Some(NEW.node.value);
    assert NEW.node.value in NodesOf(held);
  }

  /** A device number that moves to another device within the overlap is revoked from its new owner: the
    device stays attached, but the filter denies it, and its removal later fails for a missing entry. So
    the assumption on device numbers has to cover the whole window. */
  lemma OverlapRevokes(files: Files, mounts: Mounts.Mount) returns (steps: seq<Step>, t: System)
    requires HasRoom(files, DISKS)
    ensures Initial(DiskStarts(files, mounts), [NEW], files, mounts)
    ensures Leads(Simple(false), DiskStarts(files, mounts), steps, t) && t.machine.phase.Draining?
    ensures HostPairwise(t.past, ROOTS, DistinctNumbers()) && !WindowPairwise(t.past, ROOTS, DistinctNumbers())
    ensures t.machine.plant.devices == FIRST && !InStep(t)
    ensures CheckDevice(t.machine.plant.perms, Pack(READ, BLOCK_CODE), 8, 0) == 0
    ensures RemoveDevice(t.machine.plant, NEW.syspath, Calm(true)).1 == Err(MissingKey)
  {
    var s := DiskStarts(files, mounts);
    DiskInitial(files, mounts);
    steps, t := DiskComes(s, [], s);
    steps, t := OldDiskComes(s, steps, t);
    steps, t := OldDiskGoes(s, steps, t);
    DiskAssumption(t.past);
    DiskRevoked(t);
  }

  lemma DiskInitial(files: Files, mounts: Mounts.Mount)
    ensures Initial(DiskStarts(files, mounts), [NEW], files, mounts)
    ensures DiskStarts(files, mounts).machine.mon == DiskMonitor(0)
  {
    MovedHost();
    DiskStart();
    assert MOVED[0..] == MOVED;
  }

  // ----- A hub that is plugged in again within the overlap -----

  const HUB: Device := Disk(["sys", "h"], ["dev", "h"])
  const PORT: Device := Device(["sys", "h", "x"], Some(DevNode(["dev", "x"], Character, 4, 64)), [], 0, 0)
  const USB: set<Path> := {["dev", "h"], ["dev", "x"]}

  const REPLUG: seq<UdevEvent> := [Removed(HUB.syspath), Added(HUB), Added(PORT)]
  const REPLUGGED: seq<UdevEvent> := [Added(HUB)] + REPLUG

  const BOTH: Registry := map[HUB.syspath := HUB][PORT.syspath := PORT]

  /** The monitor at the start and after each of four reports, with more events in the socket. */
  function HubMonitor(n: nat, more: seq<UdevEvent>): State {
    if n == 0 then State(ROOTS, BOTH, [HUB, PORT], REPLUG + more, true)
    else if n == 1 then State(ROOTS, BOTH, [PORT], REPLUG + more, true)
    else if n == 2 then State(ROOTS, BOTH, [], REPLUG + more, true)
    else if n == 3 then State(ROOTS, BOTH - {HUB.syspath}, [], REPLUG[1..] + more, true)
    else State(ROOTS, BOTH, [], REPLUG[2..] + more, true)
  }

  lemma HubStart()
    ensures Start(ROOTS, [HUB, PORT], REPLUG)
            == State(ROOTS, map[HUB.syspath := HUB][PORT.syspath := PORT], [HUB, PORT], REPLUG, true)
  {
    IsBelow(HUB);
    IsBelow(PORT);
    var scan := [HUB, PORT];
    assert scan[..1] == [HUB] && [HUB][..0] == [];
    assert Filtered([], ROOTS) == [] && Filtered([HUB], ROOTS) == [HUB] && Filtered(scan, ROOTS) == scan;
    assert Index([]) == map[] && Index([HUB]) == Index([])[HUB.syspath := HUB];
  }

  lemma HubReports(more: seq<UdevEvent>)
    ensures Read(HubMonitor(0, more)) == (HubMonitor(1, more), Some(Add(HUB)))
    ensures Read(HubMonitor(1, more)) == (HubMonitor(2, more), Some(Add(PORT)))
  {
    assert [HUB, PORT][1..] == [PORT] && [PORT][1..] == [];
  }

  lemma HubGoneReport(more: seq<UdevEvent>)
    ensures Read(HubMonitor(2, more)) == (HubMonitor(3, more), Some(Remove(HUB)))
  {
    assert HUB.syspath != PORT.syspath && (REPLUG + more)[0] == Removed(HUB.syspath);
    assert (REPLUG + more)[1..] == REPLUG[1..] + more;
  }

  lemma HubBackReport(more: seq<UdevEvent>)
    ensures Read(HubMonitor(3, more)) == (HubMonitor(4, more), Some(Add(HUB)))
  {
    IsBelow(HUB);
    var socket := REPLUG[1..] + more;
    assert socket[0] == Added(HUB) && socket[1..] == REPLUG[2..] + more;
    assert (BOTH - {HUB.syspath})[HUB.syspath := HUB] == BOTH;
  }

  lemma HubHistory()
    ensures Lawful(REPLUGGED) && Host(REPLUGGED) == BOTH
    ensures REPLUGGED[1..] == REPLUG && |REPLUGGED| == 4
    ensures OrderedHost(REPLUGGED)
  {
    var h := REPLUGGED;
    assert h == [Added(HUB), Removed(HUB.syspath), Added(HUB), Added(PORT)];
    assert h[..0] == [] && h[..4] == h && HUB.syspath != PORT.syspath;
    HostSnoc(h, 0);
    HostSnoc(h, 1);
    HostSnoc(h, 2);
    HostSnoc(h, 3);
    assert !(PORT.syspath <= HUB.syspath);
    assert Host(h[..3]) == map[HUB.syspath := HUB];
    assert LeafChange(Host(h[..0]), h[0]) && LeafChange(Host(h[..1]), h[1]);
    assert LeafChange(Host(h[..2]), h[2]) && LeafChange(Host(h[..3]), h[3]);
  }

  function HubStarts(files: Files, base: Mounts.Mount): System {
    Fresh(REPLUGGED, 1, [HUB, PORT], files, base)
  }

  lemma HubInitial(files: Files, base: Mounts.Mount)
    ensures Initial(HubStarts(files, base), [HUB, PORT], files, base)
    ensures HubStarts(files, base).machine.mon == HubMonitor(0, [])
  {
    HubHistory();
    HubStart();
    assert REPLUG + [] == REPLUG;
    HubListed();
  }

  lemma HubListed()
    ensures Lists([HUB, PORT], BOTH)
  {
    assert HUB.syspath != PORT.syspath;
  }

  lemma HubTiered()
    ensures Tiered(HubMonitor(0, []))
  {
    var m := HubMonitor(0, []);
    assert m.enumerated[0].syspath in Queued(m.enumerated) && m.enumerated[1].syspath in Queued(m.enumerated);
    assert Delivered(m) == map[];
  }

  /** The attached ones of the two devices, with their permissions and the mounts. */
  predicate HubHas(s: Plant, hub: bool, port: bool, bound: set<Path>, mounts: Mounts.Mount) {
    && HasRoom(s.files, USB) && s.bound == bound && s.mounts == mounts
    && s.devices.Keys == (if hub then {HUB.syspath} else {}) + (if port then {PORT.syspath} else {})
    && (hub ==> s.devices[HUB.syspath] == Attached(HUB, []) && KeyOf(HUB.node.value) in s.perms)
    && (port ==> s.devices[PORT.syspath] == Attached(PORT, []) && KeyOf(PORT.node.value) in s.perms)
    && s.perms.Keys <= {KeyOf(HUB.node.value), KeyOf(PORT.node.value)}
  }

  lemma {:induction false} SubsetSize(a: set<Key>, b: set<Key>)
    requires a <= b
    ensures |a| <= |b|
  {
    if k :| k in a {
      SubsetSize(a - {k}, b - {k});
    }
  }

  lemma FewPerms(perms: Permissions)
    requires perms.Keys <= {KeyOf(HUB.node.value), KeyOf(PORT.node.value)}
    ensures |perms| < MAX_ENTRIES
  {
    SubsetSize(perms.Keys, {KeyOf(HUB.node.value), KeyOf(PORT.node.value)});
    assert |perms| == |perms.Keys|;
  }

  lemma UsbAdded(s: Plant, d: Device, bind: bool)
    requires d == HUB || d == PORT
    requires HasRoom(s.files, USB) && s.perms.Keys <= {KeyOf(HUB.node.value), KeyOf(PORT.node.value)}
    ensures var (t, r) := AddDevice(Simple(true), s, d, Calm(bind));
            && r.Ok? && HasRoom(t.files, USB)
            && t.devices == s.devices[d.syspath := Attached(d, [])]
            && t.perms == s.perms[KeyOf(d.node.value) := ALL]
            && t.mounts == (if bind then Mounts.Bind(s.mounts, d.syspath) else s.mounts)
            && t.bound == (if bind then s.bound + {d.syspath} else s.bound)
  {
    FewPerms(s.perms);
    DeviceAdded(Simple(true), s, d, USB, bind);
  }

  lemma HubComes(s: Plant, port: bool, bound: set<Path>, mounts: Mounts.Mount, bind: bool)
    requires HubHas(s, false, port, bound, mounts)
    ensures AddDevice(Simple(true), s, HUB, Calm(bind)).1.Ok?
    ensures HubHas(AddDevice(Simple(true), s, HUB, Calm(bind)).0, true, port,
                   if bind then bound + {HUB.syspath} else bound,
                   if bind then Mounts.Bind(mounts, HUB.syspath) else mounts)
  {
    assert HUB.syspath != PORT.syspath;
    UsbAdded(s, HUB, bind);
  }

  lemma PortComes(s: Plant, hub: bool, bound: set<Path>, mounts: Mounts.Mount)
    requires HubHas(s, hub, false, bound, mounts)
    ensures AddDevice(Simple(true), s, PORT, Calm(true)).1.Ok?
    ensures HubHas(AddDevice(Simple(true), s, PORT, Calm(true)).0, hub, true,
                   bound + {PORT.syspath}, Mounts.Bind(mounts, PORT.syspath))
  {
    assert HUB.syspath != PORT.syspath;
    UsbAdded(s, PORT, true);
  }

  lemma HubGoes(s: Plant, port: bool, bound: set<Path>, mounts: Mounts.Mount, bind: bool)
    requires HubHas(s, true, port, bound, mounts)
    ensures RemoveDevice(s, HUB.syspath, Calm(bind)).1.Ok?
    ensures HubHas(RemoveDevice(s, HUB.syspath, Calm(bind)).0, false, port, bound - {HUB.syspath},
                   if HUB.syspath in bound then Mounts.Unbind(mounts, HUB.syspath) else mounts)
  {
    assert HUB.syspath != PORT.syspath && KeyOf(HUB.node.value) != KeyOf(PORT.node.value);
    DeviceRemoved(s, HUB, USB, bind);
  }

  lemma PortGoes(s: Plant, hub: bool, bound: set<Path>, mounts: Mounts.Mount)
    requires HubHas(s, hub, true, bound, mounts)
    ensures RemoveDevice(s, PORT.syspath, Calm(true)).1.Ok?
    ensures HubHas(RemoveDevice(s, PORT.syspath, Calm(true)).0, hub, false, bound - {PORT.syspath},
                   if PORT.syspath in bound then Mounts.Unbind(mounts, PORT.syspath) else mounts)
  {
    assert HUB.syspath != PORT.syspath && KeyOf(HUB.node.value) != KeyOf(PORT.node.value);
    DeviceRemoved(s, PORT, USB, true);
  }

  /** Where a run of the scenario stands, the container included. */
  predicate HubStands(t: System, history: seq<UdevEvent>, mon: State, hub: bool, port: bool, bound: set<Path>,
                      mounts: Mounts.Mount)
  {
    Stands(t, history, 1, 4, mon) && HubHas(t.machine.plant, hub, port, bound, mounts)
  }

  lemma HubBegins(files: Files, base: Mounts.Mount) returns (s: System)
    requires HasRoom(files, USB)
    ensures s == HubStarts(files, base)
    ensures Leads(Simple(true), s, [], s) && AlwaysSafe(Simple(true), s, [])
    ensures HubStands(s, REPLUGGED, HubMonitor(0, []), false, false, {}, base)
  {
    s := HubStarts(files, base);
    HubInitial(files, base);
    HubHistory();
  }

  /** Hub and port arrive; the hub's own bind may fail. */
  lemma HubTurn0(s0: System, steps: seq<Step>, s: System, history: seq<UdevEvent>, more: seq<UdevEvent>,
                base: Mounts.Mount, bind: bool)
    returns (longer: seq<Step>, t: System)
    requires Leads(Simple(true), s0, steps, s)
    requires HubStands(s, history, HubMonitor(0, more), false, false, {}, base)
    ensures Leads(Simple(true), s0, longer, t)
    ensures HubStands(t, history, HubMonitor(1, more), true, false,
                      if bind then {HUB.syspath} else {}, if bind then Mounts.Bind(base, HUB.syspath) else base)
    ensures AlwaysSafe(Simple(true), s0, steps) && SafeStep(s.machine.plant, t.machine.plant) ==>
              AlwaysSafe(Simple(true), s0, longer)
  {
    HubReports(more);
    HubComes(s.machine.plant, false, {}, base, bind);
    AddTurn(Simple(true), s, Calm(bind), history, 1, 4, HubMonitor(0, more), HubMonitor(1, more), HUB);
    Extend(Simple(true), s0, steps, s, Turn(Calm(bind)));
    longer, t := steps + [Turn(Calm(bind))], Apply(Simple(true), s, Turn(Calm(bind)));
  }

  lemma HubTurn1(s0: System, steps: seq<Step>, s: System, history: seq<UdevEvent>, more: seq<UdevEvent>,
                bound: set<Path>, mounts: Mounts.Mount)
    returns (longer: seq<Step>, t: System)
    requires Leads(Simple(true), s0, steps, s)
    requires HubStands(s, history, HubMonitor(1, more), true, false, bound, mounts)
    ensures Leads(Simple(true), s0, longer, t)
    ensures HubStands(t, history, HubMonitor(2, more), true, true,
                      bound + {PORT.syspath}, Mounts.Bind(mounts, PORT.syspath))
    ensures AlwaysSafe(Simple(true), s0, steps) && SafeStep(s.machine.plant, t.machine.plant) ==>
              AlwaysSafe(Simple(true), s0, longer)
  {
    HubReports(more);
    PortComes(s.machine.plant, true, bound, mounts);
    AddTurn(Simple(true), s, Calm(true), history, 1, 4, HubMonitor(1, more), HubMonitor(2, more), PORT);
    Extend(Simple(true), s0, steps, s, Turn(Calm(true)));
    longer, t := steps + [Turn(Calm(true))], Apply(Simple(true), s, Turn(Calm(true)));
  }

  lemma HubTurn2(s0: System, steps: seq<Step>, s: System, history: seq<UdevEvent>, more: seq<UdevEvent>,
                bound: set<Path>, mounts: Mounts.Mount)
    returns (longer: seq<Step>, t: System)
    requires Leads(Simple(true), s0, steps, s)
    requires HubStands(s, history, HubMonitor(2, more), true, true, bound, mounts)
    ensures Leads(Simple(true), s0, longer, t)
    ensures HubStands(t, history, HubMonitor(3, more), false, true, bound - {HUB.syspath},
                      if HUB.syspath in bound then Mounts.Unbind(mounts, HUB.syspath) else mounts)
    ensures AlwaysSafe(Simple(true), s0, steps) && SafeStep(s.machine.plant, t.machine.plant) ==>
              AlwaysSafe(Simple(true), s0, longer)
  {
    HubGoneReport(more);
    HubGoes(s.machine.plant, true, bound, mounts, true);
    RemoveTurn(Simple(true), s, Calm(true), history, 1, 4, HubMonitor(2, more), HubMonitor(3, more), HUB);
    Extend(Simple(true), s0, steps, s, Turn(Calm(true)));
    longer, t := steps + [Turn(Calm(true))], Apply(Simple(true), s, Turn(Calm(true)));
  }

  lemma HubTurn3(s0: System, steps: seq<Step>, s: System, history: seq<UdevEvent>, more: seq<UdevEvent>,
                bound: set<Path>, mounts: Mounts.Mount, bind: bool)
    returns (longer: seq<Step>, t: System)
    requires Leads(Simple(true), s0, steps, s)
    requires HubStands(s, history, HubMonitor(3, more), false, true, bound, mounts)
    ensures Leads(Simple(true), s0, longer, t)
    ensures HubStands(t, history, HubMonitor(4, more), true, true, if bind then bound + {HUB.syspath} else bound,
                      if bind then Mounts.Bind(mounts, HUB.syspath) else mounts)
    ensures AlwaysSafe(Simple(true), s0, steps) && SafeStep(s.machine.plant, t.machine.plant) ==>
              AlwaysSafe(Simple(true), s0, longer)
  {
    HubBackReport(more);
    HubComes(s.machine.plant, true, bound, mounts, bind);
    AddTurn(Simple(true), s, Calm(bind), history, 1, 4, HubMonitor(3, more), HubMonitor(4, more), HUB);
    Extend(Simple(true), s0, steps, s, Turn(Calm(bind)));
    longer, t := steps + [Turn(Calm(bind))], Apply(Simple(true), s, Turn(Calm(bind)));
  }

  lemma UnmountsRun(files: Files, base: Mounts.Mount) returns (steps: seq<Step>, t: System)
    requires HasRoom(files, USB)
    ensures Leads(Simple(true), HubStarts(files, base), steps, t)
    ensures HubStands(t, REPLUGGED, HubMonitor(4, []), true, true, {PORT.syspath}, base)
  {
    var s := HubBegins(files, base);
    var h := REPLUGGED;
    var hub, both := {HUB.syspath}, {HUB.syspath} + {PORT.syspath};
    var one := Mounts.Bind(base, HUB.syspath);
    var two := Mounts.Bind(one, PORT.syspath);
    steps, t := HubTurn0(s, [], s, h, [], base, true);
    steps, t := HubTurn1(s, steps, t, h, [], hub, one);
    steps, t := HubTurn2(s, steps, t, h, [], both, two);
    assert HUB.syspath != PORT.syspath && HUB.syspath <= PORT.syspath;
    assert both - {HUB.syspath} == {PORT.syspath};
    Mounts.UnbindTakesSubtree(base, HUB.syspath, PORT.syspath);
    steps, t := HubTurn3(s, steps, t, h, [], {PORT.syspath}, base, false);
  }

  /** A hub plugged in again within the overlap takes the mount of the port below it along, although host and
    enumeration are ordered: the port's directory is bound as far as the controller knows, but it is not
    writable. So the window has to be calm. */
  lemma OverlapUnmounts(files: Files, base: Mounts.Mount) returns (steps: seq<Step>, t: System)
    requires HasRoom(files, USB) && !Mounts.Writable(base, PORT.syspath)
    ensures Initial(HubStarts(files, base), [HUB, PORT], files, base)
    ensures Leads(Simple(true), HubStarts(files, base), steps, t) && t.machine.phase.Draining?
    ensures Tiered(HubStarts(files, base).machine.mon) && OrderedHost(t.past.history) && !CalmWindow(t.past, ROOTS)
    ensures !Exact(base, t.machine.plant)
    ensures PORT.syspath in t.machine.plant.bound && !Mounts.Writable(t.machine.plant.mounts, PORT.syspath)
  {
    HubInitial(files, base);
    HubHistory();
    HubTiered();
    steps, t := UnmountsRun(files, base);
    NotExact(base, t.machine.plant);
    HubNotCalm(t.past);
  }

  lemma NotExact(base: Mounts.Mount, s: Plant)
    requires PORT.syspath in s.bound && !Mounts.Writable(s.mounts, PORT.syspath)
    ensures !Exact(base, s)
  {
    assert PORT.syspath <= PORT.syspath;
    assert CoveredBySet(s.bound, PORT.syspath);
  }

  lemma HubNotCalm(past: Past)
    requires past.history == REPLUGGED && past.listen == 1 && past.scan == 4
    ensures !CalmWindow(past, ROOTS)
  {
    HubHistory();
    IsBelow(HUB);
    assert past.history[1] == Removed(HUB.syspath);
  }

  // ----- A hub that is bound after the port below it -----

  const UNPLUG: seq<UdevEvent> := [Removed(PORT.syspath), Removed(HUB.syspath)]

  /** The monitor after two more reports. */
  function LateMonitor(n: nat): State {
    if n == 5 then State(ROOTS, map[HUB.syspath := HUB], [], UNPLUG[1..], true)
    else State(ROOTS, map[], [], [], true)
  }

  lemma PortReport()
    ensures Read(HubMonitor(4, UNPLUG)) == (LateMonitor(5), Some(Remove(PORT)))
  {
    var m := HubMonitor(4, UNPLUG);
    assert HUB.syspath != PORT.syspath && BOTH - {PORT.syspath} == map[HUB.syspath := HUB];
    assert m.socket == [Added(PORT), Removed(PORT.syspath), Removed(HUB.syspath)];
    var later := m.(socket := m.socket[1..]);
    assert Read(m) == Read(later);
    assert later.socket[0] == Removed(PORT.syspath) && later.socket[1..] == UNPLUG[1..];
  }

  lemma HubReport()
    ensures Read(LateMonitor(5)) == (LateMonitor(6), Some(Remove(HUB)))
  {
    assert UNPLUG[1..][0] == Removed(HUB.syspath) && UNPLUG[1..][1..] == [];
    assert map[HUB.syspath := HUB] - {HUB.syspath} == map[];
  }

  const UNPLUGGED: seq<UdevEvent> := REPLUGGED + UNPLUG

  lemma Unplug(s0: System, steps: seq<Step>, s: System, history: seq<UdevEvent>, e: UdevEvent, mon: State,
               base: Mounts.Mount)
    returns (longer: seq<Step>, t: System)
    requires Leads(Simple(true), s0, steps, s) && HubStands(s, history, mon, false, false, {}, base)
    requires Enabled(Host(history), e) && AlwaysSafe(Simple(true), s0, steps)
    ensures Leads(Simple(true), s0, longer, t) && AlwaysSafe(Simple(true), s0, longer)
    ensures HubStands(t, history + [e], Push(mon, e), false, false, {}, base)
  {
    Extend(Simple(true), s0, steps, s, HostEvent(e));
    longer, t := steps + [HostEvent(e)], Apply(Simple(true), s, HostEvent(e));
  }

  lemma UnplugEnabled()
    ensures Enabled(Host(REPLUGGED), UNPLUG[0]) && Enabled(Host(REPLUGGED + [UNPLUG[0]]), UNPLUG[1])
    ensures REPLUGGED + [UNPLUG[0]] + [UNPLUG[1]] == UNPLUGGED
    ensures Push(Push(HubMonitor(0, []), UNPLUG[0]), UNPLUG[1]) == HubMonitor(0, UNPLUG)
  {
    assert REPLUG + [] + [UNPLUG[0]] + [UNPLUG[1]] == REPLUG + UNPLUG;
    var first := REPLUGGED + [UNPLUG[0]];
    HubHistory();
    assert first[..4] == REPLUGGED;
    HostSnoc(first, 4);
    assert first[..5] == first && HUB.syspath != PORT.syspath;
  }

  /** The host unplugs the port, then the hub. */
  lemma UnplugHost(files: Files, base: Mounts.Mount) returns (steps: seq<Step>, t: System)
    requires HasRoom(files, USB)
    ensures Leads(Simple(true), HubStarts(files, base), steps, t)
    ensures AlwaysSafe(Simple(true), HubStarts(files, base), steps)
    ensures HubStands(t, UNPLUGGED, HubMonitor(0, UNPLUG), false, false, {}, base)
  {
    var s := HubBegins(files, base);
    var first := REPLUGGED + [UNPLUG[0]];
    UnplugEnabled();
    steps, t := Unplug(s, [], s, REPLUGGED, UNPLUG[0], HubMonitor(0, []), base);
    steps, t := Unplug(s, steps, t, first, UNPLUG[1], Push(HubMonitor(0, []), UNPLUG[0]), base);
  }

  lemma LateTurn(s0: System, steps: seq<Step>, s: System, mounts: Mounts.Mount)
    returns (longer: seq<Step>, t: System)
    requires Leads(Simple(true), s0, steps, s) && AlwaysSafe(Simple(true), s0, steps)
    requires HubStands(s, UNPLUGGED, HubMonitor(4, UNPLUG), true, true, {PORT.syspath} + {HUB.syspath},
                       Mounts.Bind(Mounts.Bind(mounts, PORT.syspath), HUB.syspath))
    ensures Leads(Simple(true), s0, longer, t) && AlwaysSafe(Simple(true), s0, longer)
    ensures HubStands(t, UNPLUGGED, LateMonitor(5), true, false, {HUB.syspath},
                      Mounts.Bind(Mounts.Bind(mounts, PORT.syspath), HUB.syspath))
  {
    var one := Mounts.Bind(mounts, PORT.syspath);
    var two := Mounts.Bind(one, HUB.syspath);
    assert HUB.syspath != PORT.syspath && HUB.syspath <= PORT.syspath;
    PortReport();
    PortGoes(s.machine.plant, true, {PORT.syspath} + {HUB.syspath}, two);
    Mounts.BindHides(one, HUB.syspath, PORT.syspath);
    Mounts.UnbindNothing(two, PORT.syspath);
    assert {PORT.syspath} + {HUB.syspath} - {PORT.syspath} == {HUB.syspath};
    RemoveTurn(Simple(true), s, Calm(true), UNPLUGGED, 1, 4, HubMonitor(4, UNPLUG), LateMonitor(5), PORT);
    Extend(Simple(true), s0, steps, s, Turn(Calm(true)));
    longer, t := steps + [Turn(Calm(true))], Apply(Simple(true), s, Turn(Calm(true)));
    SafeHub(s.machine.plant, t.machine.plant);
  }

  lemma LastTurn(s0: System, steps: seq<Step>, s: System, mounts: Mounts.Mount)
    returns (longer: seq<Step>, t: System)
    requires Leads(Simple(true), s0, steps, s) && AlwaysSafe(Simple(true), s0, steps)
    requires HubStands(s, UNPLUGGED, LateMonitor(5), true, false, {HUB.syspath}, Mounts.Bind(mounts, HUB.syspath))
    ensures Leads(Simple(true), s0, longer, t) && AlwaysSafe(Simple(true), s0, longer)
    ensures HubStands(t, UNPLUGGED, LateMonitor(6), false, false, {}, mounts)
  {
    HubReport();
    HubGoes(s.machine.plant, false, {HUB.syspath}, Mounts.Bind(mounts, HUB.syspath), true);
    Mounts.DetachUndoesBind(mounts, HUB.syspath);
    assert {HUB.syspath} - {HUB.syspath} == {};
    RemoveTurn(Simple(true), s, Calm(true), UNPLUGGED, 1, 4, LateMonitor(5), LateMonitor(6), HUB);
    Extend(Simple(true), s0, steps, s, Turn(Calm(true)));
    longer, t := steps + [Turn(Calm(true))], Apply(Simple(true), s, Turn(Calm(true)));
    SafeHub(s.machine.plant, t.machine.plant);
  }

  /** With the hub bound, the port may be detached; alone, the hub itself may. */
  lemma SafeHub(s: Plant, t: Plant)
    requires s.bound <= t.bound || (s.bound == {PORT.syspath} + {HUB.syspath} && HUB.syspath in t.bound)
             || s.bound == {HUB.syspath}
    ensures SafeStep(s, t)
  {
    assert HUB.syspath <= PORT.syspath && HUB.syspath != PORT.syspath;
    assert Above(HUB.syspath, PORT.syspath);
  }

  /** Hub and port arrive; only the port's bind works. */
  lemma PortBoundRun(files: Files, base: Mounts.Mount) returns (steps: seq<Step>, t: System)
    requires HasRoom(files, USB)
    ensures Leads(Simple(true), HubStarts(files, base), steps, t)
    ensures AlwaysSafe(Simple(true), HubStarts(files, base), steps)
    ensures HubStands(t, UNPLUGGED, HubMonitor(2, UNPLUG), true, true, {PORT.syspath},
                      Mounts.Bind(base, PORT.syspath))
  {
    var s, h := HubStarts(files, base), UNPLUGGED;
    steps, t := UnplugHost(files, base);
    var plant := t.machine.plant;
    steps, t := HubTurn0(s, steps, t, h, UNPLUG, base, false);
    SafeHub(plant, t.machine.plant);
    plant := t.machine.plant;
    steps, t := HubTurn1(s, steps, t, h, UNPLUG, {}, base);
    SafeHub(plant, t.machine.plant);
    assert {} + {PORT.syspath} == {PORT.syspath};
  }

  /** Then the hub is replugged, and its second bind works. */
  lemma RebindRun(files: Files, base: Mounts.Mount) returns (steps: seq<Step>, t: System)
    requires HasRoom(files, USB)
    ensures Leads(Simple(true), HubStarts(files, base), steps, t)
    ensures AlwaysSafe(Simple(true), HubStarts(files, base), steps)
    ensures HubStands(t, UNPLUGGED, HubMonitor(4, UNPLUG), true, true, {PORT.syspath} + {HUB.syspath},
                      Mounts.Bind(Mounts.Bind(base, PORT.syspath), HUB.syspath))
  {
    var s, h, one := HubStarts(files, base), UNPLUGGED, Mounts.Bind(base, PORT.syspath);
    steps, t := PortBoundRun(files, base);
    var plant := t.machine.plant;
    assert HUB.syspath != PORT.syspath && {PORT.syspath} - {HUB.syspath} == {PORT.syspath};
    steps, t := HubTurn2(s, steps, t, h, UNPLUG, {PORT.syspath}, one);
    SafeHub(plant, t.machine.plant);
    plant := t.machine.plant;
    steps, t := HubTurn3(s, steps, t, h, UNPLUG, {PORT.syspath}, one, true);
    SafeHub(plant, t.machine.plant);
  }

  /** A hub bound after the port below it: every detach is safe, yet when both are gone and nothing is bound
    any more, the port's directory is still mounted writable. So binds have to come parents first. */
  lemma LateBindRemains(files: Files, base: Mounts.Mount) returns (steps: seq<Step>, t: System)
    requires HasRoom(files, USB) && !Mounts.Writable(base, PORT.syspath)
    ensures Initial(HubStarts(files, base), [HUB, PORT], files, base)
    ensures Leads(Simple(true), HubStarts(files, base), steps, t) && t.machine.phase.Draining?
    ensures AlwaysSafe(Simple(true), HubStarts(files, base), steps)
    ensures t.machine.plant.devices == map[] && t.machine.plant.bound == {}
    ensures t.machine.plant.mounts == Mounts.Bind(base, PORT.syspath)
    ensures !Exact(base, t.machine.plant) && t.machine.plant.mounts != base
    ensures ReadOnly(base, ROOTS) ==> !ParentsFirst(Simple(true), HubStarts(files, base), steps)
  {
    var s := HubStarts(files, base);
    HubInitial(files, base);
    steps, t := RebindRun(files, base);
    steps, t := LateTurn(s, steps, t, base);
    steps, t := LastTurn(s, steps, t, Mounts.Bind(base, PORT.syspath));
    LeftOver(base, t.machine.plant);
    if ReadOnly(base, ROOTS) && ParentsFirst(Simple(true), s, steps) {
      RunAlwaysExactIff(Simple(true), s, steps, [HUB, PORT], files, base);
      assert false;
    }
  }

  lemma LeftOver(base: Mounts.Mount, s: Plant)
    requires s.mounts == Mounts.Bind(base, PORT.syspath) && s.bound == {} && !Mounts.Writable(base, PORT.syspath)
    ensures !Exact(base, s) && s.mounts != base
  {
    Mounts.BindWritable(base, PORT.syspath, PORT.syspath);
    assert PORT.syspath <= PORT.syspath && !CoveredBySet(s.bound, PORT.syspath);
  }
}
