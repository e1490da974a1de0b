/** The device monitor: udev events of a changing host, turned into a stream of additions and
  removals below a set of roots.

  The socket is opened before the devices are enumerated, so events between the two instants are
  seen twice: once through the enumeration and once through the socket. */
module Monitor {
  import opened Devices

  // ----- The host -----

  /** What udev reports. Every kind other than an addition or a removal is `Other`. */
  datatype UdevEvent = Added(dev: Device) | Removed(syspath: Path) | Other(syspath: Path)

  type Registry = map<Path, Device>

  function HostStep(host: Registry, e: UdevEvent): Registry {
    match e
    case Added(dev) => host[dev.syspath := dev]
    case Removed(p) => host - {p}
    case Other(_) => host
  }

  /** The devices present on the host after a history of events. */
  function Host(history: seq<UdevEvent>): Registry {
    if history == [] then map[]
    else HostStep(Host(history[..|history| - 1]), history[|history| - 1])
  }

  predicate Enabled(host: Registry, e: UdevEvent) {
    match e
    case Added(dev) => dev.syspath !in host
    case Removed(p) => p in host
    case Other(_) => true
  }

  /** For every syspath, additions and removals alternate. */
  predicate Lawful(history: seq<UdevEvent>) {
    history == [] ||
    (Lawful(history[..|history| - 1]) &&
     Enabled(Host(history[..|history| - 1]), history[|history| - 1]))
  }

  lemma HostSnoc(history: seq<UdevEvent>, n: nat)
    requires n < |history|
    ensures Host(history[..n + 1]) == HostStep(Host(history[..n]), history[n])
    ensures Lawful(history[..n + 1]) <==>
            Lawful(history[..n]) && Enabled(Host(history[..n]), history[n])
  {
    assert history[..n + 1][..n] == history[..n];
  }

  lemma {:induction false} LawfulPrefix(history: seq<UdevEvent>, n: nat)
    requires n <= |history| && Lawful(history)
    ensures Lawful(history[..n])
    decreases |history| - n
  {
    if n == |history| {
      assert history[..n] == history;
    } else {
      LawfulPrefix(history, n + 1);
      HostSnoc(history, n);
    }
  }

  lemma {:induction false} HostKeyed(history: seq<UdevEvent>, p: Path)
    requires p in Host(history)
    ensures Host(history)[p].syspath == p
  {
    var e := history[|history| - 1];
    if !(e.Added? && e.dev.syspath == p) {
      HostKeyed(history[..|history| - 1], p);
    }
  }

  /** An event after which the device at `p` is another one or gone. */
  predicate Ends(e: UdevEvent, p: Path) {
    (e.Added? && e.dev.syspath == p) || e == Removed(p)
  }

  /** A device is present exactly when it was added and neither replaced nor removed since. */
  lemma {:induction false} HostExact(history: seq<UdevEvent>, d: Device)
    ensures d.syspath in Host(history) && Host(history)[d.syspath] == d <==>
            exists i | 0 <= i < |history| ::
              history[i] == Added(d) && forall j | i < j < |history| :: !Ends(history[j], d.syspath)
    decreases |history|
  {
    if history != [] {
      var n := |history| - 1;
      var init := history[..n];
      HostExact(init, d);
      if history[n] == Added(d) {
      } else if Ends(history[n], d.syspath) {
        forall i | 0 <= i < |history| && history[i] == Added(d)
          ensures exists j | i < j < |history| :: Ends(history[j], d.syspath)
        {
          assert i < n;
        }
      } else {
        assert d.syspath in Host(history) && Host(history)[d.syspath] == d <==>
               d.syspath in Host(init) && Host(init)[d.syspath] == d;
        forall i | 0 <= i < n
          ensures init[i] == history[i]
          ensures (forall j | i < j < n :: !Ends(init[j], d.syspath)) <==>
                  (forall j | i < j < n + 1 :: !Ends(history[j], d.syspath))
        {
          assert forall j | i < j < n :: init[j] == history[j];
        }
      }
    }
  }

  // ----- The monitor's state and its operations -----

  datatype DeviceEvent = Add(dev: Device) | Remove(dev: Device)

  datatype State = State(
    roots: seq<Path>,
    seen: Registry,
    enumerated: seq<Device>,
    socket: seq<UdevEvent>,
    ready: bool)

  predicate Below(roots: seq<Path>, p: Path) {
    exists r | r in roots :: r <= p
  }

  function Restrict(host: Registry, roots: seq<Path>): (r: Registry)
    ensures forall p :: p in r <==> p in host && Below(roots, p)
    ensures forall p | p in r :: r[p] == host[p]
  {
    host - set p | p in host && !Below(roots, p)
  }

  function Filtered(scan: seq<Device>, roots: seq<Path>): (r: seq<Device>)
    ensures forall d :: d in r <==> d in scan && Below(roots, d.syspath)
  {
    if scan == [] then []
    else
      var last := scan[|scan| - 1];
      Filtered(scan[..|scan| - 1], roots) + if Below(roots, last.syspath) then [last] else []
  }

  function Index(devices: seq<Device>): Registry {
    if devices == [] then map[]
    else
      var last := devices[|devices| - 1];
      Index(devices[..|devices| - 1])[last.syspath := last]
  }

  /** The monitor right after enumeration, with `pending` already in the socket. */
  function Start(roots: seq<Path>, scan: seq<Device>, pending: seq<UdevEvent>): State {
    var enumerated := Filtered(scan, roots);
    State(roots, Index(enumerated), enumerated, pending, true)
  }

  function SeenStep(seen: Registry, roots: seq<Path>, e: UdevEvent): Registry {
    match e
    case Added(dev) =>
      if Below(roots, dev.syspath) && dev.syspath !in seen then seen[dev.syspath := dev] else seen
    case Removed(p) => seen - {p}
    case Other(_) => seen
  }

  /** The event reported for a socket event, if any. */
  function Report(seen: Registry, roots: seq<Path>, e: UdevEvent): Option<DeviceEvent> {
    match e
    case Added(dev) =>
      if Below(roots, dev.syspath) && dev.syspath !in seen then Some(Add(dev)) else None
    case Removed(p) => if p in seen then Some(Remove(seen[p])) else None
    case Other(_) => None
  }

  function Read(m: State): (State, Option<DeviceEvent>)
    decreases |m.socket|
  {
    if m.enumerated != [] then
      (m.(enumerated := m.enumerated[1..]), Some(Add(m.enumerated[0])))
    else if m.socket == [] then (m, None)
    else
      var e := m.socket[0];
      var m' := m.(socket := m.socket[1..], seen := SeenStep(m.seen, m.roots, e));
      var report := Report(m.seen, m.roots, e);
      if report.Some? then (m', report) else Read(m')
  }

  /** What polling a stream leads to. */
  datatype Polled = Ready(event: DeviceEvent) | Pending | Finished

  /** Polling the stream. While enumerated devices wait, it ends as soon as a read reports nothing. */
  function Poll(m: State): (State, Polled) {
    if m.enumerated != [] then
      var (m', e) := Read(m);
      (m', if e.Some? then Ready(e.value) else Finished)
    else if !m.ready then (m, Pending)
    else
      var (m', e) := Read(m);
      if e.Some? then (m', Ready(e.value)) else (m'.(ready := false), Pending)
  }

  /** The stream never ends. */
  lemma PollNeverFinishes(m: State)
    ensures !Poll(m).1.Finished?
  {
  }

  /** The kernel queues an event, which makes the socket readable. */
  function Push(m: State, e: UdevEvent): State {
    m.(socket := m.socket + [e], ready := true)
  }

  lemma {:induction false} FilteredBelow(scan: seq<Device>, roots: seq<Path>) returns (indices: seq<nat>)
    ensures Increasing(indices)
    ensures forall i: nat :: i in indices <==> i < |scan| && Below(roots, scan[i].syspath)
    ensures Filtered(scan, roots) == Picked(scan, indices)
    decreases |scan|
  {
    if scan == [] {
      indices := [];
    } else {
      var init, last := scan[..|scan| - 1], scan[|scan| - 1];
      var before := FilteredBelow(init, roots);
      assert forall j | 0 <= j < |before| :: before[j] in before;
      assert Picked(scan, before) == Picked(init, before);
      if Below(roots, last.syspath) {
        indices := before + [|scan| - 1];
        IncreasingMore(before, |scan| - 1);
        assert Picked(scan, indices) == Picked(scan, before) + [last];
      } else {
        indices := before;
      }
    }
  }

  /** The queue holds the devices of the scan at exactly the indices that are at or below a root, in order. */
  lemma FilteredIndices(scan: seq<Device>, roots: seq<Path>) returns (indices: seq<nat>)
    ensures Increasing(indices)
    ensures forall i: nat :: i in indices <==> i < |scan| && exists r :: r in roots && r <= scan[i].syspath
    ensures Filtered(scan, roots) == Picked(scan, indices)
  {
    indices := FilteredBelow(scan, roots);
  }

  lemma FilteredMore(scan: seq<Device>, roots: seq<Path>, i: nat)
    requires i < |scan|
    ensures Filtered(scan[..i + 1], roots) ==
            Filtered(scan[..i], roots) + if Below(roots, scan[i].syspath) then [scan[i]] else []
  {
    assert scan[..i + 1][..i] == scan[..i];
  }

  lemma IndexMore(devices: seq<Device>, i: nat)
    requires i < |devices|
    ensures Index(devices[..i + 1]) == Index(devices[..i])[devices[i].syspath := devices[i]]
  {
    assert devices[..i + 1][..i] == devices[..i];
  }

  class DeviceMonitor {
    const roots: seq<Path>
    var seen: Registry
    var enumerated: seq<Device>
    var socket: seq<UdevEvent>
    var ready: bool

    ghost function View(): State
      reads this
    {
      State(roots, seen, enumerated, socket, ready)
    }

    constructor (roots: seq<Path>, scan: seq<Device>, pending: seq<UdevEvent>)
      ensures View() == Start(roots, scan, pending)
    {
      this.roots := roots;
      seen, enumerated, socket, ready := map[], [], pending, true;
      new;
      for i := 0 to |scan|
        invariant enumerated == Filtered(scan[..i], roots)
        invariant seen == map[] && socket == pending && ready
      {
        FilteredMore(scan, roots, i);
        if Below(roots, scan[i].syspath) {
          enumerated := enumerated + [scan[i]];
        }
      }
      assert scan[..|scan|] == scan;
      var n := |enumerated|;
      for i := 0 to n
        invariant enumerated == Filtered(scan, roots) && |enumerated| == n
        invariant seen == Index(enumerated[..i])
        invariant socket == pending && ready
      {
        IndexMore(enumerated, i);
        seen := seen[enumerated[i].syspath := enumerated[i]];
      }
      assert enumerated[..|enumerated|] == enumerated;
    }

    method TryRead() returns (r: Option<DeviceEvent>)
      modifies this
      ensures (View(), r) == Read(old(View()))
    {
      if enumerated != [] {
        r := Some(Add(enumerated[0]));
        enumerated := enumerated[1..];
        return;
      }
      while true
        invariant enumerated == []
        invariant Read(View()) == Read(old(View()))
        decreases |socket|
      {
        if socket == [] {
          return None;
        }
        var e := socket[0];
        socket := socket[1..];
        match e {
          case Added(dev) =>
            if Below(roots, dev.syspath) {
              if dev.syspath !in seen {
                seen := seen[dev.syspath := dev];
                return Some(Add(dev));
              }
            }
          case Removed(p) =>
            if p in seen {
              var dev := seen[p];
              seen := seen - {p};
              return Some(Remove(dev));
            } else {
              assert seen - {p} == seen;
            }
          case Other(_) =>
        }
      }
    }

    method PollNext() returns (r: Polled)
      modifies this
      ensures (View(), r) == Poll(old(View()))
    {
      if enumerated != [] {
        var e := TryRead();
        return if e.Some? then Ready(e.value) else Finished;
      }
      while true
        invariant enumerated == []
        invariant Poll(View()) == Poll(old(View()))
        decreases ready
      {
        if !ready {
          return Pending;
        }
        var e := TryRead();
        if e.Some? {
          return Ready(e.value);
        }
        ReadDrains(old(View()));
        ready := false;
      }
    }

    method Deliver(e: UdevEvent)
      modifies this
      ensures View() == Push(old(View()), e)
    {
      socket := socket + [e];
      ready := true;
    }
  }

  /** Nothing to report means that both queues have been emptied. */
  lemma {:induction false} ReadDrains(m: State)
    requires Read(m).1.None?
    ensures Read(m).0.enumerated == [] && Read(m).0.socket == []
    ensures Read(m).0.roots == m.roots && Read(m).0.ready == m.ready
    decreases |m.socket|
  {
    if m.enumerated == [] && m.socket != [] {
      ReadDrains(m.(socket := m.socket[1..], seen := SeenStep(m.seen, m.roots, m.socket[0])));
    }
  }

  // ----- What the monitor knows of the host -----

  /** Folding socket events over a registry. */
  function Replay(seen: Registry, roots: seq<Path>, events: seq<UdevEvent>): Registry {
    if events == [] then seen
    else SeenStep(Replay(seen, roots, events[..|events| - 1]), roots, events[|events| - 1])
  }

  lemma ReplaySnoc(seen: Registry, roots: seq<Path>, h: seq<UdevEvent>, a: nat, b: nat)
    requires a <= b < |h|
    ensures Replay(seen, roots, h[a..b + 1]) == SeenStep(Replay(seen, roots, h[a..b]), roots, h[b])
  {
    var events := h[a..b + 1];
    assert events[..|events| - 1] == h[a..b] && events[|events| - 1] == h[b];
  }

  lemma {:induction false} ReplayConcat(seen: Registry, roots: seq<Path>, a: seq<UdevEvent>, b: seq<UdevEvent>)
    ensures Replay(seen, roots, a + b) == Replay(Replay(seen, roots, a), roots, b)
    decreases |b|
  {
    if b == [] {
      assert a + b == a;
    } else {
      assert (a + b)[..|a + b| - 1] == a + b[..|b| - 1];
      ReplayConcat(seen, roots, a, b[..|b| - 1]);
    }
  }

  /** How a host history relates to the monitor: it listened after `listen` events, enumerated after
    `scan` and has taken every socket event before `read`. */
  datatype Past = Past(history: seq<UdevEvent>, listen: nat, scan: nat, read: nat) {
    predicate Valid() {
      listen <= scan <= |history| && listen <= read <= |history| && Lawful(history)
    }

    /** What enumeration found below the roots. */
    function Baseline(roots: seq<Path>): Registry
      requires Valid()
    {
      Restrict(Host(history[..scan]), roots)
    }
  }

  function Queued(enumerated: seq<Device>): set<Path> {
    set i | 0 <= i < |enumerated| :: enumerated[i].syspath
  }

  predicate DistinctSyspaths(devices: seq<Device>) {
    forall i, j | 0 <= i < j < |devices| :: devices[i].syspath != devices[j].syspath
  }

  predicate AllKnown(devices: seq<Device>, seen: Registry) {
    forall d | d in devices :: d.syspath in seen && seen[d.syspath] == d
  }

  /** Devices added to the stream's consumer and not yet removed from it. */
  function Delivered(m: State): Registry {
    m.seen - Queued(m.enumerated)
  }

  /** The monitor is where `past` says it should be. */
  ghost predicate Tracks(m: State, past: Past) {
    && past.Valid()
    && m.socket == past.history[past.read..]
    && m.seen == Replay(past.Baseline(m.roots), m.roots, past.history[past.listen..past.read])
    && (m.enumerated != [] ==> past.read == past.listen)
    && DistinctSyspaths(m.enumerated)
    && AllKnown(m.enumerated, m.seen)
    && (m.socket != [] ==> m.ready)
  }

  /** A scan lists each device of the host once, in any order. */
  ghost predicate Lists(scan: seq<Device>, host: Registry) {
    && DistinctSyspaths(scan)
    && (forall d | d in scan :: d.syspath in host && host[d.syspath] == d)
    && (forall p | p in host :: host[p] in scan)
  }

  // ----- The overlap between listening and enumerating -----

  /** At `p`, the replayed registry is still what enumeration found, or it agrees with the host about
    the presence of the device and holds the host's snapshot or the enumerated one. */
  predicate Consistent(replayed: Registry, base: Registry, host: Registry, p: Path) {
    || (p !in replayed && p !in base)
    || (p in replayed && p in base && replayed[p] == base[p])
    || (p !in replayed && p !in host)
    || (p in replayed && p in host && replayed[p] == host[p])
  }

  lemma ConsistentStep(replayed: Registry, base: Registry, host: Registry, roots: seq<Path>, e: UdevEvent, p: Path)
    requires Enabled(host, e) && Below(roots, p) && Consistent(replayed, base, host, p)
    ensures Consistent(SeenStep(replayed, roots, e), base, HostStep(host, e), p)
  {
  }

  /** One event more, with the registries named. */
  lemma OverlapStep(past: Past, roots: seq<Path>, i: nat, p: Path, base: Registry, replayed: Registry, host: Registry)
    requires past.Valid() && past.listen <= i < past.scan && Below(roots, p) && base == past.Baseline(roots)
    requires replayed == Replay(base, roots, past.history[past.listen..i]) && host == Host(past.history[..i])
    requires Consistent(replayed, base, host, p)
    ensures Consistent(Replay(base, roots, past.history[past.listen..i + 1]), base, Host(past.history[..i + 1]), p)
  {
    ReplaySnoc(base, roots, past.history, past.listen, i);
    HostSnoc(past.history, i);
    LawfulPrefix(past.history, i + 1);
    ConsistentStep(replayed, base, host, roots, past.history[i], p);
  }

  lemma {:induction false} OverlapConsistent(past: Past, roots: seq<Path>, i: nat, p: Path)
    requires past.Valid() && past.listen <= i <= past.scan && Below(roots, p)
    ensures Consistent(
              Replay(past.Baseline(roots), roots, past.history[past.listen..i]),
              past.Baseline(roots), Host(past.history[..i]), p)
    decreases i
  {
    var base := past.Baseline(roots);
    if i == past.listen {
      assert past.history[past.listen..i] == [];
    } else {
      OverlapConsistent(past, roots, i - 1, p);
      OverlapStep(past, roots, i - 1, p, base, Replay(base, roots, past.history[past.listen..i - 1]),
                  Host(past.history[..i - 1]));
    }
  }

  /** Replaying the events of the overlap changes nothing: neither a key nor a snapshot. */
  lemma OverlapIsNeutral(past: Past, roots: seq<Path>)
    requires past.Valid()
    ensures Replay(past.Baseline(roots), roots, past.history[past.listen..past.scan])
            == past.Baseline(roots)
  {
    var base := past.Baseline(roots);
    var replayed := Replay(base, roots, past.history[past.listen..past.scan]);
    forall p | Below(roots, p)
      ensures p in replayed <==> p in base
      ensures p in replayed ==> replayed[p] == base[p]
    {
      OverlapConsistent(past, roots, past.scan, p);
    }
    ReplayBelow(base, roots, past.history[past.listen..past.scan]);
    assert forall p | p in replayed || p in base :: Below(roots, p);
  }

  lemma {:induction false} ReplayBelow(seen: Registry, roots: seq<Path>, events: seq<UdevEvent>)
    requires forall p | p in seen :: Below(roots, p)
    ensures forall p | p in Replay(seen, roots, events) :: Below(roots, p)
    decreases |events|
  {
    if events != [] {
      ReplayBelow(seen, roots, events[..|events| - 1]);
    }
  }

  lemma RestrictStep(host: Registry, roots: seq<Path>, e: UdevEvent)
    requires Enabled(host, e)
    ensures SeenStep(Restrict(host, roots), roots, e) == Restrict(HostStep(host, e), roots)
  {
  }

  /** Once the overlap is over, the replayed registry follows the host step by step. */
  lemma {:induction false} ReplayFollowsHost(past: Past, roots: seq<Path>, i: nat)
    requires past.Valid() && past.scan <= i <= |past.history|
    ensures Replay(past.Baseline(roots), roots, past.history[past.listen..i])
            == Restrict(Host(past.history[..i]), roots)
    decreases i
  {
    if i == past.scan {
      OverlapIsNeutral(past, roots);
    } else {
      ReplayFollowsHost(past, roots, i - 1);
      ReplaySnoc(past.Baseline(roots), roots, past.history, past.listen, i - 1);
      HostSnoc(past.history, i - 1);
      LawfulPrefix(past.history, i);
      RestrictStep(Host(past.history[..i - 1]), roots, past.history[i - 1]);
    }
  }

  /** Listening before enumerating loses nothing and invents nothing: whatever has been read so far,
    the events still in the socket lead from `seen` to exactly the host's present devices below the
    roots, with their present snapshots. */
  lemma Convergence(m: State, past: Past)
    requires Tracks(m, past)
    ensures Replay(m.seen, m.roots, m.socket) == Restrict(Host(past.history), m.roots)
  {
    var h := past.history;
    ReplayConcat(past.Baseline(m.roots), m.roots, h[past.listen..past.read], h[past.read..]);
    SlicesJoin(h, past.listen, past.read);
    ReplayFollowsHost(past, m.roots, |h|);
  }

  lemma SlicesJoin(h: seq<UdevEvent>, a: nat, b: nat)
    requires a <= b <= |h|
    ensures h[a..b] + h[b..] == h[a..|h|] && h[..|h|] == h
  {
  }

  lemma {:induction false} ReplayKeyed(seen: Registry, roots: seq<Path>, events: seq<UdevEvent>)
    requires forall p | p in seen :: seen[p].syspath == p
    ensures forall p | p in Replay(seen, roots, events) :: Replay(seen, roots, events)[p].syspath == p
    decreases |events|
  {
    if events != [] {
      ReplayKeyed(seen, roots, events[..|events| - 1]);
    }
  }

  lemma SeenKeyed(m: State, past: Past)
    requires Tracks(m, past)
    ensures forall p | p in m.seen :: m.seen[p].syspath == p && Below(m.roots, p)
  {
    var base := past.Baseline(m.roots);
    forall p | p in base ensures base[p].syspath == p {
      HostKeyed(past.history[..past.scan], p);
    }
    ReplayKeyed(base, m.roots, past.history[past.listen..past.read]);
    ReplayBelow(base, m.roots, past.history[past.listen..past.read]);
  }

  // ----- Every operation keeps the monitor on track -----

  lemma {:induction false} IndexLookup(devices: seq<Device>, d: Device)
    requires DistinctSyspaths(devices)
    ensures forall p | p in Index(devices) :: Index(devices)[p].syspath == p && Index(devices)[p] in devices
    ensures d in devices ==> d.syspath in Index(devices) && Index(devices)[d.syspath] == d
    decreases |devices|
  {
    if devices != [] {
      var init := devices[..|devices| - 1];
      IndexLookup(init, d);
      assert devices == init + [devices[|devices| - 1]];
      if d in init {
        var k :| 0 <= k < |init| && init[k] == d;
        assert devices[k].syspath != devices[|devices| - 1].syspath;
      }
    }
  }

  lemma {:induction false} FilteredDistinct(scan: seq<Device>, roots: seq<Path>)
    requires DistinctSyspaths(scan)
    ensures DistinctSyspaths(Filtered(scan, roots))
    decreases |scan|
  {
    if scan != [] {
      var init := scan[..|scan| - 1];
      FilteredDistinct(init, roots);
      forall d | d in Filtered(init, roots) ensures d.syspath != scan[|scan| - 1].syspath {
        var k :| 0 <= k < |init| && init[k] == d;
        assert scan[k] == d;
      }
    }
  }

  lemma IndexedIsPresent(roots: seq<Path>, scan: seq<Device>, history: seq<UdevEvent>, p: Path)
    requires Lists(scan, Host(history)) && p in Index(Filtered(scan, roots))
    ensures p in Host(history) && Below(roots, p) && Index(Filtered(scan, roots))[p] == Host(history)[p]
  {
    FilteredDistinct(scan, roots);
    var d := Index(Filtered(scan, roots))[p];
    IndexLookup(Filtered(scan, roots), d);
    assert d in scan;
  }

  lemma PresentIsIndexed(roots: seq<Path>, scan: seq<Device>, history: seq<UdevEvent>, p: Path)
    requires Lists(scan, Host(history)) && p in Host(history) && Below(roots, p)
    ensures p in Index(Filtered(scan, roots))
  {
    FilteredDistinct(scan, roots);
    HostKeyed(history, p);
    IndexLookup(Filtered(scan, roots), Host(history)[p]);
  }

  lemma FilteredKnown(roots: seq<Path>, scan: seq<Device>)
    requires DistinctSyspaths(scan)
    ensures AllKnown(Filtered(scan, roots), Index(Filtered(scan, roots)))
  {
    var enumerated := Filtered(scan, roots);
    FilteredDistinct(scan, roots);
    forall d | d in enumerated ensures d.syspath in Index(enumerated) && Index(enumerated)[d.syspath] == d {
      IndexLookup(enumerated, d);
    }
  }

  /** A duplicate-free list of exactly the host's devices is indexed into the host's registry. */
  lemma ScanIsRestriction(roots: seq<Path>, scan: seq<Device>, history: seq<UdevEvent>)
    requires Lists(scan, Host(history))
    ensures Index(Filtered(scan, roots)) == Restrict(Host(history), roots)
  {
    var index, host := Index(Filtered(scan, roots)), Host(history);
    forall p | p in index ensures p in host && Below(roots, p) && index[p] == host[p] {
      IndexedIsPresent(roots, scan, history, p);
    }
    forall p | p in host && Below(roots, p) ensures p in index {
      PresentIsIndexed(roots, scan, history, p);
    }
  }

  lemma IndexIsQueued(devices: seq<Device>)
    requires DistinctSyspaths(devices)
    ensures Index(devices) - Queued(devices) == map[]
  {
    forall p | p in Index(devices) ensures p in Queued(devices) {
      IndexLookup(devices, Index(devices)[p]);
      var k :| 0 <= k < |devices| && devices[k] == Index(devices)[p];
      assert devices[k].syspath == p;
    }
  }

  /** The monitor is on track when it starts, provided the enumeration is an exact listing. */
  lemma StartTracks(roots: seq<Path>, scan: seq<Device>, history: seq<UdevEvent>, listen: nat)
    requires listen <= |history| && Lawful(history)
    requires Lists(scan, Host(history))
    ensures Tracks(Start(roots, scan, history[listen..]), Past(history, listen, |history|, listen))
    ensures Delivered(Start(roots, scan, history[listen..])) == map[]
    ensures Start(roots, scan, history[listen..]).seen == Restrict(Host(history), roots)
  {
    FilteredDistinct(scan, roots);
    FilteredKnown(roots, scan);
    ScanIsRestriction(roots, scan, history);
    IndexIsQueued(Filtered(scan, roots));
    assert history[..|history|] == history;
    assert history[listen..listen] == [];
  }

  lemma PushTracks(m: State, past: Past, e: UdevEvent)
    requires Tracks(m, past) && Enabled(Host(past.history), e)
    ensures Tracks(Push(m, e), past.(history := past.history + [e]))
    ensures Delivered(Push(m, e)) == Delivered(m)
  {
    PushPast(past, e);
  }

  /** One host event more leaves the past as it was. */
  lemma PushPast(past: Past, e: UdevEvent)
    requires past.Valid() && Enabled(Host(past.history), e)
    ensures past.(history := past.history + [e]).Valid()
    ensures (past.history + [e])[past.read..] == past.history[past.read..] + [e]
    ensures (past.history + [e])[past.listen..past.read] == past.history[past.listen..past.read]
    ensures (past.history + [e])[..past.scan] == past.history[..past.scan]
  {
    var h := past.history + [e];
    assert h[..|h| - 1] == past.history;
  }

  /** What an event does to the devices delivered so far. */
  predicate Fits(held: Registry, e: DeviceEvent) {
    match e
    case Add(dev) => dev.syspath !in held
    case Remove(dev) => dev.syspath in held && held[dev.syspath] == dev
  }

  function Hold(held: Registry, e: DeviceEvent): Registry {
    match e
    case Add(dev) => held[dev.syspath := dev]
    case Remove(dev) => held - {dev.syspath}
  }

  /** How far the socket has been read once `m` is reached in a history of `total` events. */
  function ReadUpTo(m: State, total: nat): int {
    total - |m.socket|
  }

  lemma QueuedPop(enumerated: seq<Device>)
    requires enumerated != [] && DistinctSyspaths(enumerated)
    ensures Queued(enumerated) == Queued(enumerated[1..]) + {enumerated[0].syspath}
    ensures enumerated[0].syspath !in Queued(enumerated[1..])
  {
    var rest := enumerated[1..];
    forall p | p in Queued(enumerated) ensures p in Queued(rest) + {enumerated[0].syspath} {
      var i :| 0 <= i < |enumerated| && enumerated[i].syspath == p;
      if i > 0 { assert rest[i - 1].syspath == p; }
    }
    forall i | 0 <= i < |rest| ensures rest[i].syspath == enumerated[i + 1].syspath {}
  }

  lemma PopTracks(m: State, past: Past)
    requires Tracks(m, past) && m.enumerated != []
    ensures var m' := m.(enumerated := m.enumerated[1..]);
            && Tracks(m', past)
            && Fits(Delivered(m), Add(m.enumerated[0]))
            && Delivered(m') == Hold(Delivered(m), Add(m.enumerated[0]))
  {
    var d := m.enumerated[0];
    QueuedPop(m.enumerated);
    assert d in m.enumerated;
    assert d.syspath in Queued(m.enumerated);
  }

  function Take(m: State): State
    requires m.socket != []
  {
    m.(socket := m.socket[1..], seen := SeenStep(m.seen, m.roots, m.socket[0]))
  }

  lemma PendingFirst(h: seq<UdevEvent>, read: nat)
    requires read <= |h| && h[read..] != []
    ensures read < |h| && h[read..][0] == h[read] && h[read..][1..] == h[read + 1..]
  {
  }

  lemma TakeTracks(m: State, past: Past)
    requires Tracks(m, past) && m.enumerated == [] && m.socket != []
    ensures past.read < |past.history|
    ensures Tracks(Take(m), past.(read := past.read + 1))
  {
    PendingFirst(past.history, past.read);
    assert past.(read := past.read + 1).Baseline(m.roots) == past.Baseline(m.roots);
    ReplaySnoc(past.Baseline(m.roots), m.roots, past.history, past.listen, past.read);
  }

  lemma ReportFits(m: State, past: Past)
    requires Tracks(m, past) && m.enumerated == [] && m.socket != []
    ensures var report := Report(m.seen, m.roots, m.socket[0]);
            if report.None? then Take(m).seen == m.seen
            else Fits(m.seen, report.value) && Take(m).seen == Hold(m.seen, report.value)
  {
    SeenKeyed(m, past);
  }

  /** What is promised of a read that leads to `mon` and reports `e`. */
  ghost predicate GoodRead(m: State, past: Past, mon: State, e: Option<DeviceEvent>) {
    && mon.roots == m.roots
    && 0 <= ReadUpTo(mon, |past.history|)
    && Tracks(mon, past.(read := ReadUpTo(mon, |past.history|)))
    && (e.None? ==> Delivered(mon) == Delivered(m) && mon.socket == [] && mon.enumerated == [])
    && (e.Some? ==> Fits(Delivered(m), e.value) && Delivered(mon) == Hold(Delivered(m), e.value))
  }

  lemma QueuedRead(m: State, past: Past)
    requires Tracks(m, past) && m.enumerated != []
    ensures GoodRead(m, past, m.(enumerated := m.enumerated[1..]), Some(Add(m.enumerated[0])))
  {
    PopTracks(m, past);
    assert past.read == ReadUpTo(m, |past.history|);
  }

  lemma ReportedRead(m: State, past: Past)
    requires Tracks(m, past) && m.enumerated == [] && m.socket != []
    requires Report(m.seen, m.roots, m.socket[0]).Some?
    ensures GoodRead(m, past, Take(m), Report(m.seen, m.roots, m.socket[0]))
  {
    TakeTracks(m, past);
    ReportFits(m, past);
    assert past.read + 1 == ReadUpTo(Take(m), |past.history|);
    assert Delivered(m) == m.seen && Delivered(Take(m)) == Take(m).seen;
  }

  lemma SkippedRead(m: State, past: Past, mon: State, e: Option<DeviceEvent>)
    requires Tracks(m, past) && m.enumerated == [] && m.socket != []
    requires Report(m.seen, m.roots, m.socket[0]).None?
    requires GoodRead(Take(m), past.(read := past.read + 1), mon, e)
    ensures GoodRead(m, past, mon, e)
  {
    ReportFits(m, past);
    assert Delivered(m) == m.seen == Delivered(Take(m));
  }

  lemma {:induction false} ReadTracks(m: State, past: Past)
    requires Tracks(m, past)
    ensures GoodRead(m, past, Read(m).0, Read(m).1)
    decreases |m.socket|
  {
    if m.enumerated != [] {
      QueuedRead(m, past);
    } else if m.socket == [] {
      assert past.read == ReadUpTo(m, |past.history|);
    } else if Report(m.seen, m.roots, m.socket[0]).Some? {
      ReportedRead(m, past);
    } else {
      TakeTracks(m, past);
      ReadTracks(Take(m), past.(read := past.read + 1));
      SkippedRead(m, past, Read(m).0, Read(m).1);
    }
  }

  /** Polling keeps the monitor on track, and no wake-up is lost: it is only ever pending when the
    host's present devices below the roots have been delivered, all of them and nothing else. */
  lemma PollTracks(m: State, past: Past)
    requires Tracks(m, past)
    ensures 0 <= ReadUpTo(Poll(m).0, |past.history|)
    ensures Tracks(Poll(m).0, past.(read := ReadUpTo(Poll(m).0, |past.history|)))
    ensures !Poll(m).1.Finished?
    ensures Poll(m).1.Pending? ==>
              Delivered(Poll(m).0) == Delivered(m) == Restrict(Host(past.history), m.roots)
    ensures Poll(m).1.Ready? ==>
              Fits(Delivered(m), Poll(m).1.event) && Delivered(Poll(m).0) == Hold(Delivered(m), Poll(m).1.event)
  {
    PollNeverFinishes(m);
    ReadTracks(m, past);
    if Poll(m).1.Pending? {
      DrainedIsExact(Poll(m).0, past.(read := ReadUpTo(Poll(m).0, |past.history|)));
    }
  }

  /** With both queues empty the delivered devices are the host's. */
  lemma DrainedIsExact(m: State, past: Past)
    requires Tracks(m, past) && m.enumerated == [] && m.socket == []
    ensures m.seen == Delivered(m) == Restrict(Host(past.history), m.roots)
  {
    Convergence(m, past);
  }

  /** With both queues empty, delivered are exactly the present devices at or below one of the roots, component
    by component, with their present snapshots. */
  lemma DeliveredExactly(m: State, past: Past, p: Path)
    requires Tracks(m, past) && m.enumerated == [] && m.socket == []
    ensures p in Delivered(m) <==> p in Host(past.history) && exists r :: r in m.roots && r <= p
    ensures p in Delivered(m) ==> Delivered(m)[p] == Host(past.history)[p]
  {
    DrainedIsExact(m, past);
  }

  /** What is delivered at any time is at or below one of the roots. */
  lemma DeliveredBelow(m: State, past: Past, p: Path)
    requires Tracks(m, past) && p in Delivered(m)
    ensures exists r :: r in m.roots && r <= p
  {
    SeenKeyed(m, past);
  }

  // ----- What may be seen while the overlap is being replayed -----

  /** `d` was present on the host at some time between listening and enumerating. */
  ghost predicate InWindow(past: Past, d: Device) {
    exists i: nat :: past.listen <= i <= past.scan <= |past.history| && PresentAt(past.history, i, d)
  }

  ghost predicate PresentAt(history: seq<UdevEvent>, i: nat, d: Device)
    requires i <= |history|
  {
    d.syspath in Host(history[..i]) && Host(history[..i])[d.syspath] == d
  }

  /** Every two devices are related, each device to itself included. */
  ghost predicate Pairwise(devices: Registry, related: (Device, Device) -> bool) {
    forall p, q | p in devices && q in devices :: related(devices[p], devices[q])
  }

  /** Devices below the roots that coexisted with the window of the overlap are related. */
  ghost predicate WindowPairwise(past: Past, roots: seq<Path>, related: (Device, Device) -> bool) {
    forall a, b | InWindow(past, a) && InWindow(past, b)
                  && Below(roots, a.syspath) && Below(roots, b.syspath) :: related(a, b)
  }

  /** Devices present below the roots at the same time, since enumeration, are related. */
  ghost predicate HostPairwise(past: Past, roots: seq<Path>, related: (Device, Device) -> bool) {
    forall i: nat | past.scan <= i <= |past.history| ::
      Pairwise(Restrict(Host(past.history[..i]), roots), related)
  }

  lemma BaselineInWindow(past: Past, roots: seq<Path>, p: Path)
    requires past.Valid() && p in past.Baseline(roots)
    ensures InWindow(past, past.Baseline(roots)[p])
  {
    HostKeyed(past.history[..past.scan], p);
    assert PresentAt(past.history, past.scan, past.Baseline(roots)[p]);
  }

  lemma AddedInWindow(past: Past, i: nat, d: Device)
    requires past.Valid() && past.listen <= i < past.scan && past.history[i] == Added(d)
    ensures InWindow(past, d)
  {
    HostSnoc(past.history, i);
    assert PresentAt(past.history, i + 1, d);
  }

  lemma {:induction false} ReplayInWindow(past: Past, roots: seq<Path>, i: nat, p: Path)
    requires past.Valid() && past.listen <= i <= past.scan
    requires p in Replay(past.Baseline(roots), roots, past.history[past.listen..i])
    ensures InWindow(past, Replay(past.Baseline(roots), roots, past.history[past.listen..i])[p])
    decreases i
  {
    var h, base := past.history, past.Baseline(roots);
    if i == past.listen {
      assert h[past.listen..i] == [];
      BaselineInWindow(past, roots, p);
    } else {
      ReplaySnoc(base, roots, h, past.listen, i - 1);
      var before := Replay(base, roots, h[past.listen..i - 1]);
      if p in before && Replay(base, roots, h[past.listen..i])[p] == before[p] {
        ReplayInWindow(past, roots, i - 1, p);
      } else {
        AddedInWindow(past, i - 1, Replay(base, roots, h[past.listen..i])[p]);
      }
    }
  }

  /** Relations between simultaneously present devices carry over to the devices the monitor has
    seen, even while the overlap is being replayed and `seen` matches no state of the host. */
  lemma SeenPairwise(m: State, past: Past, related: (Device, Device) -> bool)
    requires Tracks(m, past)
    requires WindowPairwise(past, m.roots, related) && HostPairwise(past, m.roots, related)
    ensures Pairwise(m.seen, related)
  {
    SeenKeyed(m, past);
    if past.read <= past.scan {
      forall p | p in m.seen ensures InWindow(past, m.seen[p]) {
        ReplayInWindow(past, m.roots, past.read, p);
      }
    } else {
      ReplayFollowsHost(past, m.roots, past.read);
    }
  }

  // ----- Alternation -----

  function Held(log: seq<DeviceEvent>): Registry {
    if log == [] then map[] else Hold(Held(log[..|log| - 1]), log[|log| - 1])
  }

  predicate Fitting(log: seq<DeviceEvent>) {
    log == [] ||
    (Fitting(log[..|log| - 1]) && Fits(Held(log[..|log| - 1]), log[|log| - 1]))
  }

  /** The events of one device, in order. */
  function Only(log: seq<DeviceEvent>, p: Path): seq<DeviceEvent> {
    if log == [] then []
    else
      var last := log[|log| - 1];
      Only(log[..|log| - 1], p) + if last.dev.syspath == p then [last] else []
  }

  /** Add, Remove, Add, Remove, ... with each Remove carrying the snapshot of the Add before it. */
  predicate AlternatesFromAdd(events: seq<DeviceEvent>) {
    && (forall i | 0 <= i < |events| :: events[i].Add? <==> i % 2 == 0)
    && (forall i | 0 < i < |events| && i % 2 == 1 :: events[i].dev == events[i - 1].dev)
  }

  lemma {:induction false} FittingAlternates(log: seq<DeviceEvent>, p: Path)
    requires Fitting(log)
    ensures AlternatesFromAdd(Only(log, p))
    ensures p in Held(log) <==> |Only(log, p)| % 2 == 1
    ensures p in Held(log) ==> Held(log)[p] == Only(log, p)[|Only(log, p)| - 1].dev
    decreases |log|
  {
    if log != [] {
      FittingAlternates(log[..|log| - 1], p);
    }
  }
}
