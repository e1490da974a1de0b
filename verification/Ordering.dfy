/** Writable sysfs over whole runs: when the host's own order of additions and removals makes the mounts
  exact. */
module Ordering {
  import opened Devices
  import opened Monitor
  import opened ContainerState
  import opened Controller
  import opened Sysfs
  import opened Pipeline
  import Mounts

  // ----- Runs whose events come parents first and go children first -----

  predicate LeafLog(log: seq<DeviceEvent>) {
    log == [] ||
    (LeafLog(log[..|log| - 1]) && LeafEvent(Held(log[..|log| - 1]), log[|log| - 1]))
  }

  ghost predicate Mounted(c: Config, base: Mounts.Mount, s: System) {
    Refines(c, s) && (!s.machine.phase.Ended? && LeafLog(s.log) ==> SysfsOk(base, s.machine.plant))
  }

  lemma MountedStep(c: Config, base: Mounts.Mount, s: System, step: Step)
    requires Mounted(c, base, s)
    requires step.HostEvent? ==> Enabled(Host(s.past.history), step.e)
    ensures Mounted(c, base, Apply(c, s, step))
  {
    StepKeeps(c, s, step);
    RefinesStep(c, s, step);
    if step.Turn? {
      NextTracks(s.machine, s.past);
      AdvanceFields(c, s.machine, step.env);
      var t := Apply(c, s, step);
      var e := Next(s.machine).1;
      if e.Some? && !t.machine.phase.Ended? && LeafLog(t.log) {
        assert t.log[..|t.log| - 1] == s.log;
        SysfsStep(c, base, Holding(s), s.machine.plant, e.value, step.env);
      }
    }
  }

  /** In every run that has not failed and whose devices come parents first and go children first, the
    mounts are in step with the bound devices, whichever binds failed. */
  lemma {:induction false} RunMounted(c: Config, base: Mounts.Mount, s: System, steps: seq<Step>)
    requires Mounted(c, base, s) && Possible(c, s, steps)
    ensures Mounted(c, base, Run(c, s, steps))
    decreases |steps|
  {
    if steps != [] {
      RunMounted(c, base, s, steps[..|steps| - 1]);
      MountedStep(c, base, Run(c, s, steps[..|steps| - 1]), steps[|steps| - 1]);
    }
  }

  // ----- Hosts that guarantee such runs -----

  /** No other device with a node lies below the one that changes. */
  predicate LeafChange(host: Registry, e: UdevEvent) {
    match e
    case Added(dev) => forall p | p in host && host[p].node.Some? && p != dev.syspath :: !AtOrBelow(p, dev.syspath)
    case Removed(q) => forall p | p in host && host[p].node.Some? && p != q :: !AtOrBelow(p, q)
    case Other(_) => true
  }

  /** The host adds parents before and removes them after the devices below. */
  ghost predicate OrderedHost(history: seq<UdevEvent>) {
    forall i: nat | i < |history| :: LeafChange(Host(history[..i]), history[i])
  }

  /** No device below the roots is removed between listening and enumerating. */
  ghost predicate CalmWindow(past: Past, roots: seq<Path>) {
    forall i: nat | past.listen <= i < past.scan <= |past.history| ::
      past.history[i].Removed? ==> !Below(roots, past.history[i].syspath)
  }

  lemma {:induction false} StaysPresent(history: seq<UdevEvent>, i: nat, j: nat, p: Path)
    requires i <= j <= |history| && p in Host(history[..i])
    requires forall k: nat | i <= k < j :: history[k] != Removed(p)
    ensures p in Host(history[..j])
    decreases j
  {
    if i < j {
      StaysPresent(history, i, j - 1, p);
      HostSnoc(history, j - 1);
    }
  }

  /** In a calm window the socket tells nothing that enumeration has not told. */
  lemma CalmReport(past: Past, roots: seq<Path>, i: nat)
    requires past.Valid() && CalmWindow(past, roots) && past.listen <= i < past.scan
    ensures Report(past.Baseline(roots), roots, past.history[i]) == None
    ensures SeenStep(past.Baseline(roots), roots, past.history[i]) == past.Baseline(roots)
  {
    var e := past.history[i];
    if e.Added? && Below(roots, e.dev.syspath) {
      HostSnoc(past.history, i);
      StaysPresent(past.history, i + 1, past.scan, e.dev.syspath);
    } else if e.Removed? {
      assert e.syspath !in past.Baseline(roots);
    }
  }

  lemma {:induction false} CalmReplay(past: Past, roots: seq<Path>, i: nat)
    requires past.Valid() && CalmWindow(past, roots) && past.listen <= i <= past.scan
    ensures Replay(past.Baseline(roots), roots, past.history[past.listen..i]) == past.Baseline(roots)
    decreases i
  {
    var events := past.history[past.listen..i];
    if i > past.listen {
      assert events[..|events| - 1] == past.history[past.listen..i - 1];
      CalmReplay(past, roots, i - 1);
      CalmReport(past, roots, i - 1);
    }
  }

  /** A reported socket event is the report of some event of the history, with the same devices seen. */
  lemma {:induction false} ReportedAt(m: State, past: Past) returns (i: nat)
    requires Tracks(m, past) && m.enumerated == [] && Read(m).1.Some?
    ensures past.read <= i < |past.history|
    ensures Read(m).1 == Report(m.seen, m.roots, past.history[i])
    ensures m.seen == Replay(past.Baseline(m.roots), m.roots, past.history[past.listen..i])
    decreases |m.socket|
  {
    TakeTracks(m, past);
    ReportFits(m, past);
    if Report(m.seen, m.roots, m.socket[0]).Some? {
      i := past.read;
    } else {
      i := ReportedAt(Take(m), past.(read := past.read + 1));
    }
  }

  /** While enumerated devices are waiting, none of them lies above a delivered or an earlier one. */
  ghost predicate Tiered(m: State) {
    && (forall i, j | 0 <= i < j < |m.enumerated| ::
          !AtOrBelow(m.enumerated[i].syspath, m.enumerated[j].syspath))
    && (forall p, d | p in Delivered(m) && d in m.enumerated :: !AtOrBelow(p, d.syspath))
  }

  /** A socket event that is reported comes after the window, when the monitor follows the host. */
  lemma ReportedIsLeaf(m: State, past: Past)
    requires Tracks(m, past) && m.enumerated == [] && Read(m).1.Some?
    requires OrderedHost(past.history) && CalmWindow(past, m.roots)
    ensures LeafEvent(m.seen, Read(m).1.value)
  {
    var i := ReportedAt(m, past);
    if i < past.scan {
      CalmReplay(past, m.roots, i);
      CalmReport(past, m.roots, i);
    } else {
      ReplayFollowsHost(past, m.roots, i);
      SeenKeyed(m, past);
      LeafReport(Host(past.history[..i]), m.roots, past.history[i]);
    }
  }

  lemma LeafReport(host: Registry, roots: seq<Path>, e: UdevEvent)
    requires LeafChange(host, e) && Report(Restrict(host, roots), roots, e).Some?
    requires forall p | p in Restrict(host, roots) :: Restrict(host, roots)[p].syspath == p
    ensures LeafEvent(Restrict(host, roots), Report(Restrict(host, roots), roots, e).value)
  {
  }

  lemma QueuedIsLeaf(m: State)
    requires Tiered(m) && m.enumerated != []
    ensures LeafEvent(Delivered(m), Add(m.enumerated[0]))
  {
    assert m.enumerated[0] in m.enumerated;
  }

  lemma ReadIsLeaf(m: State, past: Past)
    requires Tracks(m, past) && Tiered(m) && Read(m).1.Some?
    requires OrderedHost(past.history) && CalmWindow(past, m.roots)
    ensures LeafEvent(Delivered(m), Read(m).1.value)
  {
    if m.enumerated != [] {
      QueuedIsLeaf(m);
    } else {
      ReportedIsLeaf(m, past);
      assert Delivered(m) == m.seen;
    }
  }

  lemma NextReads(m: Machine)
    requires Next(m).1.Some?
    ensures Next(m).1 == Read(m.mon).1
  {
  }

  /** The event taken by a turn is at a leaf of the delivered devices. */
  lemma TakenIsLeaf(m: Machine, past: Past)
    requires Tracks(m.mon, past) && Tiered(m.mon) && Next(m).1.Some?
    requires OrderedHost(past.history) && CalmWindow(past, m.mon.roots)
    ensures LeafEvent(Delivered(m.mon), Next(m).1.value)
  {
    NextReads(m);
    ReadIsLeaf(m.mon, past);
  }

  lemma {:induction false} SocketKeepsQueue(m: State)
    requires m.enumerated == []
    ensures Read(m).0.enumerated == []
    decreases |m.socket|
  {
    if m.socket != [] {
      SocketKeepsQueue(Take(m));
    }
  }

  lemma TieredPop(m: State, past: Past)
    requires Tracks(m, past) && Tiered(m) && m.enumerated != []
    ensures Tiered(m.(enumerated := m.enumerated[1..]))
  {
    PopTracks(m, past);
    var d, mon := m.enumerated[0], m.(enumerated := m.enumerated[1..]);
    assert Delivered(mon) == Delivered(m)[d.syspath := d];
    forall p, q | p in Delivered(mon) && q in mon.enumerated ensures !AtOrBelow(p, q.syspath) {
      var j :| 0 <= j < |mon.enumerated| && mon.enumerated[j] == q;
      assert m.enumerated[j + 1] == q;
    }
  }

  lemma TieredStep(m: Machine, past: Past)
    requires Tracks(m.mon, past) && Tiered(m.mon)
    ensures Tiered(Next(m).0)
  {
    if m.mon.enumerated == [] {
      SocketKeepsQueue(m.mon);
    } else {
      TieredPop(m.mon, past);
    }
  }

  ghost predicate Leafy(s: System) {
    OnTrack(s) && Tiered(s.machine.mon) && LeafLog(s.log)
  }

  lemma LeafyStep(c: Config, s: System, step: Step)
    requires Leafy(s)
    requires step.HostEvent? ==> Enabled(Host(s.past.history), step.e)
    requires OrderedHost(s.past.history) && CalmWindow(s.past, s.machine.mon.roots)
    ensures !Apply(c, s, step).machine.phase.Ended? ==> Leafy(Apply(c, s, step))
  {
    StepKeeps(c, s, step);
    var t := Apply(c, s, step);
    match step {
      case HostEvent(e) => HostKeeps(c, s, e);
      case Turn(env) =>
        AdvanceFields(c, s.machine, env);
        TieredStep(s.machine, s.past);
        if t.log != s.log {
          TakenIsLeaf(s.machine, s.past);
          assert t.log[..|t.log| - 1] == s.log;
        }
    }
  }

  lemma OrderedEarlier(before: Past, after: Past, roots: seq<Path>)
    requires Extends(before, after) && OrderedHost(after.history) && CalmWindow(after, roots)
    ensures OrderedHost(before.history) && CalmWindow(before, roots)
  {
    forall i: nat | i < |before.history| ensures LeafChange(Host(before.history[..i]), before.history[i]) {
      assert before.history[..i] == after.history[..i];
      assert before.history[i] == after.history[i];
    }
  }

  lemma {:induction false} RunLeafy(c: Config, s: System, steps: seq<Step>)
    requires Leafy(s) && Possible(c, s, steps)
    requires OrderedHost(Run(c, s, steps).past.history)
    requires CalmWindow(Run(c, s, steps).past, s.machine.mon.roots)
    requires !Run(c, s, steps).machine.phase.Ended?
    ensures Leafy(Run(c, s, steps))
    decreases |steps|
  {
    if steps != [] {
      var init, step := steps[..|steps| - 1], steps[|steps| - 1];
      RunOnTrack(c, s, init);
      StepKeeps(c, Run(c, s, init), step);
      OrderedEarlier(Run(c, s, init).past, Run(c, s, steps).past, s.machine.mon.roots);
      RunLeafy(c, s, init);
      LeafyStep(c, Run(c, s, init), step);
    }
  }

  /** With a host that adds parents first and removes children first, an enumeration in that order, and no
    removal between listening and enumerating, a path is writable in the container exactly when it was so
    originally or lies at or below a device whose directory is bound; and when no directory is bound any
    more, the original mounts are back. */
  lemma RunSysfsExact(c: Config, s: System, steps: seq<Step>, scan: seq<Device>, files: Files,
                      base: Mounts.Mount)
    requires Initial(s, scan, files, base) && Possible(c, s, steps)
    requires Tiered(s.machine.mon)
    requires OrderedHost(Run(c, s, steps).past.history)
    requires CalmWindow(Run(c, s, steps).past, s.machine.mon.roots)
    requires !Run(c, s, steps).machine.phase.Ended?
    ensures var plant := Run(c, s, steps).machine.plant;
            && Exact(base, plant)
            && (plant.bound == {} ==> plant.mounts == base)
            && plant.bound <= plant.devices.Keys
  {
    InitialOnTrack(s, scan, files, base);
    RunLeafy(c, s, steps);
    RunSysfsFollows(c, s, steps, scan, files, base);
  }

  /** The same for every run whose processed events come parents first and go children first, whatever the
    host and the window of the overlap look like. */
  lemma RunSysfsFollows(c: Config, s: System, steps: seq<Step>, scan: seq<Device>, files: Files,
                        base: Mounts.Mount)
    requires Initial(s, scan, files, base) && Possible(c, s, steps)
    requires !Run(c, s, steps).machine.phase.Ended? && LeafLog(Run(c, s, steps).log)
    ensures var plant := Run(c, s, steps).machine.plant;
            && Exact(base, plant)
            && (plant.bound == {} ==> plant.mounts == base)
            && plant.bound <= plant.devices.Keys
  {
    InitialRefines(c, s, scan, files, base);
    assert Arranged(base, s.machine.plant, []);
    RunMounted(c, base, s, steps);
    SysfsExact(base, Run(c, s, steps).machine.plant);
  }
}
