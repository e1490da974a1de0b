/** What every run of the pipeline guarantees to the container and to its supervisor. */
module Guarantees {
  import opened Devices
  import opened Monitor
  import opened DeviceFilter
  import opened ContainerState
  import opened Controller
  import opened Effects
  import opened Footprints
  import opened Uevent
  import opened Pipeline
  import Mounts

  function AttachedNodes(devices: map<Path, Attached>): set<DevNode> {
    set p | p in devices && devices[p].device.node.Some? :: devices[p].device.node.value
  }

  lemma AttachedNodesAre(rules: seq<Rule>, held: Registry, s: Plant)
    requires Attaches(rules, held, s)
    ensures AttachedNodes(s.devices) == NodesOf(held)
  {
    forall n | n in NodesOf(held) ensures n in AttachedNodes(s.devices) {
      var p :| p in held && held[p].node == Some(n);
      assert p in s.devices && s.devices[p].device.node == Some(n);
    }
  }

  // ----- Access decisions -----

  /** In every run that has not failed, the filter program decides every request as intended for the
    devices attached at that moment, if and only if none of them is numbered (0, 0). */
  lemma RunDecides(c: Config, s: System, steps: seq<Step>, scan: seq<Device>, files: Files, mounts: Mounts.Mount)
    requires Initial(s, scan, files, mounts) && Possible(c, s, steps)
    requires Assumes(Run(c, s, steps).past, s.machine.mon.roots, DistinctNumbers())
    requires !Run(c, s, steps).machine.phase.Ended?
    ensures var plant := Run(c, s, steps).machine.plant;
            Decides(plant.perms, AttachedNodes(plant.devices))
            <==> (forall n | n in AttachedNodes(plant.devices) :: !IsFallback(n))
  {
    var t := Run(c, s, steps);
    InitialPermits(c, s, scan, files, mounts);
    RunPermits(c, s, steps);
    AttachedNodesAre(c.rules, Holding(t), t.machine.plant);
    PolicyHoldsIff(t.machine.plant.perms, AttachedNodes(t.machine.plant.devices));
  }

  lemma NoMissInTurn(c: Config, s: System, env: Env)
    requires Permits(c, s) && Assumes(s.past, s.machine.mon.roots, DistinctNumbers())
    requires Advance(c, s.machine, env).1.Failed?
    ensures Advance(c, s.machine, env).1.error !in {MissingKey, AbsentNode}
    ensures Advance(c, s.machine, env).1.error == MapFull ==> |s.machine.plant.devices| == 256
  {
    NextTracks(s.machine, s.past);
    AdvanceFields(c, s.machine, env);
    TakenRelated(s.machine, s.past, DistinctNumbers());
    NoSpuriousAbort(c, Holding(s), s.machine.plant, Next(s.machine).1.value, env);
  }

  /** A run never fails for want of a permission entry or of a device node, and a full permission map
    refuses a device only when that many devices are attached. */
  lemma RunNeverMisses(c: Config, s: System, steps: seq<Step>, scan: seq<Device>, files: Files,
                       mounts: Mounts.Mount, env: Env)
    requires Initial(s, scan, files, mounts) && Possible(c, s, steps)
    requires Assumes(Run(c, s, steps).past, s.machine.mon.roots, DistinctNumbers())
    requires Advance(c, Run(c, s, steps).machine, env).1.Failed?
    ensures var error := Advance(c, Run(c, s, steps).machine, env).1.error;
            && error !in {MissingKey, AbsentNode}
            && (error == MapFull ==> |Run(c, s, steps).machine.plant.devices| == 256)
  {
    var t := Run(c, s, steps);
    InitialPermits(c, s, scan, files, mounts);
    RunPermits(c, s, steps);
    RunOnTrack(c, s, steps);
    NoMissInTurn(c, t, env);
  }

  // ----- The last event of a device number decides, without any hypothesis -----

  /** The last processed event for the number `k` was an addition. */
  predicate LastAdded(log: seq<DeviceEvent>, k: Key) {
    log != [] &&
    var last := log[|log| - 1];
    if last.dev.node.Some? && KeyOf(last.dev.node.value) == k then last.Add?
    else LastAdded(log[..|log| - 1], k)
  }

  ghost predicate Permitted(c: Config, s: System) {
    Refines(c, s) &&
    (!s.machine.phase.Ended? ==>
       forall k :: if LastAdded(s.log, k) then k in s.machine.plant.perms && s.machine.plant.perms[k] == ALL
                   else k !in s.machine.plant.perms)
  }

  /** A successful event changes the entry of its own number alone. */
  lemma PermsStep(c: Config, held: Registry, s: Plant, e: DeviceEvent, env: Env)
    requires Attaches(c.rules, held, s) && Fits(held, e) && Process(c, s, e, env).1.Ok?
    ensures Process(c, s, e, env).0.perms ==
            if e.dev.node.None? then s.perms
            else if e.Add? then s.perms[KeyOf(e.dev.node.value) := ALL]
            else s.perms - {KeyOf(e.dev.node.value)}
  {
    if e.dev.node.None? {
      assert e.dev.syspath !in s.devices;
      Ignored(c, s, e, env);
    } else if e.Add? {
      AddedFields(c, s, e.dev, env);
    } else {
      RemovedFields(s, e.dev.syspath, env);
    }
  }

  lemma PermittedStep(c: Config, s: System, step: Step)
    requires Permitted(c, s)
    requires step.HostEvent? ==> Enabled(Host(s.past.history), step.e)
    ensures Permitted(c, Apply(c, s, step))
  {
    StepKeeps(c, s, step);
    RefinesStep(c, s, step);
    if step.Turn? && !Apply(c, s, step).machine.phase.Ended? {
      TurnPermits(c, s, step.env);
    }
  }

  lemma TurnPermits(c: Config, s: System, env: Env)
    requires Refines(c, s) && !TakeTurn(c, s, env).machine.phase.Ended?
    ensures !s.machine.phase.Ended?
    ensures var t := TakeTurn(c, s, env);
            var e := Next(s.machine).1;
            if e.None? then t.machine.plant.perms == s.machine.plant.perms && t.log == s.log
            else && t.log == s.log + [e.value] && t.log[..|t.log| - 1] == s.log
                 && t.machine.plant.perms ==
                      if e.value.dev.node.None? then s.machine.plant.perms
                      else if e.value.Add? then s.machine.plant.perms[KeyOf(e.value.dev.node.value) := ALL]
                      else s.machine.plant.perms - {KeyOf(e.value.dev.node.value)}
  {
    NextTracks(s.machine, s.past);
    AdvanceFields(c, s.machine, env);
    var e := Next(s.machine).1;
    if e.Some? {
      PermsStep(c, Holding(s), s.machine.plant, e.value, env);
    }
  }

  /** In every run that has not failed, and without any assumption about the host, a device number has an
    entry, a full one, if and only if the last processed event for it was an addition. */
  lemma {:induction false} RunLastGrant(c: Config, s: System, steps: seq<Step>)
    requires Permitted(c, s) && Possible(c, s, steps)
    ensures Permitted(c, Run(c, s, steps))
    decreases |steps|
  {
    if steps != [] {
      RunLastGrant(c, s, steps[..|steps| - 1]);
      PermittedStep(c, Run(c, s, steps[..|steps| - 1]), steps[|steps| - 1]);
    }
  }

  /** Exactly when a turn fails for want of a permission entry: it removes a device with a node whose number
    was last processed in a removal, and gets past detaching the device's sysfs directory. */
  lemma MissingKeyIff(c: Config, s: System, env: Env)
    requires Permitted(c, s) && !s.machine.phase.Ended?
    ensures Advance(c, s.machine, env).1 == Failed(MissingKey) <==>
            var e := Next(s.machine).1;
            && e.Some? && e.value.Remove? && e.value.dev.node.Some?
            && !(e.value.dev.syspath in s.machine.plant.bound && env.At(0).NotEntered?)
            && !LastAdded(s.log, KeyOf(e.value.dev.node.value))
  {
    NextTracks(s.machine, s.past);
    var e := Next(s.machine).1;
    if e.Some? {
      FailureOf(c, s.machine, env);
      if e.value.Add? {
        if AddDevice(c, s.machine.plant, e.value.dev, env).1.Err? {
          AddErrors(c, s.machine.plant, e.value.dev, env);
        }
      } else {
        MissingOnRemoval(c, Holding(s), s.machine.plant, e.value.dev, env);
      }
    }
  }

  lemma FailureOf(c: Config, m: Machine, env: Env)
    requires Next(m).1.Some?
    ensures var r := Process(c, m.plant, Next(m).1.value, env).1;
            forall error :: Advance(c, m, env).1 == Failed(error) <==> r == Err(error)
  {
  }

  lemma MissingOnRemoval(c: Config, held: Registry, s: Plant, d: Device, env: Env)
    requires Attaches(c.rules, held, s) && Fits(held, Remove(d))
    ensures RemoveDevice(s, d.syspath, env).1 == Err(MissingKey) <==>
            && d.node.Some? && !(d.syspath in s.bound && env.At(0).NotEntered?)
            && KeyOf(d.node.value) !in s.perms
  {
    if d.node.Some? {
      assert s.devices[d.syspath].device == d;
      if KeyOf(d.node.value) in s.perms && RemoveDevice(s, d.syspath, env).1.Err? {
        RemoveErrors(s, d.syspath, env);
      }
    } else {
      assert d.syspath !in s.devices;
    }
  }

  // ----- Files -----

  ghost predicate Written(c: Config, files: Files, s: System) {
    Refines(c, s) &&
    (!s.machine.phase.Ended? ==> forall q :: FileAt(s.machine.plant.files, q) == Content(c, files, s.log, q))
  }

  lemma WrittenStep(c: Config, files: Files, s: System, step: Step)
    requires Written(c, files, s)
    requires step.HostEvent? ==> Enabled(Host(s.past.history), step.e)
    ensures Written(c, files, Apply(c, s, step))
  {
    StepKeeps(c, s, step);
    RefinesStep(c, s, step);
    var t := Apply(c, s, step);
    if step.Turn? && !t.machine.phase.Ended? {
      NextTracks(s.machine, s.past);
      AdvanceFields(c, s.machine, step.env);
      var e := Next(s.machine).1;
      forall q | e.Some? ensures FileAt(t.machine.plant.files, q) == Content(c, files, t.log, q) {
        FilesStep(c, Holding(s), s.machine.plant, e.value, step.env, q);
        assert t.log[..|t.log| - 1] == s.log;
      }
    }
  }

  /** In every run that has not failed, and without any assumption about the host, the content of each
    path is what the last processed event touching it has left there. */
  lemma {:induction false} RunLastWriter(c: Config, s: System, steps: seq<Step>, files: Files)
    requires Written(c, files, s) && Possible(c, s, steps)
    ensures Written(c, files, Run(c, s, steps))
    decreases |steps|
  {
    if steps != [] {
      RunLastWriter(c, s, steps[..|steps| - 1], files);
      WrittenStep(c, files, Run(c, s, steps[..|steps| - 1]), steps[|steps| - 1]);
    }
  }

  /** Devices that share no path with another device and are not linked onto their own node. */
  ghost function Apart(rules: seq<Rule>): (Device, Device) -> bool {
    (a, b) => FootprintsApart(rules, a, b) && SelfApart(rules, a)
  }

  /** Such devices whose paths, besides, were free to begin with. */
  ghost function TidyPaths(rules: seq<Rule>, files: Files): (Device, Device) -> bool {
    (a, b) => FootprintsApart(rules, a, b) && SelfApart(rules, a) && FreePaths(rules, files, a)
  }

  ghost predicate Owns(c: Config, s: System) {
    Refines(c, s) && (!s.machine.phase.Ended? ==> HasOwn(c, Holding(s), s.machine.plant.files))
  }

  lemma OwnsStep(c: Config, s: System, step: Step)
    requires Owns(c, s) && Assumes(s.past, s.machine.mon.roots, Apart(c.rules))
    requires step.HostEvent? ==> Enabled(Host(s.past.history), step.e)
    ensures Owns(c, Apply(c, s, step))
  {
    StepKeeps(c, s, step);
    RefinesStep(c, s, step);
    match step {
      case HostEvent(e) => HostKeeps(c, s, e);
      case Turn(env) =>
        NextTracks(s.machine, s.past);
        AdvanceFields(c, s.machine, env);
        var e := Next(s.machine).1;
        if e.Some? && Process(c, s.machine.plant, e.value, env).1.Ok? {
          TakenRelated(s.machine, s.past, Apart(c.rules));
          OwnStep(c, Holding(s), s.machine.plant, e.value, env);
        }
    }
  }

  /** In every run that has not failed, each attached device has its node and all its symlinks, whatever was at
    these paths before, provided paths are not shared. */
  lemma {:induction false} RunOwns(c: Config, s: System, steps: seq<Step>)
    requires Owns(c, s) && Possible(c, s, steps)
    requires Assumes(Run(c, s, steps).past, s.machine.mon.roots, Apart(c.rules))
    ensures Owns(c, Run(c, s, steps))
    decreases |steps|
  {
    if steps != [] {
      var init, step := steps[..|steps| - 1], steps[|steps| - 1];
      RunExtends(c, s, steps);
      AssumesEarlier(Run(c, s, init).past, Run(c, s, steps).past, s.machine.mon.roots, Apart(c.rules));
      RunOwns(c, s, init);
      OwnsStep(c, Run(c, s, init), step);
    }
  }

  lemma RunExtends(c: Config, s: System, steps: seq<Step>)
    requires OnTrack(s) && Possible(c, s, steps) && steps != []
    ensures Extends(Run(c, s, steps[..|steps| - 1]).past, Run(c, s, steps).past)
    ensures Run(c, s, steps[..|steps| - 1]).machine.mon.roots == s.machine.mon.roots
  {
    var init, step := steps[..|steps| - 1], steps[|steps| - 1];
    RunOnTrack(c, s, init);
    StepKeeps(c, Run(c, s, init), step);
  }

  ghost predicate Presents(c: Config, files: Files, s: System) {
    Refines(c, s) &&
    (!s.machine.phase.Ended? ==> PresentExactly(c, files, Holding(s), s.machine.plant.files))
  }

  lemma TakenIsTidy(c: Config, files: Files, m: Machine, past: Past)
    requires Tracks(m.mon, past) && Assumes(past, m.mon.roots, TidyPaths(c.rules, files)) && Next(m).1.Some?
    ensures var d := Next(m).1.value.dev;
            && SelfApart(c.rules, d) && FreePaths(c.rules, files, d)
            && forall p | p in Delivered(m.mon) :: FootprintsApart(c.rules, Delivered(m.mon)[p], d)
  {
    var d := Next(m).1.value.dev;
    TakenRelated(m, past, TidyPaths(c.rules, files));
    assert TidyPaths(c.rules, files)(d, d);
    forall p | p in Delivered(m.mon) ensures FootprintsApart(c.rules, Delivered(m.mon)[p], d) {
      assert TidyPaths(c.rules, files)(Delivered(m.mon)[p], d);
    }
  }

  lemma PresentsStep(c: Config, files: Files, s: System, step: Step)
    requires Presents(c, files, s) && Assumes(s.past, s.machine.mon.roots, TidyPaths(c.rules, files))
    requires step.HostEvent? ==> Enabled(Host(s.past.history), step.e)
    ensures Presents(c, files, Apply(c, s, step))
  {
    StepKeeps(c, s, step);
    RefinesStep(c, s, step);
    match step {
      case HostEvent(e) => HostKeeps(c, s, e);
      case Turn(env) =>
        NextTracks(s.machine, s.past);
        AdvanceFields(c, s.machine, env);
        var e := Next(s.machine).1;
        if e.Some? && Process(c, s.machine.plant, e.value, env).1.Ok? {
          TakenIsTidy(c, files, s.machine, s.past);
          PresentStep(c, files, Holding(s), s.machine.plant, e.value, env);
        }
    }
  }

  /** If these paths were free at the start, besides, every other path is as it was then. */
  lemma {:induction false} RunPresents(c: Config, s: System, steps: seq<Step>, files: Files)
    requires Presents(c, files, s) && Possible(c, s, steps)
    requires Assumes(Run(c, s, steps).past, s.machine.mon.roots, TidyPaths(c.rules, files))
    ensures Presents(c, files, Run(c, s, steps))
    decreases |steps|
  {
    if steps != [] {
      var init, step := steps[..|steps| - 1], steps[|steps| - 1];
      RunExtends(c, s, steps);
      AssumesEarlier(Run(c, s, init).past, Run(c, s, steps).past, s.machine.mon.roots, TidyPaths(c.rules, files));
      RunPresents(c, s, init, files);
      PresentsStep(c, files, Run(c, s, init), step);
    }
  }

  /** In every run that has not failed, without any assumption about the host: a path of no attached device is
    as it was at the start, unless some processed event was about it; then nothing is there. */
  lemma RunElsewhere(c: Config, s: System, steps: seq<Step>, files: Files, q: Path)
    requires Written(c, files, s) && Possible(c, s, steps) && !Run(c, s, steps).machine.phase.Ended?
    requires !Touched(c.rules, Held(Run(c, s, steps).log), q)
    ensures FileAt(Run(c, s, steps).machine.plant.files, q) ==
            if Rewritten(c, Run(c, s, steps).log, q) then None else FileAt(files, q)
  {
    RunLastWriter(c, s, steps, files);
    ContentElsewhere(c, files, Run(c, s, steps).log, q);
  }

  lemma InitialFiles(c: Config, s: System, scan: seq<Device>, files: Files, mounts: Mounts.Mount)
    requires Initial(s, scan, files, mounts)
    ensures Written(c, files, s) && Owns(c, s) && Presents(c, files, s) && Permitted(c, s)
  {
    InitialRefines(c, s, scan, files, mounts);
    InitialOnTrack(s, scan, files, mounts);
  }

  // ----- Conservation -----

  /** A device number that was last added belongs to an attached device. */
  lemma {:induction false} AddedIsHeld(log: seq<DeviceEvent>, k: Key)
    requires Fitting(log) && LastAdded(log, k)
    ensures exists p | p in Held(log) :: Held(log)[p].node.Some? && KeyOf(Held(log)[p].node.value) == k
    decreases |log|
  {
    var init, e := log[..|log| - 1], log[|log| - 1];
    if e.dev.node.Some? && KeyOf(e.dev.node.value) == k {
      assert e.dev.syspath in Held(log) && Held(log)[e.dev.syspath] == e.dev;
    } else {
      AddedIsHeld(init, k);
      var p :| p in Held(init) && Held(init)[p].node.Some? && KeyOf(Held(init)[p].node.value) == k;
      assert p in Held(log) && Held(log)[p] == Held(init)[p];
    }
  }

  lemma NothingHeld(c: Config, t: System)
    requires Refines(c, t) && !t.machine.phase.Ended? && t.machine.plant.devices == map[]
    ensures forall k :: !LastAdded(t.log, k)
    ensures forall q :: !Touched(c.rules, Held(t.log), q)
  {
    var held := Held(t.log);
    forall p | p in held ensures held[p].node.None? {
      assert p !in t.machine.plant.devices;
    }
    forall k ensures !LastAdded(t.log, k) {
      if LastAdded(t.log, k) {
        AddedIsHeld(t.log, k);
        assert false;
      }
    }
  }

  /** When a run that has not failed has detached everything again, whatever the host did: no permission is
    left, and the files are what they were at the start, but for parent directories that were created, if and
    only if nothing was there at any path that an event was about. */
  lemma RunConserves(c: Config, s: System, steps: seq<Step>, scan: seq<Device>, files: Files, mounts: Mounts.Mount)
    requires Initial(s, scan, files, mounts) && Possible(c, s, steps)
    requires !Run(c, s, steps).machine.phase.Ended? && Run(c, s, steps).machine.plant.devices == map[]
    ensures var t := Run(c, s, steps);
            && t.machine.plant.perms == map[]
            && ((forall q :: FileAt(t.machine.plant.files, q) == FileAt(files, q)) <==>
                (forall q | Rewritten(c, t.log, q) :: FileAt(files, q) == None))
  {
    var t := Run(c, s, steps);
    InitialFiles(c, s, scan, files, mounts);
    RunLastGrant(c, s, steps);
    NothingHeld(c, t);
    forall q ensures FileAt(t.machine.plant.files, q) ==
                     if Rewritten(c, t.log, q) then None else FileAt(files, q)
    {
      RunElsewhere(c, s, steps, files, q);
    }
  }

  /** In particular they are restored if devices share no path and their paths were free. */
  lemma RunRestores(c: Config, s: System, steps: seq<Step>, scan: seq<Device>, files: Files, mounts: Mounts.Mount)
    requires Initial(s, scan, files, mounts) && Possible(c, s, steps)
    requires Assumes(Run(c, s, steps).past, s.machine.mon.roots, TidyPaths(c.rules, files))
    requires !Run(c, s, steps).machine.phase.Ended? && Run(c, s, steps).machine.plant.devices == map[]
    ensures Run(c, s, steps).machine.plant.perms == map[]
    ensures forall q :: FileAt(Run(c, s, steps).machine.plant.files, q) == FileAt(files, q)
  {
    RunConserves(c, s, steps, scan, files, mounts);
    InitialFiles(c, s, scan, files, mounts);
    RunPresents(c, s, steps, files);
    NothingHeld(c, Run(c, s, steps));
  }

  // ----- Access decisions, without any assumption about the host -----

  /** Every entry is a full one for an attached device. */
  lemma RunGrantsWithin(c: Config, s: System, steps: seq<Step>)
    requires Permitted(c, s) && Possible(c, s, steps) && !Run(c, s, steps).machine.phase.Ended?
    ensures var t := Run(c, s, steps);
            && GrantsWithin(t.machine.plant.perms, AttachedNodes(t.machine.plant.devices))
            && forall k :: k in t.machine.plant.perms <==> LastAdded(t.log, k)
  {
    var t := Run(c, s, steps);
    RunLastGrant(c, s, steps);
    forall k | k in t.machine.plant.perms
      ensures t.machine.plant.perms[k] == ALL && IsAttached(AttachedNodes(t.machine.plant.devices), k)
    {
      AddedIsHeld(t.log, k);
      var p :| p in Held(t.log) && Held(t.log)[p].node.Some? && KeyOf(Held(t.log)[p].node.value) == k;
      assert t.machine.plant.devices[p].device == Held(t.log)[p];
      assert Held(t.log)[p].node.value in AttachedNodes(t.machine.plant.devices);
    }
  }

  /** In every run that has not failed, whatever the host did: all requests are decided as intended for the
    devices attached at that moment if and only if each of them is a default device, or its number was last
    added, or the fallback number of its type was; and a fallback number that was last added has no device
    number of its type left to open. */
  lemma RunDecidesIff(c: Config, s: System, steps: seq<Step>, scan: seq<Device>, files: Files, mounts: Mounts.Mount)
    requires Initial(s, scan, files, mounts) && Possible(c, s, steps)
    requires !Run(c, s, steps).machine.phase.Ended?
    ensures var t := Run(c, s, steps);
            var nodes := AttachedNodes(t.machine.plant.devices);
            Decides(t.machine.plant.perms, nodes) <==>
            && (forall n | n in nodes ::
                  IsDefault(KeyOf(n)) || LastAdded(t.log, KeyOf(n)) || LastAdded(t.log, FallbackKey(n.ty)))
            && (forall n | n in nodes && IsFallback(n) && LastAdded(t.log, KeyOf(n)) :: !Spare(nodes, n.ty))
  {
    InitialFiles(c, s, scan, files, mounts);
    RunGrantsWithin(c, s, steps);
    var t := Run(c, s, steps);
    DecidesIff(t.machine.plant.perms, AttachedNodes(t.machine.plant.devices));
  }

  /** With fewer than about four billion nodes attached: if and only if none of them is numbered (0, 0) and
    each is a default device or its number was last added. */
  lemma RunDecidesSimply(c: Config, s: System, steps: seq<Step>, scan: seq<Device>, files: Files, mounts: Mounts.Mount)
    requires Initial(s, scan, files, mounts) && Possible(c, s, steps)
    requires !Run(c, s, steps).machine.phase.Ended?
    requires |AttachedNodes(Run(c, s, steps).machine.plant.devices)| < U32_LIMIT - 1000
    ensures var t := Run(c, s, steps);
            var nodes := AttachedNodes(t.machine.plant.devices);
            Decides(t.machine.plant.perms, nodes) <==>
            forall n | n in nodes :: !IsFallback(n) && (IsDefault(KeyOf(n)) || LastAdded(t.log, KeyOf(n)))
  {
    InitialFiles(c, s, scan, files, mounts);
    RunGrantsWithin(c, s, steps);
    var t := Run(c, s, steps);
    var nodes := AttachedNodes(t.machine.plant.devices);
    SpareNumber(nodes, Block);
    SpareNumber(nodes, Character);
    DecidesSimply(t.machine.plant.perms, nodes);
  }

  // ----- The refinement in one statement -----

  /** From the start, in every interleaving, as long as the stream has not failed: the attached devices are
    the delivered ones with a node, the permission map has exactly their entries, and their files and no
    others are present. */
  lemma RunIsExact(c: Config, s: System, steps: seq<Step>, scan: seq<Device>, files: Files, mounts: Mounts.Mount)
    requires Initial(s, scan, files, mounts) && Possible(c, s, steps)
    requires Assumes(Run(c, s, steps).past, s.machine.mon.roots, DistinctNumbers())
    requires Assumes(Run(c, s, steps).past, s.machine.mon.roots, TidyPaths(c.rules, files))
    requires !Run(c, s, steps).machine.phase.Ended?
    ensures var t := Run(c, s, steps);
            var plant := t.machine.plant;
            && IsAttachedOf(c.rules, Held(t.log), plant.devices)
            && GrantsExactly(plant.perms, AttachedNodes(plant.devices))
            && |plant.perms| == |plant.devices|
            && PresentExactly(c, files, Held(t.log), plant.files)
            && forall q :: FileAt(plant.files, q) == Content(c, files, t.log, q)
  {
    var t := Run(c, s, steps);
    InitialPermits(c, s, scan, files, mounts);
    RunPermits(c, s, steps);
    InitialFiles(c, s, scan, files, mounts);
    RunPresents(c, s, steps, files);
    RunLastWriter(c, s, steps, files);
    AttachedNodesAre(c.rules, Holding(t), t.machine.plant);
  }

  // ----- Start-up -----

  /** When the stream reports that the container is initialised, nothing is waiting in either queue and the
    attached devices are exactly the host's present devices below the roots that have a node. */
  lemma InitializedIsExact(c: Config, s: System, env: Env)
    requires Refines(c, s)
    requires Advance(c, s.machine, env).1 == Yield(Initialized)
    ensures s.machine.phase.Draining?
    ensures var m := Advance(c, s.machine, env).0;
            && m.mon.enumerated == [] && m.mon.socket == []
            && IsAttachedOf(c.rules, Restrict(Host(s.past.history), m.mon.roots), m.plant.devices)
            && Delivered(m.mon) == Restrict(Host(s.past.history), m.mon.roots)
  {
    NextTracks(s.machine, s.past);
    AdvanceFields(c, s.machine, env);
    var (mon, e) := Next(s.machine);
    if e.Some? {
      AttachesStep(c, Holding(s), s.machine.plant, e.value, env);
    } else {
      ReadDrains(s.machine.mon);
      DrainedIsExact(mon, Onward(s.past, mon));
    }
  }

  /** Attached are exactly the present devices that have a node and lie at or below one of the roots, component
    by component. */
  ghost predicate Serves(roots: seq<Path>, host: Registry, devices: map<Path, Attached>) {
    && (forall p :: p in devices <==> p in host && host[p].node.Some? && exists r :: r in roots && r <= p)
    && (forall p | p in devices :: devices[p].device == host[p])
  }

  lemma AttachedServes(rules: seq<Rule>, roots: seq<Path>, host: Registry, devices: map<Path, Attached>)
    requires IsAttachedOf(rules, Restrict(host, roots), devices)
    ensures Serves(roots, host, devices)
  {
    forall p ensures p in devices <==> p in host && host[p].node.Some? && exists r :: r in roots && r <= p {
      assert p in devices <==> p in Restrict(host, roots) && Restrict(host, roots)[p].node.Some?;
    }
  }

  /** The same whenever the stream waits: it has caught up with the host. */
  lemma WaitingIsExact(c: Config, s: System, env: Env)
    requires Refines(c, s) && s.machine.phase.Following?
    requires Advance(c, s.machine, env).1 == Wait
    ensures Advance(c, s.machine, env).0.plant == s.machine.plant
    ensures IsAttachedOf(c.rules, Restrict(Host(s.past.history), s.machine.mon.roots), s.machine.plant.devices)
  {
    NextTracks(s.machine, s.past);
    AdvanceFields(c, s.machine, env);
    PollTracks(s.machine.mon, s.past);
  }

  /** In every run, whenever the stream waits, the attached devices are exactly the present ones below the roots
    that have a node. */
  lemma RunWaits(c: Config, s: System, steps: seq<Step>, scan: seq<Device>, files: Files, mounts: Mounts.Mount,
                 env: Env)
    requires Initial(s, scan, files, mounts) && Possible(c, s, steps)
    requires Run(c, s, steps).machine.phase.Following?
    requires Advance(c, Run(c, s, steps).machine, env).1 == Wait
    ensures var t := Run(c, s, steps);
            && IsAttachedOf(c.rules, Restrict(Host(t.past.history), s.machine.mon.roots), t.machine.plant.devices)
            && Serves(s.machine.mon.roots, Host(t.past.history), t.machine.plant.devices)
  {
    InitialRefines(c, s, scan, files, mounts);
    RunRefines(c, s, steps);
    RunOnTrack(c, s, steps);
    var t := Run(c, s, steps);
    WaitingIsExact(c, t, env);
    AttachedServes(c.rules, s.machine.mon.roots, Host(t.past.history), t.machine.plant.devices);
  }

  /** Each device found by the enumeration has been kept, or its removal has been processed. */
  ghost predicate Accounted(s: System) {
    s.past.Valid() &&
    forall p | p in s.past.Baseline(s.machine.mon.roots) ::
      var d := s.past.Baseline(s.machine.mon.roots)[p];
      (p in s.machine.mon.seen && s.machine.mon.seen[p] == d) || Remove(d) in s.log
  }

  lemma {:induction false} ReadForgets(m: State, past: Past, p: Path)
    requires Tracks(m, past) && p in m.seen
    ensures var (mon, e) := Read(m);
            (p in mon.seen && mon.seen[p] == m.seen[p]) || e == Some(Remove(m.seen[p]))
    decreases |m.socket|
  {
    if m.enumerated == [] && m.socket != [] {
      TakeTracks(m, past);
      ReportFits(m, past);
      SeenKeyed(m, past);
      if Report(m.seen, m.roots, m.socket[0]).None? {
        ReadForgets(Take(m), past.(read := past.read + 1), p);
      }
    }
  }

  predicate KeptOrRemoved(s: System, d: Device) {
    (d.syspath in s.machine.mon.seen && s.machine.mon.seen[d.syspath] == d) || Remove(d) in s.log
  }

  lemma NextForgets(c: Config, s: System, env: Env, d: Device)
    requires OnTrack(s) && KeptOrRemoved(s, d)
    requires !TakeTurn(c, s, env).machine.phase.Ended?
    ensures KeptOrRemoved(TakeTurn(c, s, env), d)
  {
    AdvanceFields(c, s.machine, env);
    if d.syspath in s.machine.mon.seen {
      ReadForgets(s.machine.mon, s.past, d.syspath);
    }
  }

  lemma BaselineKeyed(past: Past, roots: seq<Path>, p: Path)
    requires past.Valid() && p in past.Baseline(roots)
    ensures past.Baseline(roots)[p].syspath == p
  {
    HostKeyed(past.history[..past.scan], p);
  }

  lemma AccountedStep(c: Config, s: System, step: Step)
    requires OnTrack(s) && Accounted(s)
    requires step.HostEvent? ==> Enabled(Host(s.past.history), step.e)
    requires !Apply(c, s, step).machine.phase.Ended?
    ensures Accounted(Apply(c, s, step))
  {
    var t := Apply(c, s, step);
    StepKeeps(c, s, step);
    assert t.past.history[..s.past.scan] == s.past.history[..s.past.scan];
    if step.Turn? {
      var roots := s.machine.mon.roots;
      forall p | p in s.past.Baseline(roots)
        ensures KeptOrRemoved(t, s.past.Baseline(roots)[p]) && s.past.Baseline(roots)[p].syspath == p
      {
        BaselineKeyed(s.past, roots, p);
        NextForgets(c, s, step.env, s.past.Baseline(roots)[p]);
      }
    }
  }

  /** The device's permission is granted and its files are in place. */
  ghost predicate Openable(c: Config, plant: Plant, d: Device) {
    && d.node.Some?
    && KeyOf(d.node.value) in plant.perms && plant.perms[KeyOf(d.node.value)] == ALL
    && forall q | InFootprint(c.rules, d, q) :: FileAt(plant.files, q) == Some(Own(c, d, q))
  }

  /** It is attached as well. */
  ghost predicate Usable(c: Config, plant: Plant, d: Device) {
    Openable(c, plant, d) && IsAttachedAs(plant, d)
  }

  /** Exactly when an attached device is usable, without any assumption about the host: its number was last
    added, and each of its paths was last written with its own node or symlink. */
  lemma UsableIff(c: Config, s: System, files: Files, p: Path)
    requires Permitted(c, s) && Written(c, files, s) && !s.machine.phase.Ended?
    requires p in s.machine.plant.devices
    ensures var d := s.machine.plant.devices[p].device;
            && d.node.Some?
            && (Usable(c, s.machine.plant, d) <==>
                  && LastAdded(s.log, KeyOf(d.node.value))
                  && forall q | InFootprint(c.rules, d, q) :: Content(c, files, s.log, q) == Some(Own(c, d, q)))
  {
    assert p in Holding(s) && Holding(s)[p].syspath == p;
  }

  lemma HeldIsUsable(c: Config, s: System, p: Path)
    requires Permits(c, s) && Owns(c, s) && !s.machine.phase.Ended?
    requires p in Holding(s) && Holding(s)[p].node.Some?
    ensures Usable(c, s.machine.plant, Holding(s)[p])
  {
    assert Holding(s)[p].node.value in NodesOf(Holding(s));
  }

  /** A turn that detaches a device leaves every other attached device usable: its permission and its
    files are the same before and after. */
  lemma DetachIsLocal(c: Config, s: System, env: Env, p: Path)
    requires Permits(c, s) && Owns(c, s)
    requires Assumes(s.past, s.machine.mon.roots, DistinctNumbers())
    requires Assumes(s.past, s.machine.mon.roots, Apart(c.rules))
    requires Advance(c, s.machine, env).1.Yield? && Advance(c, s.machine, env).1.event.Detach?
    requires p in s.machine.plant.devices
    requires p != Advance(c, s.machine, env).1.event.dev.device.syspath
    ensures Usable(c, s.machine.plant, s.machine.plant.devices[p].device)
    ensures Usable(c, Advance(c, s.machine, env).0.plant, s.machine.plant.devices[p].device)
  {
    DetachKeepsOthers(c, s, env, p);
    var t := Apply(c, s, Turn(env));
    PermitsStep(c, s, Turn(env));
    OwnsStep(c, s, Turn(env));
    HeldIsUsable(c, s, p);
    HeldIsUsable(c, t, p);
  }

  lemma DetachKeepsOthers(c: Config, s: System, env: Env, p: Path)
    requires Refines(c, s)
    requires Advance(c, s.machine, env).1.Yield? && Advance(c, s.machine, env).1.event.Detach?
    requires p in s.machine.plant.devices
    requires p != Advance(c, s.machine, env).1.event.dev.device.syspath
    ensures !s.machine.phase.Ended? && !TakeTurn(c, s, env).machine.phase.Ended?
    ensures p in Holding(s) && p in Holding(TakeTurn(c, s, env))
    ensures Holding(TakeTurn(c, s, env))[p] == Holding(s)[p] == s.machine.plant.devices[p].device
  {
    NextTracks(s.machine, s.past);
    AdvanceFields(c, s.machine, env);
    AttachesStep(c, Holding(s), s.machine.plant, Next(s.machine).1.value, env);
  }

  /** When the stream reports that the container is initialised, every device with a node that was found at
    start-up is attached, unless its removal has been processed. */
  lemma StartupDevicesAttached(c: Config, s: System, env: Env, p: Path)
    requires Refines(c, s) && Accounted(s)
    requires Advance(c, s.machine, env).1 == Yield(Initialized)
    requires p in s.past.Baseline(s.machine.mon.roots)
    requires s.past.Baseline(s.machine.mon.roots)[p].node.Some?
    ensures var d := s.past.Baseline(s.machine.mon.roots)[p];
            (p in Holding(s) && Holding(s)[p] == d && IsAttachedAs(Advance(c, s.machine, env).0.plant, d))
            || Remove(d) in s.log
  {
    var d := s.past.Baseline(s.machine.mon.roots)[p];
    InitializedIsExact(c, s, env);
    InitializedLeavesAll(c, s, env);
    if Remove(d) !in s.log {
      ReadForgets(s.machine.mon, s.past, p);
      BaselineKeyed(s.past, s.machine.mon.roots, p);
    }
  }

  predicate IsAttachedAs(plant: Plant, d: Device) {
    d.syspath in plant.devices && plant.devices[d.syspath].device == d
  }

  /** Devices before the entrypoint: with numbers and paths not shared it is usable as well, whatever was in
    `/dev` before. */
  lemma StartupDevicesReady(c: Config, s: System, env: Env, p: Path)
    requires Permits(c, s) && Owns(c, s) && Accounted(s)
    requires Advance(c, s.machine, env).1 == Yield(Initialized)
    requires p in s.past.Baseline(s.machine.mon.roots)
    requires s.past.Baseline(s.machine.mon.roots)[p].node.Some?
    ensures var d := s.past.Baseline(s.machine.mon.roots)[p];
            Usable(c, Advance(c, s.machine, env).0.plant, d) || Remove(d) in s.log
  {
    StartupDevicesAttached(c, s, env, p);
    InitializedIsExact(c, s, env);
    InitializedLeavesAll(c, s, env);
    if p in Holding(s) && Holding(s)[p].node.Some? {
      HeldIsUsable(c, s, p);
    }
  }

  lemma InitializedLeavesAll(c: Config, s: System, env: Env)
    requires Refines(c, s)
    requires Advance(c, s.machine, env).1 == Yield(Initialized)
    ensures Read(s.machine.mon).1 == None
    ensures Advance(c, s.machine, env).0.plant == s.machine.plant
    ensures Holding(s) == Read(s.machine.mon).0.seen
  {
    InitializedIsExact(c, s, env);
    NextTracks(s.machine, s.past);
    AdvanceFields(c, s.machine, env);
    if Next(s.machine).1.Some? {
      AttachesStep(c, Holding(s), s.machine.plant, Next(s.machine).1.value, env);
    }
  }

  lemma {:induction false} RunAccounted(c: Config, s: System, steps: seq<Step>)
    requires OnTrack(s) && Accounted(s) && Possible(c, s, steps)
    requires !Run(c, s, steps).machine.phase.Ended?
    ensures Accounted(Run(c, s, steps))
    decreases |steps|
  {
    if steps != [] {
      var init, step := steps[..|steps| - 1], steps[|steps| - 1];
      if Run(c, s, init).machine.phase.Ended? {
        EndedStays(c, Run(c, s, init), step);
      }
      RunAccounted(c, s, init);
      RunOnTrack(c, s, init);
      AccountedStep(c, Run(c, s, init), step);
    }
  }

  /** For all runs from the start, whatever the host does: at the moment of initialisation the attached devices
    are exactly the host's present ones below the roots that have a node, and every start-up device with a
    node is attached or was removed since. */
  lemma RunAttaches(c: Config, s: System, steps: seq<Step>, scan: seq<Device>, files: Files,
                    mounts: Mounts.Mount, env: Env)
    requires Initial(s, scan, files, mounts) && Possible(c, s, steps)
    requires Advance(c, Run(c, s, steps).machine, env).1 == Yield(Initialized)
    ensures var t := Run(c, s, steps);
            var m := Advance(c, t.machine, env).0;
            && m.mon.enumerated == []
            && IsAttachedOf(c.rules, Restrict(Host(t.past.history), s.machine.mon.roots), m.plant.devices)
            && Serves(s.machine.mon.roots, Host(t.past.history), m.plant.devices)
            && forall d | d in scan && Below(s.machine.mon.roots, d.syspath) && d.node.Some? ::
                 IsAttachedAs(m.plant, d) || Remove(d) in t.log
  {
    var t := Run(c, s, steps);
    RunReady(c, s, steps, scan, files, mounts, env);
    InitializedIsExact(c, t, env);
    AttachedServes(c.rules, s.machine.mon.roots, Host(t.past.history), Advance(c, t.machine, env).0.plant.devices);
    forall d | d in scan && Below(s.machine.mon.roots, d.syspath) && d.node.Some?
      ensures IsAttachedAs(Advance(c, t.machine, env).0.plant, d) || Remove(d) in t.log
    {
      StartupDevicesAttached(c, t, env, d.syspath);
    }
  }

  /** If, besides, numbers and paths are not shared, every such device is usable or was removed since, whatever
    was in `/dev` before. */
  lemma RunInitializes(c: Config, s: System, steps: seq<Step>, scan: seq<Device>, files: Files,
                       mounts: Mounts.Mount, env: Env)
    requires Initial(s, scan, files, mounts) && Possible(c, s, steps)
    requires Assumes(Run(c, s, steps).past, s.machine.mon.roots, DistinctNumbers())
    requires Assumes(Run(c, s, steps).past, s.machine.mon.roots, Apart(c.rules))
    requires Advance(c, Run(c, s, steps).machine, env).1 == Yield(Initialized)
    ensures var t := Run(c, s, steps);
            var plant := Advance(c, t.machine, env).0.plant;
            && IsAttachedOf(c.rules, Restrict(Host(t.past.history), s.machine.mon.roots), plant.devices)
            && forall d | d in scan && Below(s.machine.mon.roots, d.syspath) && d.node.Some? ::
                 Usable(c, plant, d) || Remove(d) in t.log
  {
    var t := Run(c, s, steps);
    RunReady(c, s, steps, scan, files, mounts, env);
    InitialPermits(c, s, scan, files, mounts);
    RunPermits(c, s, steps);
    InitialFiles(c, s, scan, files, mounts);
    RunOwns(c, s, steps);
    InitializedIsExact(c, t, env);
    forall d | d in scan && Below(s.machine.mon.roots, d.syspath) && d.node.Some?
      ensures Usable(c, Advance(c, t.machine, env).0.plant, d) || Remove(d) in t.log
    {
      StartupDevicesReady(c, t, env, d.syspath);
    }
  }

  lemma RunReady(c: Config, s: System, steps: seq<Step>, scan: seq<Device>, files: Files,
                 mounts: Mounts.Mount, env: Env)
    requires Initial(s, scan, files, mounts) && Possible(c, s, steps)
    requires Advance(c, Run(c, s, steps).machine, env).1 == Yield(Initialized)
    ensures var t := Run(c, s, steps);
            && Refines(c, t) && Accounted(t)
            && t.machine.mon.roots == s.machine.mon.roots
            && Advance(c, t.machine, env).0.mon.roots == s.machine.mon.roots
            && forall d | d in scan && Below(s.machine.mon.roots, d.syspath) ::
                 d.syspath in t.past.Baseline(t.machine.mon.roots) &&
                 t.past.Baseline(t.machine.mon.roots)[d.syspath] == d
  {
    var t := Run(c, s, steps);
    InitialRefines(c, s, scan, files, mounts);
    RunRefines(c, s, steps);
    RunOnTrack(c, s, steps);
    InitializedIsExact(c, t, env);
    InitialAccounted(s, scan, files, mounts);
    RunAccounted(c, s, steps);
    AdvanceRoots(c, t, env);
    ScannedIsBaseline(s, scan, files, mounts, t.past);
  }

  lemma AdvanceRoots(c: Config, s: System, env: Env)
    requires OnTrack(s)
    ensures Advance(c, s.machine, env).0.mon.roots == s.machine.mon.roots
  {
    NextTracks(s.machine, s.past);
    AdvanceFields(c, s.machine, env);
  }

  lemma ScannedIsBaseline(s: System, scan: seq<Device>, files: Files, mounts: Mounts.Mount, past: Past)
    requires Initial(s, scan, files, mounts) && past.Valid() && Extends(s.past, past)
    ensures forall d | d in scan && Below(s.machine.mon.roots, d.syspath) ::
              d.syspath in past.Baseline(s.machine.mon.roots) &&
              past.Baseline(s.machine.mon.roots)[d.syspath] == d
  {
    assert s.past.history == past.history[..past.scan];
  }

  lemma InitialAccounted(s: System, scan: seq<Device>, files: Files, mounts: Mounts.Mount)
    requires Initial(s, scan, files, mounts)
    ensures Accounted(s)
  {
    StartTracks(s.machine.mon.roots, scan, s.past.history, s.past.listen);
    assert s.past.history[..s.past.scan] == s.past.history;
  }

  // ----- The grammar of the stream -----

  predicate OnlyDevices(out: seq<Event>) {
    forall i | 0 <= i < |out| :: out[i].Attach? || out[i].Detach?
  }

  /** Device events, then one `Initialized`, then device events. */
  predicate InitializedAt(out: seq<Event>, k: nat) {
    k < |out| && OnlyDevices(out[..k]) && out[k] == Initialized && OnlyDevices(out[k + 1..])
  }

  ghost predicate Grammatical(s: System) {
    match s.machine.phase
    case Draining => OnlyDevices(s.out)
    case Following => exists k: nat :: InitializedAt(s.out, k)
    case Ended => OnlyDevices(s.out) || exists k: nat :: InitializedAt(s.out, k)
  }

  lemma AdvanceYields(c: Config, m: Machine, env: Env)
    requires Advance(c, m, env).1.Yield?
    ensures var (m', outcome) := Advance(c, m, env);
            if outcome.event == Initialized then m.phase.Draining? && m'.phase.Following?
            else (outcome.event.Attach? || outcome.event.Detach?) && m'.phase == m.phase && !m.phase.Ended?
  {
  }

  lemma MoreDevices(out: seq<Event>, event: Event)
    requires event.Attach? || event.Detach?
    ensures OnlyDevices(out) ==> OnlyDevices(out + [event])
    ensures forall k: nat | InitializedAt(out, k) :: InitializedAt(out + [event], k)
  {
    forall k: nat | InitializedAt(out, k) ensures InitializedAt(out + [event], k) {
      assert (out + [event])[..k] == out[..k];
      assert (out + [event])[k + 1..] == out[k + 1..] + [event];
    }
  }

  lemma GrammaticalStep(c: Config, s: System, step: Step)
    requires Grammatical(s)
    ensures Grammatical(Apply(c, s, step))
  {
    if step.Turn? {
      var (m', outcome) := Advance(c, s.machine, step.env);
      if outcome.Yield? {
        AdvanceYields(c, s.machine, step.env);
        if outcome.event == Initialized {
          assert InitializedAt(s.out + [Initialized], |s.out|);
        } else {
          MoreDevices(s.out, outcome.event);
        }
      }
    }
  }

  /** Every run yields device events, one `Initialized`, and device events again; `Stopped` never. */
  lemma {:induction false} RunGrammatical(c: Config, s: System, steps: seq<Step>)
    requires Grammatical(s)
    ensures Grammatical(Run(c, s, steps))
    decreases |steps|
  {
    if steps != [] {
      RunGrammatical(c, s, steps[..|steps| - 1]);
      GrammaticalStep(c, Run(c, s, steps[..|steps| - 1]), steps[|steps| - 1]);
    }
  }

  /** The stream never ends but by an error. */
  lemma StreamNeverEnds(c: Config, m: Machine, env: Env)
    ensures !Advance(c, m, env).1.Over?
    ensures Advance(c, m, env).0.phase.Ended? ==> m.phase.Ended? || Advance(c, m, env).1.Failed?
  {
    AdvanceFields(c, m, env);
  }

  // ----- Messages -----

  /** The device events of a stream. */
  function Reported(out: seq<Event>): seq<Event> {
    if out == [] then []
    else
      var last := out[|out| - 1];
      Reported(out[..|out| - 1]) + if last.Attach? || last.Detach? then [last] else []
  }

  /** The message that announces a device event. */
  function MessageOf(event: Event, number: nat): Bytes {
    match event
    case Attach(dev) => Message(Ascii("add"), number, dev.device)
    case Detach(dev) => Message(Ascii("remove"), number, dev.device)
    case Initialized => []
    case Stopped => []
  }

  /** The messages are those of the events, in order, numbered 1, 2, 3, ... */
  ghost predicate InOrder(sent: seq<Bytes>, reported: seq<Event>) {
    && |sent| == |reported|
    && forall i | 0 <= i < |sent| :: sent[i] == MessageOf(reported[i], (i + 1) % 0x1_0000_0000_0000_0000)
  }

  /** What was sent announces the device events yielded. */
  ghost predicate Announces(s: System) {
    && InOrder(s.machine.plant.sent, Reported(s.out))
    && (!s.machine.phase.Ended? ==> s.machine.plant.number == |s.machine.plant.sent| % U64_LIMIT)
  }

  lemma InOrderMore(sent: seq<Bytes>, reported: seq<Event>, event: Event, message: Bytes)
    requires InOrder(sent, reported) && message == MessageOf(event, (|sent| + 1) % U64_LIMIT)
    ensures InOrder(sent + [message], reported + [event])
  {
    forall i | 0 <= i < |sent|
      ensures (sent + [message])[i] == MessageOf((reported + [event])[i], (i + 1) % U64_LIMIT)
    {
      assert (sent + [message])[i] == sent[i] && (reported + [event])[i] == reported[i];
    }
  }

  lemma NextAfter(n: nat)
    ensures NextNumber(n % U64_LIMIT) == (n + 1) % U64_LIMIT
  {
  }

  /** An event sends the message of what it yields, with the next number, or nothing at all. */
  lemma ProcessAnnounces(c: Config, s: Plant, e: DeviceEvent, env: Env)
    ensures var (t, r) := Process(c, s, e, env);
            if r.Ok? && r.value.Some?
            then && (r.value.value.Attach? || r.value.value.Detach?)
                 && t.number == NextNumber(s.number)
                 && t.sent == s.sent + [MessageOf(r.value.value, t.number)]
            else t.sent == s.sent && (r.Ok? ==> t.number == s.number)
  {
    if Process(c, s, e, env).1.Err? {
      FailureSendsNothing(c, s, e, env);
    } else if (e.Add? && e.dev.node.None?) || (e.Remove? && e.dev.syspath !in s.devices) {
      Ignored(c, s, e, env);
    } else if e.Add? {
      AddedFields(c, s, e.dev, env);
    } else {
      RemovedFields(s, e.dev.syspath, env);
    }
  }

  lemma OneMoreSent(s: System, t: System, sent: seq<Bytes>, reported: seq<Event>, event: Event, message: Bytes)
    requires Announces(s) && !s.machine.phase.Ended?
    requires sent == s.machine.plant.sent && reported == Reported(s.out)
    requires t.machine.plant.number == NextNumber(s.machine.plant.number)
    requires message == MessageOf(event, t.machine.plant.number)
    requires t.machine.plant.sent == sent + [message] && Reported(t.out) == reported + [event]
    ensures Announces(t)
  {
    NextAfter(|sent|);
    InOrderMore(sent, reported, event, message);
  }

  lemma AnnouncesStep(c: Config, s: System, env: Env)
    requires Announces(s)
    ensures Announces(TakeTurn(c, s, env))
  {
    var t := TakeTurn(c, s, env);
    if Next(s.machine).1.Some? {
      TurnAnnounces(c, s, env);
      if t.out != s.out {
        var event := t.out[|t.out| - 1];
        OneMoreSent(s, t, s.machine.plant.sent, Reported(s.out), event, MessageOf(event, t.machine.plant.number));
      }
    } else {
      IdleTurn(c, s, env);
    }
  }

  lemma IdleTurn(c: Config, s: System, env: Env)
    requires Next(s.machine).1.None?
    ensures var t := TakeTurn(c, s, env);
            && t.machine.plant == s.machine.plant && (t.machine.phase.Ended? <==> s.machine.phase.Ended?)
            && Reported(t.out) == Reported(s.out)
  {
    AdvanceFields(c, s.machine, env);
    var t := TakeTurn(c, s, env);
    if t.out != s.out {
      assert t.out[..|t.out| - 1] == s.out;
    }
  }

  /** A turn that takes an event does what processing it does, and yields what that reports. */
  lemma TurnProcesses(c: Config, s: System, env: Env)
    requires Next(s.machine).1.Some?
    ensures !s.machine.phase.Ended?
    ensures var t := TakeTurn(c, s, env);
            var (plant, r) := Process(c, s.machine.plant, Next(s.machine).1.value, env);
            && t.machine.plant == plant
            && (t.machine.phase.Ended? <==> r.Err?)
            && t.out == if r.Ok? && r.value.Some? then s.out + [r.value.value] else s.out
  {
  }

  lemma ReportedMore(out: seq<Event>, event: Event)
    requires event.Attach? || event.Detach?
    ensures Reported(out + [event]) == Reported(out) + [event]
  {
    assert (out + [event])[..|out|] == out;
  }

  lemma TurnAnnounces(c: Config, s: System, env: Env)
    requires Next(s.machine).1.Some?
    ensures var t := TakeTurn(c, s, env);
            && !s.machine.phase.Ended?
            && if t.out == s.out
               then t.machine.plant.sent == s.machine.plant.sent &&
                    (!t.machine.phase.Ended? ==> t.machine.plant.number == s.machine.plant.number)
               else && Reported(t.out) == Reported(s.out) + [t.out[|t.out| - 1]]
                    && t.machine.plant.number == NextNumber(s.machine.plant.number)
                    && t.machine.plant.sent
                       == s.machine.plant.sent + [MessageOf(t.out[|t.out| - 1], t.machine.plant.number)]
  {
    TurnProcesses(c, s, env);
    ProcessAnnounces(c, s.machine.plant, Next(s.machine).1.value, env);
    var r := Process(c, s.machine.plant, Next(s.machine).1.value, env).1;
    if r.Ok? && r.value.Some? {
      ReportedMore(s.out, r.value.value);
    }
  }

  lemma FailureSendsNothing(c: Config, s: Plant, e: DeviceEvent, env: Env)
    requires Process(c, s, e, env).1.Err?
    ensures Process(c, s, e, env).0.sent == s.sent
  {
  }

  /** In every run the messages sent are, in order, those of the devices attached and detached, each with its
    action and its device, numbered from 1 without gaps as long as the numbers fit in 64 bits. */
  lemma {:induction false} RunAnnounces(c: Config, s: System, steps: seq<Step>)
    requires Announces(s)
    ensures Announces(Run(c, s, steps))
    decreases |steps|
  {
    if steps != [] {
      var before := Run(c, s, steps[..|steps| - 1]);
      RunAnnounces(c, s, steps[..|steps| - 1]);
      if steps[|steps| - 1].Turn? {
        AnnouncesStep(c, before, steps[|steps| - 1].env);
      }
    }
  }

  /** When the message of an addition is about to be sent, the device may be opened and its files are in place,
    whether or not the message is accepted: the number has gone up, so sending has been tried. */
  lemma AnnouncedWhenUsable(c: Config, s: Plant, d: Device, env: Env)
    requires SelfApart(c.rules, d)
    requires AddDevice(c, s, d, env).0.number != s.number
    ensures Openable(c, AddDevice(c, s, d, env).0, d)
    ensures AddDevice(c, s, d, env).1.Ok? ==> Usable(c, AddDevice(c, s, d, env).0, d)
  {
    SendingState(c, s, d, env);
    forall q | InFootprint(c.rules, d, q)
      ensures FileAt(AddDevice(c, s, d, env).0.files, q) == Some(Own(c, d, q))
    {
      AddFilesAt(c, s.files, d, env, q);
    }
  }

  /** Sending comes after everything that can fail. */
  lemma SendingState(c: Config, s: Plant, d: Device, env: Env)
    requires AddDevice(c, s, d, env).0.number != s.number
    ensures d.node.Some? && AddFiles(c, s.files, d, d.node.value, env).1.Ok?
    ensures var (t, r) := AddDevice(c, s, d, env);
            && t.files == AddFiles(c, s.files, d, d.node.value, env).0
            && t.perms == s.perms[KeyOf(d.node.value) := ALL]
            && (r.Ok? ==> d.syspath in t.devices && t.devices[d.syspath].device == d)
  {
  }
}
