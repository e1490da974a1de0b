/** Writable sysfs over whole runs, with no assumption on the host or on the order of its events: which list
  of binds the mounts amount to, and exactly when they stay in step with the bound directories. */
module SysfsRuns {
  import opened Devices
  import opened Monitor
  import opened ContainerState
  import opened Controller
  import opened Effects
  import opened Pipeline
  import opened Sysfs
  import Mounts

  // ----- The list of binds -----

  /** The list after a step, given the list before. */
  function StepOrder(c: Config, s: System, step: Step, order: seq<Path>): seq<Path> {
    var e := Next(s.machine).1;
    if step.Turn? && e.Some?
    then NextOrder(order, s.machine.plant, Apply(c, s, step).machine.plant, e.value.dev.syspath)
    else order
  }

  /** The list after a run. */
  function Order(c: Config, s: System, steps: seq<Step>): seq<Path> {
    if steps == [] then []
    else
      var init := steps[..|steps| - 1];
      StepOrder(c, Run(c, s, init), steps[|steps| - 1], Order(c, s, init))
  }

  /** A step binds or detaches at most the directory of the device whose event it takes, which lies below the
    roots. */
  lemma StepChanges(c: Config, s: System, step: Step)
    requires Refines(c, s) && !Apply(c, s, step).machine.phase.Ended?
    ensures var e := Next(s.machine).1;
            var s', t' := s.machine.plant, Apply(c, s, step).machine.plant;
            if step.Turn? && e.Some?
            then Changes(s', t', e.value.dev.syspath) && Below(s.machine.mon.roots, e.value.dev.syspath)
            else t'.mounts == s'.mounts && t'.bound == s'.bound
  {
    if step.Turn? {
      NextTracks(s.machine, s.past);
      AdvanceFields(c, s.machine, step.env);
      var (mon, e) := Next(s.machine);
      if e.Some? {
        EventChanges(c, Holding(s), s.machine.plant, e.value, step.env);
        TakenBelow(s.machine, s.past);
      }
    }
  }

  lemma TakenBelow(m: Machine, past: Past)
    requires Tracks(m.mon, past) && Next(m).1.Some?
    ensures Below(m.mon.roots, Next(m).1.value.dev.syspath)
  {
    var (mon, e) := Next(m);
    NextTracks(m, past);
    SeenKeyed(m.mon, past);
    SeenKeyed(mon, Onward(past, mon));
    if e.value.Add? {
      assert e.value.dev.syspath in Delivered(mon);
    } else {
      assert e.value.dev.syspath in Delivered(m.mon);
    }
  }

  // ----- Which devices are bound -----

  /** Whether the last event about `p` was an addition for which the option was set and the bind worked. */
  predicate LastBound(c: Config, s: System, steps: seq<Step>, p: Path) {
    steps != [] &&
    var init, step := steps[..|steps| - 1], steps[|steps| - 1];
    var e := Next(Run(c, s, init).machine).1;
    if step.Turn? && e.Some? && e.value.dev.syspath == p then e.value.Add? && c.sysfs && step.env.bind
    else LastBound(c, s, init, p)
  }

  lemma EventBinds(c: Config, held: Registry, s: Plant, e: DeviceEvent, env: Env, p: Path)
    requires Attaches(c.rules, held, s) && Fits(held, e) && Process(c, s, e, env).1.Ok?
    ensures var t := Process(c, s, e, env).0;
            if p == e.dev.syspath then p in t.bound <==> p in t.devices && e.Add? && c.sysfs && env.bind
            else (p in t.bound <==> p in s.bound) && (p in t.devices <==> p in s.devices)
  {
    if e.dev.node.None? {
      assert e.dev.syspath !in s.devices;
      Ignored(c, s, e, env);
    } else if e.Add? {
      AddedFields(c, s, e.dev, env);
    } else {
      RemovedFields(s, e.dev.syspath, env);
    }
  }

  /** In every run from the start that has not failed, the bound devices are exactly the attached ones for which
    the option was set and the bind worked when they were added. */
  lemma {:induction false} RunBinds(c: Config, s: System, steps: seq<Step>, p: Path)
    requires Refines(c, s) && s.machine.plant.bound == {}
    requires Possible(c, s, steps) && !Run(c, s, steps).machine.phase.Ended?
    ensures var plant := Run(c, s, steps).machine.plant;
            p in plant.bound <==> p in plant.devices && LastBound(c, s, steps, p)
    decreases |steps|
  {
    if steps != [] {
      var init, step := steps[..|steps| - 1], steps[|steps| - 1];
      StillRunning(c, s, steps);
      RunBinds(c, s, init, p);
      RunRefines(c, s, init);
      var before := Run(c, s, init);
      if step.Turn? {
        NextTracks(before.machine, before.past);
        AdvanceFields(c, before.machine, step.env);
        var e := Next(before.machine).1;
        if e.Some? {
          EventBinds(c, Holding(before), before.machine.plant, e.value, step.env, p);
        }
      }
    }
  }

  lemma EventLeavesSysfs(c: Config, s: Plant, e: DeviceEvent, env: Env)
    requires !c.sysfs && s.bound == {}
    ensures Process(c, s, e, env).0.bound == {} && Process(c, s, e, env).0.mounts == s.mounts
  {
  }

  /** Writable sysfs is opt-in: without the option no run, failed or not, touches a mount. */
  lemma {:induction false} RunLeavesSysfs(c: Config, s: System, steps: seq<Step>)
    requires !c.sysfs && s.machine.plant.bound == {}
    ensures Run(c, s, steps).machine.plant.bound == {}
    ensures Run(c, s, steps).machine.plant.mounts == s.machine.plant.mounts
    decreases |steps|
  {
    if steps != [] {
      RunLeavesSysfs(c, s, steps[..|steps| - 1]);
      var before, step := Run(c, s, steps[..|steps| - 1]), steps[|steps| - 1];
      if step.Turn? {
        AdvanceFields(c, before.machine, step.env);
        var e := Next(before.machine).1;
        if e.Some? {
          EventLeavesSysfs(c, before.machine.plant, e.value, step.env);
        }
      }
    }
  }

  /** The original mounts have none of their own at a directory below the roots. */
  ghost predicate Clear(base: Mounts.Mount, roots: seq<Path>) {
    forall p | Below(roots, p) :: !Mounts.MountedAt(base, p)
  }

  predicate AllBelow(order: seq<Path>, bound: set<Path>, roots: seq<Path>) {
    (forall p | p in order :: Below(roots, p)) && (forall p | p in bound :: Below(roots, p))
  }

  /** The mounts after a step are those of the list, and everything listed or bound lies below the roots. */
  ghost predicate Listed(c: Config, base: Mounts.Mount, s: System, order: seq<Path>) {
    && s.machine.plant.mounts == Mounts.BindAll(base, order)
    && AllBelow(order, s.machine.plant.bound, s.machine.mon.roots)
  }

  lemma ListedStep(c: Config, base: Mounts.Mount, s: System, step: Step, order: seq<Path>)
    requires Refines(c, s) && Listed(c, base, s, order) && Clear(base, s.machine.mon.roots)
    requires step.HostEvent? ==> Enabled(Host(s.past.history), step.e)
    requires !Apply(c, s, step).machine.phase.Ended?
    ensures Listed(c, base, Apply(c, s, step), StepOrder(c, s, step, order))
  {
    StepChanges(c, s, step);
    StepKeeps(c, s, step);
    var e := Next(s.machine).1;
    if step.Turn? && e.Some? {
      OrderFollows(base, order, s.machine.plant, Apply(c, s, step).machine.plant, e.value.dev.syspath);
      Mounts.DroppedWithin(order, e.value.dev.syspath);
    }
  }

  /** In every run that has not failed, whatever the host does and whichever binds fail: the mounts are the
    original ones with the list of binds on top. */
  lemma {:induction false} RunListed(c: Config, base: Mounts.Mount, s: System, steps: seq<Step>)
    requires Refines(c, s) && Listed(c, base, s, []) && Clear(base, s.machine.mon.roots)
    requires Possible(c, s, steps) && !Run(c, s, steps).machine.phase.Ended?
    ensures Listed(c, base, Run(c, s, steps), Order(c, s, steps))
    decreases |steps|
  {
    if steps != [] {
      var init, step := steps[..|steps| - 1], steps[|steps| - 1];
      StillRunning(c, s, steps);
      RunListed(c, base, s, init);
      RunRefines(c, s, init);
      RunOnTrack(c, s, init);
      ListedStep(c, base, Run(c, s, init), step, Order(c, s, init));
    }
  }

  lemma StillRunning(c: Config, s: System, steps: seq<Step>)
    requires steps != [] && !Run(c, s, steps).machine.phase.Ended?
    ensures !Run(c, s, steps[..|steps| - 1]).machine.phase.Ended?
  {
    var before := Run(c, s, steps[..|steps| - 1]);
    if before.machine.phase.Ended? {
      EndedStays(c, before, steps[|steps| - 1]);
    }
  }

  /** The list covers the bound directories, and the other way round. */
  predicate Matching(order: seq<Path>, bound: set<Path>) {
    && (forall b | b in bound :: Mounts.Covered(order, b))
    && (forall b | b in order :: CoveredBySet(bound, b))
  }

  ghost predicate ReadOnly(base: Mounts.Mount, roots: seq<Path>) {
    forall p | Below(roots, p) :: !Mounts.Writable(base, p)
  }

  lemma ListedExactIff(c: Config, base: Mounts.Mount, s: System, order: seq<Path>)
    requires Listed(c, base, s, order) && ReadOnly(base, s.machine.mon.roots)
    ensures Exact(base, s.machine.plant) <==> Matching(order, s.machine.plant.bound)
  {
    var plant := s.machine.plant;
    forall q ensures Mounts.Writable(plant.mounts, q) <==> Mounts.Writable(base, q) || Mounts.Covered(order, q) {
      Mounts.BindAllWritable(base, order, q);
    }
    if Matching(order, plant.bound) {
      forall q ensures Mounts.Covered(order, q) <==> CoveredBySet(plant.bound, q) {
        MatchingCovers(order, plant.bound, q);
      }
    } else if b :| b in plant.bound && !Mounts.Covered(order, b) {
      assert b <= b && CoveredBySet(plant.bound, b);
    } else {
      var b :| b in order && !CoveredBySet(plant.bound, b);
      assert b <= b && Mounts.Covered(order, b);
    }
  }

  lemma MatchingCovers(order: seq<Path>, bound: set<Path>, q: Path)
    requires Matching(order, bound)
    ensures Mounts.Covered(order, q) <==> CoveredBySet(bound, q)
  {
    if b :| b in order && b <= q {
      var a :| a in bound && a <= b;
      Mounts.PrefixTransitive(a, b, q);
    }
    if b :| b in bound && b <= q {
      var a :| a in order && a <= b;
      Mounts.PrefixTransitive(a, b, q);
    }
  }

  /** At the end of any run from the start that has not failed, a path is writable exactly when it was so
    originally or lies at or below a bound device, if and only if each bound directory lies at or below a
    listed one and each listed one at or below a bound one. */
  lemma RunExactIff(c: Config, s: System, steps: seq<Step>, scan: seq<Device>, files: Files, base: Mounts.Mount)
    requires Initial(s, scan, files, base) && Possible(c, s, steps)
    requires Clear(base, s.machine.mon.roots) && ReadOnly(base, s.machine.mon.roots)
    requires !Run(c, s, steps).machine.phase.Ended?
    ensures var plant := Run(c, s, steps).machine.plant;
            && plant.mounts == Mounts.BindAll(base, Order(c, s, steps))
            && (Exact(base, plant) <==> Matching(Order(c, s, steps), plant.bound))
  {
    InitialRefines(c, s, scan, files, base);
    RunListed(c, base, s, steps);
    RunOnTrack(c, s, steps);
    ListedExactIff(c, base, Run(c, s, steps), Order(c, s, steps));
  }

  // ----- Runs that bind parents first -----

  /** Every bind of the run comes before those of the directories below. */
  ghost predicate ParentsFirst(c: Config, s: System, steps: seq<Step>) {
    steps == [] ||
    (ParentsFirst(c, s, steps[..|steps| - 1]) &&
     Rising(Run(c, s, steps[..|steps| - 1]).machine.plant, Run(c, s, steps).machine.plant))
  }

  ghost predicate Rising(s: Plant, t: Plant) {
    forall p | p in t.bound && p !in s.bound :: Foremost(s.bound, p)
  }

  /** Whenever the run detaches a device, a bound directory lies strictly above it or no other one below. */
  ghost predicate AlwaysSafe(c: Config, s: System, steps: seq<Step>) {
    steps == [] ||
    (AlwaysSafe(c, s, steps[..|steps| - 1]) &&
     SafeStep(Run(c, s, steps[..|steps| - 1]).machine.plant, Run(c, s, steps).machine.plant))
  }

  ghost predicate SafeStep(s: Plant, t: Plant) {
    forall p | p in s.bound && p !in t.bound :: Safe(s.bound, p)
  }

  ghost predicate AlwaysExact(c: Config, base: Mounts.Mount, s: System, steps: seq<Step>) {
    Exact(base, Run(c, s, steps).machine.plant) &&
    (steps != [] ==> AlwaysExact(c, base, s, steps[..|steps| - 1]))
  }

  /** One change from exact and backed mounts: they stay backed if nothing is bound above a bound directory,
    and exact if and only if what is detached is safe. */
  lemma ChangeExactIff(base: Mounts.Mount, s: Plant, t: Plant, p: Path, order: seq<Path>)
    requires Changes(s, t, p) && Backed(base, s, order) && Exact(base, s) && Rising(s, t)
    requires forall b | b in s.bound :: !Mounts.Writable(base, b)
    ensures Backed(base, t, NextOrder(order, s, t, p))
    ensures Exact(base, t) <==> SafeStep(s, t)
  {
    if p in t.bound && p !in s.bound {
      AdditionExact(base, s, t, p, order);
    } else if p in s.bound && p !in t.bound {
      SparedIffSafe(base, s, order, p);
      DetachExactIff(base, s, t, order, p);
    } else {
      assert t.mounts == s.mounts && t.bound == s.bound;
    }
  }

  lemma BoundBelow(c: Config, s: System, p: Path)
    requires Refines(c, s) && !s.machine.phase.Ended? && p in s.machine.plant.bound
    ensures Below(s.machine.mon.roots, p)
  {
    SeenKeyed(s.machine.mon, s.past);
    assert p in s.machine.plant.devices && p in Holding(s);
  }

  lemma StepExactIff(c: Config, base: Mounts.Mount, s: System, step: Step, order: seq<Path>)
    requires Refines(c, s) && ReadOnly(base, s.machine.mon.roots)
    requires Backed(base, s.machine.plant, order) && Exact(base, s.machine.plant)
    requires !s.machine.phase.Ended? && !Apply(c, s, step).machine.phase.Ended?
    requires Rising(s.machine.plant, Apply(c, s, step).machine.plant)
    ensures Backed(base, Apply(c, s, step).machine.plant, StepOrder(c, s, step, order))
    ensures Exact(base, Apply(c, s, step).machine.plant) <==>
            SafeStep(s.machine.plant, Apply(c, s, step).machine.plant)
  {
    var plant, after := s.machine.plant, Apply(c, s, step).machine.plant;
    StepChanges(c, s, step);
    forall b | b in plant.bound ensures !Mounts.Writable(base, b) {
      BoundBelow(c, s, b);
    }
    var e := Next(s.machine).1;
    if step.Turn? && e.Some? {
      ChangeExactIff(base, plant, after, e.value.dev.syspath, order);
    }
  }

  lemma {:induction false} RunExact(c: Config, base: Mounts.Mount, s: System, steps: seq<Step>)
    requires Refines(c, s) && Possible(c, s, steps) && ReadOnly(base, s.machine.mon.roots)
    requires Backed(base, s.machine.plant, []) && Exact(base, s.machine.plant)
    requires !Run(c, s, steps).machine.phase.Ended? && ParentsFirst(c, s, steps)
    ensures AlwaysExact(c, base, s, steps) <==> AlwaysSafe(c, s, steps)
    ensures AlwaysExact(c, base, s, steps) ==> Backed(base, Run(c, s, steps).machine.plant, Order(c, s, steps))
    decreases |steps|
  {
    if steps != [] {
      var init, step := steps[..|steps| - 1], steps[|steps| - 1];
      StillRunning(c, s, steps);
      RunExact(c, base, s, init);
      RunRefines(c, s, init);
      RunOnTrack(c, s, init);
      if AlwaysExact(c, base, s, init) {
        StepExactIff(c, base, Run(c, s, init), step, Order(c, s, init));
      }
    }
  }

  /** In any run from the start that has not failed and binds parents first, where the original mounts are
    read-only below the roots: writability was exact all along if and only if, whenever a device was detached,
    a bound directory lay strictly above it or no other one below it. And then the original mounts are back
    once nothing is bound. */
  lemma RunAlwaysExactIff(c: Config, s: System, steps: seq<Step>, scan: seq<Device>, files: Files,
                          base: Mounts.Mount)
    requires Initial(s, scan, files, base) && Possible(c, s, steps) && ReadOnly(base, s.machine.mon.roots)
    requires !Run(c, s, steps).machine.phase.Ended? && ParentsFirst(c, s, steps)
    ensures AlwaysExact(c, base, s, steps) <==> AlwaysSafe(c, s, steps)
    ensures AlwaysSafe(c, s, steps) && Run(c, s, steps).machine.plant.bound == {} ==>
              Run(c, s, steps).machine.plant.mounts == base
  {
    InitialRefines(c, s, scan, files, base);
    assert Arranged(base, s.machine.plant, []);
    SysfsExact(base, s.machine.plant);
    RunExact(c, base, s, steps);
    if AlwaysSafe(c, s, steps) {
      NothingBacked(base, Run(c, s, steps).machine.plant, Order(c, s, steps));
    }
  }
}
