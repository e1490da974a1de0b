/** The whole pipeline as one state machine: the host changes, the controller's stream takes turns, in any
  interleaving. Every property here is about all runs. */
module Pipeline {
  import opened Devices
  import opened Monitor
  import opened DeviceFilter
  import opened ContainerState
  import opened Controller
  import opened Effects
  import Mounts

  // ----- Runs -----

  /** A step of a run: the host reports an event, or the stream takes a turn. */
  datatype Step = HostEvent(e: UdevEvent) | Turn(env: Env)

  /** The machine with what happened so far: `log` holds the monitor's events whose processing succeeded,
    `out` what the stream yielded. */
  datatype System = System(past: Past, machine: Machine, log: seq<DeviceEvent>, out: seq<Event>)

  /** The past once the monitor has moved on to `mon`. */
  function Onward(past: Past, mon: State): Past {
    var read := ReadUpTo(mon, |past.history|);
    past.(read := if read >= 0 then read else 0)
  }

  function TakeTurn(c: Config, s: System, env: Env): System {
    var e := Next(s.machine).1;
    var (machine, outcome) := Advance(c, s.machine, env);
    System(
      Onward(s.past, machine.mon),
      machine,
      if e.Some? && !outcome.Failed? then s.log + [e.value] else s.log,
      if outcome.Yield? then s.out + [outcome.event] else s.out)
  }

  function Apply(c: Config, s: System, step: Step): System {
    match step
    case HostEvent(e) =>
      s.(past := s.past.(history := s.past.history + [e]),
         machine := s.machine.(mon := Push(s.machine.mon, e)))
    case Turn(env) => TakeTurn(c, s, env)
  }

  function Run(c: Config, s: System, steps: seq<Step>): System {
    if steps == [] then s
    else Apply(c, Run(c, s, steps[..|steps| - 1]), steps[|steps| - 1])
  }

  /** The host only removes what is there and only adds what is not. */
  predicate Possible(c: Config, s: System, steps: seq<Step>) {
    steps == [] ||
    (Possible(c, s, steps[..|steps| - 1]) &&
     (steps[|steps| - 1].HostEvent? ==>
        Enabled(Host(Run(c, s, steps[..|steps| - 1]).past.history), steps[|steps| - 1].e)))
  }

  /** The state in which the stream starts, having listened after `listen` events of the history. */
  ghost predicate Initial(s: System, scan: seq<Device>, files: Files, mounts: Mounts.Mount) {
    && s.past.Valid() && s.past.read == s.past.listen && s.past.scan == |s.past.history|
    && Lists(scan, Host(s.past.history))
    && s.machine.mon == Start(s.machine.mon.roots, scan, s.past.history[s.past.listen..])
    && s.machine.plant == Plant(map[], {}, map[], files, mounts, 0, [])
    && s.machine.phase == Draining
    && s.log == [] && s.out == []
  }

  // ----- The monitor in a run -----

  function Holding(s: System): Registry {
    Delivered(s.machine.mon)
  }

  /** Unless the stream has failed, its log accounts for every delivered device. */
  ghost predicate OnTrack(s: System) {
    && Tracks(s.machine.mon, s.past)
    && Fitting(s.log)
    && (!s.machine.phase.Ended? ==> Held(s.log) == Holding(s))
  }

  lemma HostKeeps(c: Config, s: System, e: UdevEvent)
    requires OnTrack(s) && Enabled(Host(s.past.history), e)
    ensures OnTrack(Apply(c, s, HostEvent(e)))
    ensures Holding(Apply(c, s, HostEvent(e))) == Holding(s)
  {
    PushTracks(s.machine.mon, s.past, e);
  }

  lemma NextTracks(m: Machine, past: Past)
    requires Tracks(m.mon, past)
    ensures var (mon, e) := Next(m);
            && Tracks(mon, Onward(past, mon))
            && mon.roots == m.mon.roots
            && (e.None? ==> Delivered(mon) == Delivered(m.mon))
            && (e.Some? ==> Fits(Delivered(m.mon), e.value) && Delivered(mon) == Hold(Delivered(m.mon), e.value))
  {
    match m.phase {
      case Draining => ReadTracks(m.mon, past);
      case Following => PollTracks(m.mon, past); ReadTracks(m.mon, past);
      case Ended => assert ReadUpTo(m.mon, |past.history|) == past.read;
    }
  }

  lemma AdvanceFields(c: Config, m: Machine, env: Env)
    ensures var (mon, e) := Next(m);
            var (m', outcome) := Advance(c, m, env);
            && m'.mon == mon && !outcome.Over?
            && (e.None? ==> m'.plant == m.plant && !outcome.Failed? && (m'.phase.Ended? <==> m.phase.Ended?))
            && (e.Some? ==>
                  && m'.plant == Process(c, m.plant, e.value, env).0
                  && (outcome.Failed? <==> Process(c, m.plant, e.value, env).1.Err?)
                  && m'.phase == if outcome.Failed? then Ended else m.phase)
  {
  }

  /** A turn leaves the delivered devices alone, or takes one event that fits them and processes it. */
  lemma TurnKeeps(c: Config, s: System, env: Env)
    requires OnTrack(s)
    ensures OnTrack(TakeTurn(c, s, env))
  {
    NextTracks(s.machine, s.past);
    AdvanceFields(c, s.machine, env);
    var t := TakeTurn(c, s, env);
    if t.log != s.log {
      assert t.log[..|t.log| - 1] == s.log;
    }
  }

  lemma StepKeeps(c: Config, s: System, step: Step)
    requires OnTrack(s)
    requires step.HostEvent? ==> Enabled(Host(s.past.history), step.e)
    ensures OnTrack(Apply(c, s, step))
    ensures Extends(s.past, Apply(c, s, step).past)
    ensures Apply(c, s, step).machine.mon.roots == s.machine.mon.roots
  {
    match step {
      case HostEvent(e) => HostKeeps(c, s, e);
      case Turn(env) =>
        TurnKeeps(c, s, env);
        NextTracks(s.machine, s.past);
        AdvanceFields(c, s.machine, env);
    }
  }

  lemma InitialOnTrack(s: System, scan: seq<Device>, files: Files, mounts: Mounts.Mount)
    requires Initial(s, scan, files, mounts)
    ensures OnTrack(s) && Holding(s) == map[]
  {
    StartTracks(s.machine.mon.roots, scan, s.past.history, s.past.listen);
  }

  /** A run keeps the monitor on track, whatever it interleaves. */
  lemma {:induction false} RunOnTrack(c: Config, s: System, steps: seq<Step>)
    requires OnTrack(s) && Possible(c, s, steps)
    ensures OnTrack(Run(c, s, steps))
    ensures Extends(s.past, Run(c, s, steps).past)
    ensures Run(c, s, steps).machine.mon.roots == s.machine.mon.roots
    decreases |steps|
  {
    if steps != [] {
      RunOnTrack(c, s, steps[..|steps| - 1]);
      StepKeeps(c, Run(c, s, steps[..|steps| - 1]), steps[|steps| - 1]);
    }
  }

  /** Everything the monitor emits in a run, the event whose processing fails included. */
  function Emitted(c: Config, s: System, steps: seq<Step>): seq<DeviceEvent> {
    if steps == [] then []
    else
      var init, step := steps[..|steps| - 1], steps[|steps| - 1];
      var e := Next(Run(c, s, init).machine).1;
      Emitted(c, s, init) + if step.Turn? && e.Some? then [e.value] else []
  }

  lemma EmittedStep(c: Config, s: System, step: Step)
    requires OnTrack(s)
    ensures var t := Apply(c, s, step);
            var e := Next(s.machine).1;
            if step.Turn? && e.Some?
            then && !s.machine.phase.Ended? && Fits(Held(s.log), e.value)
                 && (!t.machine.phase.Ended? ==> t.log == s.log + [e.value])
            else t.log == s.log && (t.machine.phase.Ended? <==> s.machine.phase.Ended?)
  {
    if step.Turn? {
      NextTracks(s.machine, s.past);
      AdvanceFields(c, s.machine, step.env);
    }
  }

  lemma FittingMore(log: seq<DeviceEvent>, e: DeviceEvent)
    requires Fitting(log) && Fits(Held(log), e)
    ensures Fitting(log + [e])
  {
    assert (log + [e])[..|log|] == log;
  }

  lemma {:induction false} EmittedFits(c: Config, s: System, steps: seq<Step>)
    requires OnTrack(s) && s.log == [] && Possible(c, s, steps)
    ensures Fitting(Emitted(c, s, steps))
    ensures !Run(c, s, steps).machine.phase.Ended? ==> Emitted(c, s, steps) == Run(c, s, steps).log
    decreases |steps|
  {
    if steps != [] {
      var init, step := steps[..|steps| - 1], steps[|steps| - 1];
      var before := Run(c, s, init);
      EmittedFits(c, s, init);
      RunOnTrack(c, s, init);
      EmittedStep(c, before, step);
      var e := Next(before.machine).1;
      if step.Turn? && e.Some? {
        FittingMore(before.log, e.value);
        assert Emitted(c, s, steps) == before.log + [e.value];
      } else {
        assert Emitted(c, s, steps) == Emitted(c, s, init);
      }
    }
  }

  /** For every syspath, the events emitted in a run are Add, Remove, Add, Remove, ... and each Remove carries
    the snapshot of the Add before it, also while enumerated and socket events overlap, and also for the last
    event of a run that fails. */
  lemma RunAlternates(c: Config, s: System, steps: seq<Step>, scan: seq<Device>, files: Files,
                      mounts: Mounts.Mount, p: Path)
    requires Initial(s, scan, files, mounts) && Possible(c, s, steps)
    ensures AlternatesFromAdd(Only(Emitted(c, s, steps), p))
    ensures AlternatesFromAdd(Only(Run(c, s, steps).log, p))
  {
    InitialOnTrack(s, scan, files, mounts);
    RunOnTrack(c, s, steps);
    EmittedFits(c, s, steps);
    FittingAlternates(Emitted(c, s, steps), p);
    FittingAlternates(Run(c, s, steps).log, p);
  }

  lemma TakenUnderRoot(m: Machine, past: Past)
    requires Tracks(m.mon, past) && Next(m).1.Some?
    ensures exists r :: r in m.mon.roots && r <= Next(m).1.value.dev.syspath
  {
    var (mon, e) := Next(m);
    var p := e.value.dev.syspath;
    NextTracks(m, past);
    if e.value.Add? {
      assert p in Delivered(mon);
      DeliveredBelow(mon, Onward(past, mon), p);
    } else {
      DeliveredBelow(m.mon, past, p);
    }
  }

  /** Every event ever emitted is about a device at or below one of the roots, component by component. */
  lemma {:induction false} EmittedUnderRoot(c: Config, s: System, steps: seq<Step>, i: nat)
    requires OnTrack(s) && Possible(c, s, steps) && i < |Emitted(c, s, steps)|
    ensures exists r :: r in s.machine.mon.roots && r <= Emitted(c, s, steps)[i].dev.syspath
    decreases |steps|
  {
    var init := steps[..|steps| - 1];
    RunOnTrack(c, s, init);
    if i < |Emitted(c, s, init)| {
      EmittedUnderRoot(c, s, init, i);
    } else {
      TakenUnderRoot(Run(c, s, init).machine, Run(c, s, init).past);
    }
  }

  // ----- Assumptions about the host -----

  /** One past continues another. */
  predicate Extends(before: Past, after: Past) {
    && before.listen == after.listen && before.scan == after.scan
    && before.scan <= |before.history| && before.history <= after.history
  }

  /** Devices below the roots are related when they are present together, or both at some time between
    listening and enumerating. */
  ghost predicate Assumes(past: Past, roots: seq<Path>, related: (Device, Device) -> bool) {
    past.scan <= |past.history| && WindowPairwise(past, roots, related) && HostPairwise(past, roots, related)
  }

  /** Assumptions may be weakened. */
  lemma AssumesWeaker(past: Past, roots: seq<Path>, strong: (Device, Device) -> bool, weak: (Device, Device) -> bool)
    requires Assumes(past, roots, strong) && forall a, b | strong(a, b) :: weak(a, b)
    ensures Assumes(past, roots, weak)
  {
    forall i: nat | past.scan <= i <= |past.history|
      ensures Pairwise(Restrict(Host(past.history[..i]), roots), weak)
    {
      assert Pairwise(Restrict(Host(past.history[..i]), roots), strong);
    }
  }

  lemma AssumesEarlier(before: Past, after: Past, roots: seq<Path>, related: (Device, Device) -> bool)
    requires Extends(before, after) && Assumes(after, roots, related)
    ensures Assumes(before, roots, related)
  {
    forall i: nat | i <= |before.history| ensures after.history[..i] == before.history[..i] {
    }
    forall d | InWindow(before, d) ensures InWindow(after, d) {
      var i: nat :| before.listen <= i <= before.scan <= |before.history| && PresentAt(before.history, i, d);
      assert PresentAt(after.history, i, d);
    }
    forall i: nat | before.scan <= i <= |before.history|
      ensures Pairwise(Restrict(Host(before.history[..i]), roots), related)
    {
      assert before.history[..i] == after.history[..i];
    }
  }

  /** A device that joins related devices without displacing one of them. */
  lemma JoinedRelated(held: Registry, seen: Registry, e: DeviceEvent, related: (Device, Device) -> bool)
    requires Pairwise(seen, related) && Fits(held, e)
    requires forall p | p in held :: p in seen && seen[p] == held[p]
    requires e.dev.syspath in seen && seen[e.dev.syspath] == e.dev
    ensures related(e.dev, e.dev) && forall p | p in held :: related(held[p], e.dev)
  {
    assert related(seen[e.dev.syspath], seen[e.dev.syspath]);
    forall p | p in held ensures related(held[p], e.dev) {
      assert related(seen[p], seen[e.dev.syspath]);
    }
  }

  lemma DeliveredIsSeen(before: State, after: State, e: DeviceEvent)
    requires e.Add? && Fits(Delivered(before), e) && Delivered(after) == Hold(Delivered(before), e)
    ensures forall p | p in Delivered(before) :: p in after.seen && after.seen[p] == Delivered(before)[p]
    ensures e.dev.syspath in after.seen && after.seen[e.dev.syspath] == e.dev
  {
    forall p | p in Delivered(before) ensures p in after.seen && after.seen[p] == Delivered(before)[p] {
      assert p in Delivered(after) && Delivered(after)[p] == Delivered(before)[p];
    }
    assert e.dev.syspath in Delivered(after);
  }

  /** The event taken by a turn is about a device related to every delivered one. */
  lemma TakenRelated(m: Machine, past: Past, related: (Device, Device) -> bool)
    requires Tracks(m.mon, past) && Assumes(past, m.mon.roots, related) && Next(m).1.Some?
    ensures var e := Next(m).1.value;
            related(e.dev, e.dev) && forall p | p in Delivered(m.mon) :: related(Delivered(m.mon)[p], e.dev)
  {
    var (mon, e) := Next(m);
    NextTracks(m, past);
    if e.value.Add? {
      DeliveredIsSeen(m.mon, mon, e.value);
      SeenPairwise(mon, Onward(past, mon), related);
      JoinedRelated(Delivered(m.mon), mon.seen, e.value, related);
    } else {
      SeenPairwise(m.mon, past, related);
      JoinedRelated(Delivered(m.mon), m.mon.seen, e.value, related);
    }
  }

  // ----- Attached devices are the delivered ones -----

  ghost predicate Refines(c: Config, s: System) {
    OnTrack(s) && (!s.machine.phase.Ended? ==> Attaches(c.rules, Holding(s), s.machine.plant))
  }

  /** In every run that has not failed, the attached devices are exactly the delivered devices that have
    a node, each with the symlinks of the matching rules. */
  lemma {:induction false} RunRefines(c: Config, s: System, steps: seq<Step>)
    requires Refines(c, s) && Possible(c, s, steps)
    ensures Refines(c, Run(c, s, steps))
    decreases |steps|
  {
    if steps != [] {
      var before := Run(c, s, steps[..|steps| - 1]);
      RunRefines(c, s, steps[..|steps| - 1]);
      StepKeeps(c, before, steps[|steps| - 1]);
      RefinesStep(c, before, steps[|steps| - 1]);
    }
  }

  lemma RefinesStep(c: Config, s: System, step: Step)
    requires Refines(c, s) && OnTrack(Apply(c, s, step))
    requires step.HostEvent? ==> Enabled(Host(s.past.history), step.e)
    ensures Refines(c, Apply(c, s, step))
  {
    match step {
      case HostEvent(e) => HostKeeps(c, s, e);
      case Turn(env) =>
        NextTracks(s.machine, s.past);
        AdvanceFields(c, s.machine, env);
        var e := Next(s.machine).1;
        if e.Some? && !s.machine.phase.Ended? && Process(c, s.machine.plant, e.value, env).1.Ok? {
          AttachesStep(c, Holding(s), s.machine.plant, e.value, env);
        }
    }
  }

  lemma InitialRefines(c: Config, s: System, scan: seq<Device>, files: Files, mounts: Mounts.Mount)
    requires Initial(s, scan, files, mounts)
    ensures Refines(c, s)
  {
    InitialOnTrack(s, scan, files, mounts);
  }

  // ----- Permissions are exactly those of the attached devices -----

  function DistinctNumbers(): (Device, Device) -> bool {
    (a, b) => KeysApart(a, b)
  }

  ghost predicate Permits(c: Config, s: System) {
    Refines(c, s) && (!s.machine.phase.Ended? ==> Grants(Holding(s), s.machine.plant))
  }

  /** In every run that has not failed, the permission map grants everything on the attached devices,
    nothing else, with one entry each, provided device numbers are not shared. */
  lemma {:induction false} RunPermits(c: Config, s: System, steps: seq<Step>)
    requires Permits(c, s) && Possible(c, s, steps)
    requires Assumes(Run(c, s, steps).past, s.machine.mon.roots, DistinctNumbers())
    ensures Permits(c, Run(c, s, steps))
    decreases |steps|
  {
    if steps != [] {
      var init, step := steps[..|steps| - 1], steps[|steps| - 1];
      RunOnTrack(c, s, init);
      StepKeeps(c, Run(c, s, init), step);
      AssumesEarlier(Run(c, s, init).past, Run(c, s, steps).past, s.machine.mon.roots, DistinctNumbers());
      RunPermits(c, s, init);
      PermitsStep(c, Run(c, s, init), step);
    }
  }

  lemma PermitsStep(c: Config, s: System, step: Step)
    requires Permits(c, s) && Assumes(s.past, s.machine.mon.roots, DistinctNumbers())
    requires step.HostEvent? ==> Enabled(Host(s.past.history), step.e)
    ensures Permits(c, Apply(c, s, step))
  {
    StepKeeps(c, s, step);
    RefinesStep(c, s, step);
    match step {
      case HostEvent(e) => HostKeeps(c, s, e);
      case Turn(env) =>
        NextTracks(s.machine, s.past);
        AdvanceFields(c, s.machine, env);
        var e := Next(s.machine).1;
        if e.Some? && Process(c, s.machine.plant, e.value, env).1.Ok? {
          TakenRelated(s.machine, s.past, DistinctNumbers());
          GrantsStep(c, Holding(s), s.machine.plant, e.value, env);
        }
    }
  }

  lemma InitialPermits(c: Config, s: System, scan: seq<Device>, files: Files, mounts: Mounts.Mount)
    requires Initial(s, scan, files, mounts)
    ensures Permits(c, s)
  {
    InitialRefines(c, s, scan, files, mounts);
    InitialOnTrack(s, scan, files, mounts);
    assert NodesOf(map[]) == {};
  }

  // ----- Exactly when the permissions stay in step -----

  /** No device was ever removed while another attached device had its number. */
  ghost predicate NeverShared(log: seq<DeviceEvent>) {
    log == [] ||
    (NeverShared(log[..|log| - 1]) &&
     (log[|log| - 1].Remove? ==> Unshared(Held(log[..|log| - 1]), log[|log| - 1].dev)))
  }

  /** The map grants everything on the attached devices and nothing else. */
  ghost predicate InStep(s: System) {
    GrantsExactly(s.machine.plant.perms, NodesOf(Holding(s)))
  }

  lemma InStepIff(c: Config, s: System, step: Step)
    requires Refines(c, s) && InStep(s) && !Apply(c, s, step).machine.phase.Ended?
    requires step.HostEvent? ==> Enabled(Host(s.past.history), step.e)
    ensures Apply(c, s, step).log == s.log ==> InStep(Apply(c, s, step))
    ensures Apply(c, s, step).log != s.log ==>
              && Apply(c, s, step).log[..|Apply(c, s, step).log| - 1] == s.log
              && (InStep(Apply(c, s, step)) <==>
                    (Apply(c, s, step).log[|s.log|].Remove? ==>
                       Unshared(Holding(s), Apply(c, s, step).log[|s.log|].dev)))
  {
    match step {
      case HostEvent(e) => HostKeeps(c, s, e);
      case Turn(env) =>
        NextTracks(s.machine, s.past);
        AdvanceFields(c, s.machine, env);
        var e := Next(s.machine).1;
        if e.Some? {
          GrantsExactlyIff(c, Holding(s), s.machine.plant, e.value, env);
        }
    }
  }

  ghost predicate AlwaysInStep(c: Config, s: System, steps: seq<Step>) {
    InStep(Run(c, s, steps)) && (steps != [] ==> AlwaysInStep(c, s, steps[..|steps| - 1]))
  }

  /** In any run that has not failed, whatever the host does: the permission map was in step with the
    attached devices all along if and only if no device was removed while another attached device had its
    number. */
  lemma {:induction false} RunInStepIff(c: Config, s: System, steps: seq<Step>)
    requires Refines(c, s) && InStep(s) && s.log == [] && Possible(c, s, steps)
    requires !Run(c, s, steps).machine.phase.Ended?
    ensures AlwaysInStep(c, s, steps) <==> NeverShared(Run(c, s, steps).log)
    decreases |steps|
  {
    if steps != [] {
      var init, step := steps[..|steps| - 1], steps[|steps| - 1];
      var before := Run(c, s, init);
      if before.machine.phase.Ended? {
        EndedStays(c, before, step);
      }
      RunInStepIff(c, s, init);
      RunRefines(c, s, init);
      if InStep(before) {
        InStepIff(c, before, step);
      } else {
        LogGrows(c, before, step);
      }
    }
  }

  lemma LogGrows(c: Config, s: System, step: Step)
    ensures Apply(c, s, step).log == s.log ||
            (|Apply(c, s, step).log| > 0 && Apply(c, s, step).log[..|Apply(c, s, step).log| - 1] == s.log)
  {
  }

  lemma EndedStays(c: Config, s: System, step: Step)
    requires s.machine.phase.Ended?
    ensures Apply(c, s, step).machine.phase.Ended?
  {
  }
}
