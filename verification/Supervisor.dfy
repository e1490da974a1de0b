/** The supervisor: the loop over the merged event streams, and the lifetime of the container's handle.

  The daemon is a state machine whose steps come in any order: the host, the watcher of the container's
  cgroup, the two streams, and the supervisor itself may each move next. */
module Supervisor {
  import opened Devices
  import opened Monitor
  import opened ContainerState
  import opened Controller
  import opened Effects
  import opened Pipeline
  import opened Guarantees
  import opened CgroupEvents
  import Mounts

  // ----- The loop -----

  /** What the loop keeps: the write end of the pipe until it is used, and the events taken so far. */
  datatype LoopState = LoopState(notifier: bool, written: nat, consumed: seq<Event>)

  /** How the loop goes on after an event. */
  datatype Reaction = Continue | KillAndWait | Break | Bail

  predicate IsRoot(roots: seq<Path>, dev: Attached) {
    dev.device.syspath in roots
  }

  function React(roots: seq<Path>, l: LoopState, event: Event, pipeOk: bool): (LoopState, Reaction) {
    var l := l.(consumed := l.consumed + [event]);
    match event
    case Initialized =>
      if !l.notifier then (l, Bail)
      else if !pipeOk then (l.(notifier := false), Bail)
      else (l.(notifier := false, written := l.written + 1), Continue)
    case Detach(dev) => if IsRoot(roots, dev) then (l, KillAndWait) else (l, Continue)
    case Stopped => (l, Break)
    case Attach(_) => (l, Continue)
  }

  /** The next item of the merged stream, with whether the pipe could be written at that time; `Broken` is an
    error or the end. */
  datatype Item = Next(event: Event, pipeOk: bool) | Broken

  datatype Exit = Running | Normal | Failure

  /** The loop over the items that have arrived. */
  function Loop(roots: seq<Path>, l: LoopState, items: seq<Item>, waitOk: bool): (LoopState, Exit)
    decreases |items|
  {
    if items == [] then (l, Running)
    else if items[0].Broken? then (l, Failure)
    else
      var (l', reaction) := React(roots, l, items[0].event, items[0].pipeOk);
      match reaction
      case Continue => Loop(roots, l', items[1..], waitOk)
      case KillAndWait => (l', if waitOk then Normal else Failure)
      case Break => (l', Normal)
      case Bail => (l', Failure)
  }

  class EventLoop {
    const roots: seq<Path>
    var notifier: bool
    var written: nat
    var consumed: seq<Event>

    ghost function View(): LoopState
      reads this
    {
      LoopState(notifier, written, consumed)
    }

    constructor (roots: seq<Path>)
      ensures this.roots == roots && View() == LoopState(true, 0, [])
    {
      this.roots := roots;
      notifier, written, consumed := true, 0, [];
    }

    method Run(items: seq<Item>, waitOk: bool) returns (exit: Exit)
      modifies this
      ensures (View(), exit) == Loop(roots, old(View()), items, waitOk)
    {
      for i := 0 to |items|
        invariant Loop(roots, View(), items[i..], waitOk) == Loop(roots, old(View()), items, waitOk)
      {
        assert items[i..][1..] == items[i + 1..];
        if items[i].Broken? {
          return Failure;
        }
        var event := items[i].event;
        consumed := consumed + [event];
        match event {
          case Initialized =>
            if !notifier {
              return Failure;
            }
            notifier := false;
            if !items[i].pipeOk {
              return Failure;
            }
            written := written + 1;
          case Detach(dev) =>
            if IsRoot(roots, dev) {
              return if waitOk then Normal else Failure;
            }
          case Stopped =>
            return Normal;
          case Attach(_) =>
        }
      }
      return Running;
    }
  }

  /** After these the loop takes no further event: the container has stopped, or the device that is gone is one
    of the roots itself. */
  ghost predicate Terminal(roots: seq<Path>, event: Event) {
    event.Stopped? || (event.Detach? && exists i | 0 <= i < |roots| :: roots[i] == event.dev.device.syspath)
  }

  /** The container is killed exactly when a root itself is gone, and the loop is left without a kill exactly when
    the container has stopped. */
  lemma ReactsExactly(roots: seq<Path>, l: LoopState, event: Event, pipeOk: bool)
    ensures React(roots, l, event, pipeOk).1 == KillAndWait <==>
            event.Detach? && exists i | 0 <= i < |roots| :: roots[i] == event.dev.device.syspath
    ensures React(roots, l, event, pipeOk).1 == Break <==> event.Stopped?
    ensures React(roots, l, event, pipeOk).1 == Bail <==> event.Initialized? && (!l.notifier || !pipeOk)
    ensures React(roots, l, event, pipeOk).0.written ==
            l.written + if event.Initialized? && l.notifier && pipeOk then 1 else 0
  {
  }

  /** As long as the stream holds, nothing of the kind arrives, and `Initialized` comes at most once and can be
    passed on, the loop takes every event offered and keeps running. */
  lemma {:induction false} LoopGoesOn(roots: seq<Path>, l: LoopState, items: seq<Item>, waitOk: bool)
    requires forall i | 0 <= i < |items| :: items[i].Next? && !Terminal(roots, items[i].event)
    requires forall i | 0 <= i < |items| :: items[i].event.Initialized? ==> items[i].pipeOk && l.notifier
    requires forall i, j | 0 <= i < j < |items| :: !(items[i].event.Initialized? && items[j].event.Initialized?)
    ensures Loop(roots, l, items, waitOk).1 == Running
    ensures Loop(roots, l, items, waitOk).0.consumed == l.consumed + Events(items)
    ensures |Events(items)| == |items|
    decreases |items|
  {
    if items == [] {
      assert l.consumed + [] == l.consumed;
    } else {
      var (l', reaction) := React(roots, l, items[0].event, items[0].pipeOk);
      ReactsExactly(roots, l, items[0].event, items[0].pipeOk);
      LoopGoesOn(roots, l', items[1..], waitOk);
      assert l.consumed + Events(items) == l'.consumed + Events(items[1..]);
    }
  }

  ghost predicate NoneTerminal(roots: seq<Path>, events: seq<Event>) {
    forall i | 0 <= i < |events| :: !Terminal(roots, events[i])
  }

  function Events(items: seq<Item>): seq<Event> {
    if items == [] || items[0].Broken? then [] else [items[0].event] + Events(items[1..])
  }

  /** What is known of the loop when it has got from `before` to `after`. */
  ghost predicate Stopping(roots: seq<Path>, before: seq<Event>, offered: seq<Event>, after: seq<Event>, exit: Exit) {
    && after <= before + offered
    && (exit == Running ==> NoneTerminal(roots, after) && after == before + offered)
    && (exit == Normal ==> after != [] && Terminal(roots, after[|after| - 1]))
    && (after != [] ==> NoneTerminal(roots, after[..|after| - 1]))
  }

  lemma ReactConsumes(roots: seq<Path>, l: LoopState, event: Event, pipeOk: bool)
    requires NoneTerminal(roots, l.consumed)
    ensures var (l', reaction) := React(roots, l, event, pipeOk);
            && l'.consumed == l.consumed + [event]
            && l'.consumed[..|l'.consumed| - 1] == l.consumed
            && l'.consumed[|l'.consumed| - 1] == event
            && (Terminal(roots, event) <==> reaction.KillAndWait? || reaction.Break?)
            && (!Terminal(roots, event) ==> NoneTerminal(roots, l'.consumed))
  {
  }

  /** The loop ends normally only after `Stopped` or the removal of a root device, and takes no event after
    the first of those; what it takes is a prefix of what the stream offers. */
  lemma {:induction false} LoopStopsAtTerminal(roots: seq<Path>, l: LoopState, items: seq<Item>, waitOk: bool)
    requires NoneTerminal(roots, l.consumed)
    ensures Stopping(roots, l.consumed, Events(items), Loop(roots, l, items, waitOk).0.consumed,
                     Loop(roots, l, items, waitOk).1)
    decreases |items|
  {
    if items != [] && items[0].Next? {
      var (l', reaction) := React(roots, l, items[0].event, items[0].pipeOk);
      ReactConsumes(roots, l, items[0].event, items[0].pipeOk);
      assert l.consumed + Events(items) == l'.consumed + Events(items[1..]);
      if reaction.Continue? {
        LoopStopsAtTerminal(roots, l', items[1..], waitOk);
      }
    } else {
      assert l.consumed + [] == l.consumed;
    }
  }

  // ----- The daemon -----

  /** Who shares ownership of the container: the supervisor's own handle, the clone kept from being dropped
    automatically, the controller, and the stream that waits for the container to stop. */
  datatype Holder = Own | Kept | Plug | Waiter

  const SETUP_STEPS: nat := 5

  datatype Stage = Setup(done: nat) | Looping | Killing | Leaving(todo: seq<Holder>, ok: bool)

  /** `looped` records whether the loop was reached, `emptied` whether the cgroup was ever found unpopulated,
    `pinned` whether the filter is still pinned; `system` is the pipeline from the moment the controller is
    created. */
  datatype Daemon = Daemon(
    system: System,
    stage: Stage,
    looped: bool,
    loop: LoopState,
    holders: set<Holder>,
    watcher: Watcher,
    pinned: bool,
    emptied: bool)

  datatype Move =
    | Host(e: UdevEvent)
    | Observe(wakeup: Wakeup)
    | Prepare(works: bool)
    | PollHotplug(env: Env, pipeOk: bool)
    | PollContainer
    | AwaitKilled
    | DropNext

  /** The watching task looks at the cgroup, unless it has ended. */
  function ObserveCgroup(d: Daemon, wakeup: Wakeup): Daemon {
    if !d.watcher.Watching? then d
    else d.(watcher := Watch(d.watcher, Sight(wakeup)), emptied := d.emptied || Sight(wakeup).Unpopulated?)
  }

  /** Leave `create`: locals are dropped in reverse order, the kept clone only after a normal exit. */
  function Leave(d: Daemon, ok: bool): Daemon {
    d.(stage := Leaving(if ok then [Kept, Waiter, Plug, Own] else [Waiter, Plug, Own], ok))
  }

  /** Releasing a handle: with the last one goes the container, and with it the pin. */
  function Released(holders: set<Holder>, pinned: bool, h: Holder): (set<Holder>, bool) {
    (holders - {h}, pinned && (h in holders ==> holders != {h}))
  }

  /** The shared container: dropped by whoever releases the last handle. */
  class SharedContainer {
    const container: Container
    var holders: set<Holder>

    constructor (container: Container)
      ensures this.container == container && holders == {Own}
    {
      this.container := container;
      holders := {Own};
    }

    method Clone(h: Holder)
      modifies this
      ensures holders == old(holders) + {h}
    {
      holders := holders + {h};
    }

    method Release(h: Holder)
      modifies this, container.filter`pinned
      ensures (holders, container.filter.pinned) == Released(old(holders), old(container.filter.pinned), h)
    {
      var last := holders == {h};
      holders := holders - {h};
      if last {
        container.filter.Drop();
      }
    }
  }

  function DropHolder(d: Daemon): Daemon {
    if d.stage.Leaving? && d.stage.todo != [] then
      var (holders, pinned) := Released(d.holders, d.pinned, d.stage.todo[0]);
      d.(stage := Leaving(d.stage.todo[1..], d.stage.ok), holders := holders, pinned := pinned)
    else d
  }

  /** Redirecting the standard streams, and creating the controller, which takes a clone of the handle;
    the stream that waits for the container takes another. */
  function PrepareNext(d: Daemon, works: bool): Daemon {
    if !d.stage.Setup? then d
    else if !works then Leave(d, false)
    else if d.stage.done + 1 < SETUP_STEPS then d.(stage := Setup(d.stage.done + 1))
    else d.(stage := Looping, looped := true, holders := d.holders + {Plug, Waiter})
  }

  function Accept(roots: seq<Path>, d: Daemon, event: Event, pipeOk: bool): Daemon {
    var (loop, reaction) := React(roots, d.loop, event, pipeOk);
    var d := d.(loop := loop);
    match reaction
    case Continue => d
    case KillAndWait => d.(stage := Killing)
    case Break => Leave(d, true)
    case Bail => Leave(d, false)
  }

  /** What the supervisor makes of one turn of the controller's stream. */
  function Respond(roots: seq<Path>, d: Daemon, outcome: Outcome, pipeOk: bool): Daemon {
    match outcome
    case Silent => d
    case Wait => d
    case Over => d
    case Failed(_) => Leave(d, false)
    case Yield(event) => Accept(roots, d, event, pipeOk)
  }

  function Moved(c: Config, d: Daemon, move: Move): Daemon {
    match move
    case Host(e) => if d.stage.Setup? then d else d.(system := Apply(c, d.system, HostEvent(e)))
    case Observe(wakeup) => ObserveCgroup(d, wakeup)
    case Prepare(works) => PrepareNext(d, works)
    case PollHotplug(env, pipeOk) =>
      if !d.stage.Looping? then d
      else
        Respond(d.system.machine.mon.roots, d.(system := Apply(c, d.system, Turn(env))),
                Advance(c, d.system.machine, env).1, pipeOk)
    case PollContainer =>
      if !d.stage.Looping? then d
      else (match d.watcher
            case Watching => d
            case Lost => Leave(d, false)
            case Reported => Accept(d.system.machine.mon.roots, d, Stopped, true))
    case AwaitKilled =>
      if !d.stage.Killing? then d
      else (match d.watcher
            case Watching => d
            case Lost => Leave(d, false)
            case Reported => Leave(d, true))
    case DropNext => DropHolder(d)
  }

  function Moves(c: Config, d: Daemon, moves: seq<Move>): Daemon {
    if moves == [] then d
    else Moved(c, Moves(c, d, moves[..|moves| - 1]), moves[|moves| - 1])
  }

  lemma PollResponds(c: Config, d: Daemon, system: System, outcome: Outcome, move: Move)
    requires move.PollHotplug? && d.stage.Looping?
    requires system == Apply(c, d.system, Turn(move.env)) && outcome == Advance(c, d.system.machine, move.env).1
    ensures Moved(c, d, move) == Respond(d.system.machine.mon.roots, d.(system := system), outcome, move.pipeOk)
  {
  }

  /** Right after the kept clone has been made. */
  function Begin(system: System): Daemon {
    Daemon(system, Setup(0), false, LoopState(true, 0, []), {Own, Kept}, Watching, true, false)
  }

  // ----- The loop is reached exactly when the whole set-up works -----

  /** How the steps of the set-up that were tried went, in order. */
  function Preparations(moves: seq<Move>): seq<bool> {
    if moves == [] then []
    else
      Preparations(moves[..|moves| - 1])
      + if moves[|moves| - 1].Prepare? then [moves[|moves| - 1].works] else []
  }

  predicate AllWork(steps: seq<bool>) {
    forall i | 0 <= i < |steps| :: steps[i]
  }

  /** Nothing is taken out of turn: after five steps that work, and no other way, the daemon gets to its loop; as
    long as fewer have been tried and all work it goes on; and one that does not work makes it leave at once,
    with a failure and without a word to the parent. */
  ghost predicate SetUp(d: Daemon, steps: seq<bool>) {
    && (d.looped <==> |steps| >= 5 && AllWork(steps[..5]))
    && (d.stage.Setup? <==> |steps| < 5 && AllWork(steps))
    && (!d.looped ==> d.loop.written == 0 && d.loop.consumed == [])
    && (!d.looped && !d.stage.Setup? ==> d.stage.Leaving? && !d.stage.ok)
    && (d.stage.Setup? ==> d.stage.done == |steps|)
  }

  lemma UnpreparedMove(c: Config, d: Daemon, move: Move)
    requires !(move.Prepare? && d.stage.Setup?)
    ensures Moved(c, d, move).looped == d.looped
    ensures d.stage.Setup? || d.stage.Leaving? ==> Moved(c, d, move).loop == d.loop
    ensures d.stage.Setup? ==> Moved(c, d, move).stage == d.stage
    ensures d.stage.Leaving? ==> Moved(c, d, move).stage.Leaving? && Moved(c, d, move).stage.ok == d.stage.ok
    ensures !d.stage.Setup? ==> !Moved(c, d, move).stage.Setup?
  {
    if move.PollHotplug? && d.stage.Looping? {
      var system, outcome := Apply(c, d.system, Turn(move.env)), Advance(c, d.system.machine, move.env).1;
      PollResponds(c, d, system, outcome, move);
      RespondLooped(d.system.machine.mon.roots, d.(system := system), outcome, move.pipeOk);
    }
  }

  lemma RespondLooped(roots: seq<Path>, d: Daemon, outcome: Outcome, pipeOk: bool)
    requires d.stage.Looping?
    ensures Respond(roots, d, outcome, pipeOk).looped == d.looped
    ensures !Respond(roots, d, outcome, pipeOk).stage.Setup?
  {
  }

  lemma SetUpMove(c: Config, d: Daemon, move: Move, steps: seq<bool>)
    requires SetUp(d, steps)
    ensures SetUp(Moved(c, d, move), steps + if move.Prepare? then [move.works] else [])
  {
    if move.Prepare? {
      var more := steps + [move.works];
      assert |steps| >= 5 ==> more[..5] == steps[..5];
      assert AllWork(more) <==> AllWork(steps) && move.works by {
        assert forall i | 0 <= i < |steps| :: more[i] == steps[i];
        assert more[|steps|] == move.works;
      }
      assert |more| == 5 ==> more[..5] == more;
    } else {
      assert steps + [] == steps;
    }
    if !(move.Prepare? && d.stage.Setup?) {
      UnpreparedMove(c, d, move);
    }
  }

  lemma {:induction false} SetupExact(c: Config, system: System, moves: seq<Move>)
    ensures SetUp(Moves(c, Begin(system), moves), Preparations(moves))
    decreases |moves|
  {
    if moves != [] {
      SetupExact(c, system, moves[..|moves| - 1]);
      SetUpMove(c, Moves(c, Begin(system), moves[..|moves| - 1]), moves[|moves| - 1],
                Preparations(moves[..|moves| - 1]));
    }
  }

  // ----- The pin outlives every run in which the cgroup was not found unpopulated -----

  predicate Members(todo: seq<Holder>, holders: set<Holder>) {
    forall h | h in holders :: h in todo
  }

  ghost predicate PinSafe(d: Daemon) {
    && (d.watcher.Reported? ==> d.emptied)
    && (d.stage.Leaving? && d.stage.ok ==> d.emptied && Members(d.stage.todo, d.holders))
    && (!(d.stage.Leaving? && d.stage.ok) ==> Kept in d.holders && (d.stage.Leaving? ==> Kept !in d.stage.todo))
    && (d.pinned <==> d.holders != {})
  }

  lemma LeaveSafe(d: Daemon, ok: bool)
    requires PinSafe(d) && !d.stage.Leaving? && (ok ==> d.emptied)
    ensures PinSafe(Leave(d, ok))
  {
    forall h: Holder ensures h in [Kept, Waiter, Plug, Own] {
      match h { case Own => case Kept => case Plug => case Waiter => }
    }
    assert Kept !in [Waiter, Plug, Own];
  }

  lemma AcceptSafe(roots: seq<Path>, d: Daemon, event: Event, pipeOk: bool)
    requires PinSafe(d) && d.stage.Looping? && (event == Stopped ==> d.emptied)
    ensures PinSafe(Accept(roots, d, event, pipeOk))
  {
    var loop := React(roots, d.loop, event, pipeOk).0;
    LeaveSafe(d.(loop := loop), false);
    if event == Stopped {
      LeaveSafe(d.(loop := loop), true);
    }
  }

  lemma DropSafe(d: Daemon)
    requires PinSafe(d)
    ensures PinSafe(DropHolder(d))
  {
    if d.stage.Leaving? && d.stage.todo != [] {
      assert d.stage.todo == [d.stage.todo[0]] + d.stage.todo[1..];
      assert forall h | h in d.stage.todo :: h == d.stage.todo[0] || h in d.stage.todo[1..];
    }
  }

  lemma RespondSafe(roots: seq<Path>, d: Daemon, outcome: Outcome, pipeOk: bool)
    requires PinSafe(d) && d.stage.Looping? && outcome != Yield(Stopped)
    ensures PinSafe(Respond(roots, d, outcome, pipeOk))
  {
    LeaveSafe(d, false);
    if outcome.Yield? {
      AcceptSafe(roots, d, outcome.event, pipeOk);
    }
  }

  lemma PinSafeMove(c: Config, d: Daemon, move: Move)
    requires PinSafe(d)
    ensures PinSafe(Moved(c, d, move))
  {
    if move.DropNext? {
      DropSafe(d);
    } else if !d.stage.Leaving? {
      LeaveSafe(d, false);
      if move.PollHotplug? && d.stage.Looping? {
        PollNeverStops(c, d, move.env);
        RespondSafe(d.system.machine.mon.roots, d.(system := Apply(c, d.system, Turn(move.env))),
                    Advance(c, d.system.machine, move.env).1, move.pipeOk);
      } else if d.watcher.Reported? {
        LeaveSafe(d, true);
        if d.stage.Looping? {
          AcceptSafe(d.system.machine.mon.roots, d, Stopped, true);
        }
      }
    }
  }

  lemma PollNeverStops(c: Config, d: Daemon, env: Env)
    ensures Advance(c, d.system.machine, env).1 != Yield(Stopped)
  {
    if Advance(c, d.system.machine, env).1.Yield? {
      AdvanceYields(c, d.system.machine, env);
    }
  }

  /** In every run, through every exit, the pin is only ever removed if the cgroup has been found
    unpopulated. */
  lemma {:induction false} PinOutlives(c: Config, d: Daemon, moves: seq<Move>)
    requires PinSafe(d)
    ensures PinSafe(Moves(c, d, moves))
    ensures !Moves(c, d, moves).pinned ==> Moves(c, d, moves).emptied
    decreases |moves|
  {
    if moves != [] {
      PinOutlives(c, d, moves[..|moves| - 1]);
      PinSafeMove(c, Moves(c, d, moves[..|moves| - 1]), moves[|moves| - 1]);
    }
  }

  /** Once everything is dropped, the pin is gone after a normal exit and still there after any other. */
  lemma PinAtTheEnd(c: Config, system: System, moves: seq<Move>)
    requires Moves(c, Begin(system), moves).stage.Leaving?
    requires Moves(c, Begin(system), moves).stage.todo == []
    ensures Moves(c, Begin(system), moves).pinned <==> !Moves(c, Begin(system), moves).stage.ok
  {
    PinOutlives(c, Begin(system), moves);
  }

  // ----- How the supervisor gets away -----

  lemma {:induction false} EmptiedIsReported(c: Config, system: System, moves: seq<Move>)
    ensures Moves(c, Begin(system), moves).emptied <==> Moves(c, Begin(system), moves).watcher.Reported?
    decreases |moves|
  {
    if moves != [] {
      EmptiedIsReported(c, system, moves[..|moves| - 1]);
      EmptiedMove(c, Moves(c, Begin(system), moves[..|moves| - 1]), moves[|moves| - 1]);
    }
  }

  lemma RespondWatcher(roots: seq<Path>, d: Daemon, outcome: Outcome, pipeOk: bool)
    ensures Respond(roots, d, outcome, pipeOk).watcher == d.watcher
    ensures Respond(roots, d, outcome, pipeOk).emptied == d.emptied
  {
  }

  lemma EmptiedMove(c: Config, d: Daemon, move: Move)
    requires d.emptied <==> d.watcher.Reported?
    ensures Moved(c, d, move).emptied <==> Moved(c, d, move).watcher.Reported?
  {
    if move.PollHotplug? && d.stage.Looping? {
      var system, outcome := Apply(c, d.system, Turn(move.env)), Advance(c, d.system.machine, move.env).1;
      PollResponds(c, d, system, outcome, move);
      RespondWatcher(d.system.machine.mon.roots, d.(system := system), outcome, move.pipeOk);
    }
  }

  function Drops(n: nat): seq<Move> {
    seq(n, _ => DropNext)
  }

  /** So many drops release the first so many handles. */
  lemma {:induction false} DropsRelease(c: Config, d: Daemon, n: nat)
    requires d.stage.Leaving? && n <= |d.stage.todo|
    ensures Moves(c, d, Drops(n)).stage == Leaving(d.stage.todo[n..], d.stage.ok)
    ensures forall h :: h in Moves(c, d, Drops(n)).holders <==> h in d.holders && h !in d.stage.todo[..n]
    decreases n
  {
    if n > 0 {
      DropsRelease(c, d, n - 1);
      assert Drops(n)[..n - 1] == Drops(n - 1);
      assert d.stage.todo[..n] == d.stage.todo[..n - 1] + [d.stage.todo[n - 1]];
    }
  }

  lemma NothingLeft(c: Config, d: Daemon)
    requires PinSafe(d) && d.stage == Leaving([Kept, Waiter, Plug, Own], true)
    ensures Moves(c, d, Drops(4)).stage == Leaving([], true)
    ensures Moves(c, d, Drops(4)).holders == {} && !Moves(c, d, Drops(4)).pinned
  {
    DropsRelease(c, d, 4);
    PinOutlives(c, d, Drops(4));
    assert d.stage.todo[..4] == d.stage.todo;
  }

  lemma KeptLeft(c: Config, d: Daemon)
    requires PinSafe(d) && d.stage == Leaving([Waiter, Plug, Own], false)
    ensures Moves(c, d, Drops(3)).stage == Leaving([], false)
    ensures Moves(c, d, Drops(3)).holders == {Kept} && Moves(c, d, Drops(3)).pinned
  {
    DropsRelease(c, d, 3);
    PinOutlives(c, d, Drops(3));
    assert d.stage.todo[..3] == d.stage.todo;
    forall h: Holder ensures h == Kept || h in d.stage.todo {
      match h {
        case Own => assert d.stage.todo[2] == h;
        case Kept =>
        case Plug => assert d.stage.todo[1] == h;
        case Waiter => assert d.stage.todo[0] == h;
      }
    }
  }

  lemma WatchLeaves(c: Config, d: Daemon)
    requires (d.stage.Looping? || d.stage.Killing?) && !d.watcher.Watching?
    ensures Moved(c, d, if d.stage.Looping? then PollContainer else AwaitKilled).stage ==
            if d.watcher.Reported? then Leaving([Kept, Waiter, Plug, Own], true)
            else Leaving([Waiter, Plug, Own], false)
  {
  }

  lemma FailureLeaves(c: Config, d: Daemon, move: Move)
    requires d.stage.Looping? && move.PollHotplug? && Advance(c, d.system.machine, move.env).1.Failed?
    ensures Moved(c, d, move).stage == Leaving([Waiter, Plug, Own], false)
  {
    PollResponds(c, d, Apply(c, d.system, Turn(move.env)), Advance(c, d.system.machine, move.env).1, move);
  }

  /** Once the cgroup has been found unpopulated, the next look at that leaves the loop or the wait for the killed
    container, normally, and four drops later no handle, no container and no pin is left. */
  lemma EndsWhenEmpty(c: Config, system: System, moves: seq<Move>)
    requires var d := Moves(c, Begin(system), moves);
             d.emptied && (d.stage.Looping? || d.stage.Killing?)
    ensures var d := Moves(c, Begin(system), moves);
            var left := Moved(c, d, if d.stage.Looping? then PollContainer else AwaitKilled);
            var end := Moves(c, left, Drops(4));
            && left.stage.Leaving? && left.stage.ok
            && end.stage == Leaving([], true) && end.holders == {} && !end.pinned
  {
    var d := Moves(c, Begin(system), moves);
    EmptiedIsReported(c, system, moves);
    PinOutlives(c, Begin(system), moves);
    WatchLeaves(c, d);
    var move := if d.stage.Looping? then PollContainer else AwaitKilled;
    PinSafeMove(c, d, move);
    NothingLeft(c, Moved(c, d, move));
  }

  /** A failure of the controller's stream, or of the watch over the cgroup, ends the supervisor with a failure;
    three drops later everything but the kept clone is released, and the filter is still pinned. */
  lemma FailsWithPin(c: Config, system: System, moves: seq<Move>, move: Move)
    requires var d := Moves(c, Begin(system), moves);
             || (d.stage.Looping? && move.PollHotplug? && Advance(c, d.system.machine, move.env).1.Failed?)
             || (d.stage.Looping? && move.PollContainer? && d.watcher.Lost?)
             || (d.stage.Killing? && move.AwaitKilled? && d.watcher.Lost?)
    ensures var left := Moved(c, Moves(c, Begin(system), moves), move);
            var end := Moves(c, left, Drops(3));
            && left.stage.Leaving? && !left.stage.ok
            && end.stage == Leaving([], false) && end.holders == {Kept} && end.pinned
  {
    var d := Moves(c, Begin(system), moves);
    PinOutlives(c, Begin(system), moves);
    if move.PollHotplug? {
      FailureLeaves(c, d, move);
    } else {
      WatchLeaves(c, d);
    }
    PinSafeMove(c, d, move);
    KeptLeft(c, Moved(c, d, move));
  }

  // ----- The parent is told at most once, and only when the devices are there -----

  /** The pipe is still held exactly while the controller has not reported initialisation, and the byte has
    been written at most once. */
  predicate Telling(d: Daemon) {
    && d.loop.written <= (if d.loop.notifier then 0 else 1)
    && (d.stage.Setup? || d.stage.Looping? ==> (d.loop.notifier <==> d.system.machine.phase.Draining?))
  }

  /** The byte is written only for `Initialized`, which must come while the controller is draining. */
  lemma AcceptTelling(roots: seq<Path>, d: Daemon, event: Event, pipeOk: bool)
    requires d.stage.Looping? && d.loop.written <= (if d.loop.notifier then 0 else 1)
    requires event == Initialized ==> d.loop.notifier && !d.system.machine.phase.Draining?
    requires event != Initialized ==> (d.loop.notifier <==> d.system.machine.phase.Draining?)
    ensures Telling(Accept(roots, d, event, pipeOk))
    ensures Accept(roots, d, event, pipeOk).loop.written != d.loop.written ==> event == Initialized
  {
  }

  lemma PollTelling(c: Config, d: Daemon, system: System, outcome: Outcome, move: Move)
    requires Telling(d) && move.PollHotplug? && d.stage.Looping?
    requires system == Apply(c, d.system, Turn(move.env)) && outcome == Advance(c, d.system.machine, move.env).1
    ensures var polled := d.(system := system);
            && (outcome == Yield(Initialized) ==> d.loop.notifier && !system.machine.phase.Draining?)
            && (outcome.Yield? && outcome.event != Initialized ==> Telling(polled))
            && (outcome.Silent? || outcome.Wait? || outcome.Over? ==> Telling(polled))
  {
    AdvanceFields(c, d.system.machine, move.env);
    if outcome.Yield? {
      AdvanceYields(c, d.system.machine, move.env);
    }
  }

  lemma RespondTelling(roots: seq<Path>, d: Daemon, outcome: Outcome, pipeOk: bool)
    requires d.stage.Looping? && d.loop.written <= (if d.loop.notifier then 0 else 1)
    requires outcome == Yield(Initialized) ==> d.loop.notifier && !d.system.machine.phase.Draining?
    requires outcome.Yield? && outcome.event != Initialized ==> Telling(d)
    requires outcome.Silent? || outcome.Wait? || outcome.Over? ==> Telling(d)
    ensures Telling(Respond(roots, d, outcome, pipeOk))
    ensures Respond(roots, d, outcome, pipeOk).loop.written != d.loop.written ==> outcome == Yield(Initialized)
  {
    if outcome.Yield? {
      AcceptTelling(roots, d, outcome.event, pipeOk);
    }
  }

  lemma QuietTelling(c: Config, d: Daemon, move: Move)
    requires Telling(d) && (move.PollHotplug? ==> !d.stage.Looping?)
    ensures Telling(Moved(c, d, move)) && Moved(c, d, move).loop.written == d.loop.written
  {
  }

  lemma TellingMove(c: Config, d: Daemon, move: Move)
    requires Telling(d)
    ensures Telling(Moved(c, d, move))
    ensures Moved(c, d, move).loop.written != d.loop.written ==>
              && move.PollHotplug? && d.stage.Looping?
              && Advance(c, d.system.machine, move.env).1 == Yield(Initialized)
  {
    if move.PollHotplug? && d.stage.Looping? {
      var system, outcome := Apply(c, d.system, Turn(move.env)), Advance(c, d.system.machine, move.env).1;
      PollResponds(c, d, system, outcome, move);
      PollTelling(c, d, system, outcome, move);
      RespondTelling(d.system.machine.mon.roots, d.(system := system), outcome, move.pipeOk);
    } else {
      QuietTelling(c, d, move);
    }
  }

  /** The loop never sees `Initialized` a second time: that exit is unreachable. */
  lemma InitializedOnce(c: Config, d: Daemon, env: Env)
    requires Telling(d) && d.stage.Looping?
    requires Advance(c, d.system.machine, env).1 == Yield(Initialized)
    ensures d.loop.notifier
  {
    AdvanceYields(c, d.system.machine, env);
  }

  /** The system is one that a run of the pipeline reaches. */
  ghost predicate FromRun(c: Config, start: System, now: System) {
    exists steps :: Possible(c, start, steps) && Run(c, start, steps) == now
  }

  /** Host events that can happen. */
  predicate Plausible(c: Config, d: Daemon, moves: seq<Move>) {
    moves == [] ||
    (Plausible(c, d, moves[..|moves| - 1]) &&
     (moves[|moves| - 1].Host? ==>
        Enabled(Monitor.Host(Moves(c, d, moves[..|moves| - 1]).system.past.history), moves[|moves| - 1].e)))
  }

  lemma FromRunMore(c: Config, start: System, now: System, step: Step)
    requires FromRun(c, start, now)
    requires step.HostEvent? ==> Enabled(Monitor.Host(now.past.history), step.e)
    ensures FromRun(c, start, Apply(c, now, step))
  {
    var steps :| Possible(c, start, steps) && Run(c, start, steps) == now;
    var more := steps + [step];
    assert more[..|more| - 1] == steps;
    assert Possible(c, start, more) && Run(c, start, more) == Apply(c, now, step);
  }

  lemma SystemMoves(c: Config, d: Daemon, move: Move)
    ensures Moved(c, d, move).system ==
            if move.Host? && !d.stage.Setup? then Apply(c, d.system, HostEvent(move.e))
            else if move.PollHotplug? && d.stage.Looping? then Apply(c, d.system, Turn(move.env))
            else d.system
  {
  }

  lemma FromRunMove(c: Config, start: System, d: Daemon, move: Move)
    requires FromRun(c, start, d.system)
    requires move.Host? ==> Enabled(Monitor.Host(d.system.past.history), move.e)
    ensures FromRun(c, start, Moved(c, d, move).system)
  {
    SystemMoves(c, d, move);
    if move.Host? {
      FromRunMore(c, start, d.system, HostEvent(move.e));
    } else if move.PollHotplug? {
      FromRunMore(c, start, d.system, Turn(move.env));
    }
  }

  /** What the daemon makes of the pipeline is a run of the pipeline. */
  lemma {:induction false} DaemonRuns(c: Config, system: System, moves: seq<Move>)
    requires Plausible(c, Begin(system), moves) && system.machine.phase.Draining?
    ensures FromRun(c, system, Moves(c, Begin(system), moves).system)
    ensures Telling(Moves(c, Begin(system), moves))
    decreases |moves|
  {
    if moves == [] {
      assert Possible(c, system, []) && Run(c, system, []) == system;
    } else {
      var before, move := Moves(c, Begin(system), moves[..|moves| - 1]), moves[|moves| - 1];
      DaemonRuns(c, system, moves[..|moves| - 1]);
      TellingMove(c, before, move);
      FromRunMove(c, system, before, move);
    }
  }

  lemma Writing(c: Config, d: Daemon, move: Move)
    requires Telling(d) && Moved(c, d, move).loop.written != d.loop.written
    ensures move.PollHotplug? && Advance(c, d.system.machine, move.env).1 == Yield(Initialized)
    ensures d.loop.written == 0 && Moved(c, d, move).loop.written == 1
    ensures Moved(c, d, move).system.machine == Advance(c, d.system.machine, move.env).0
  {
    TellingMove(c, d, move);
    SystemMoves(c, d, move);
    InitializedOnce(c, d, move.env);
  }

  /** Under every interleaving and whatever the host does, when a move writes the byte that lets the caller start
    the entrypoint, the attached devices are exactly the host's present devices below the roots that have a
    node, and each start-up device is attached or has been removed since. The byte is written at most once. */
  lemma AttachedBeforeEntrypoint(c: Config, system: System, moves: seq<Move>, move: Move, scan: seq<Device>,
                                 files: Files, mounts: Mounts.Mount)
    requires Initial(system, scan, files, mounts)
    requires Plausible(c, Begin(system), moves)
    requires Moved(c, Moves(c, Begin(system), moves), move).loop.written
             != Moves(c, Begin(system), moves).loop.written
    ensures var before := Moves(c, Begin(system), moves);
            var after := Moved(c, before, move);
            && before.loop.written == 0 && after.loop.written == 1
            && after.system.machine.mon.enumerated == []
            && IsAttachedOf(c.rules, Restrict(Monitor.Host(before.system.past.history), system.machine.mon.roots),
                            after.system.machine.plant.devices)
            && Serves(system.machine.mon.roots, Monitor.Host(before.system.past.history),
                      after.system.machine.plant.devices)
            && forall d | d in scan && Below(system.machine.mon.roots, d.syspath) && d.node.Some? ::
                 IsAttachedAs(after.system.machine.plant, d) || Remove(d) in before.system.log
  {
    var before := Moves(c, Begin(system), moves);
    DaemonRuns(c, system, moves);
    Writing(c, before, move);
    var steps :| Possible(c, system, steps) && Run(c, system, steps) == before.system;
    RunAttaches(c, system, steps, scan, files, mounts, move.env);
  }

  /** If, besides, devices share neither numbers nor paths, each start-up device is usable or has been removed
    since, whatever was in the container's `/dev` before. */
  lemma DevicesBeforeEntrypoint(c: Config, system: System, moves: seq<Move>, move: Move, scan: seq<Device>,
                                files: Files, mounts: Mounts.Mount)
    requires Initial(system, scan, files, mounts)
    requires Plausible(c, Begin(system), moves)
    requires Assumes(Moves(c, Begin(system), moves).system.past, system.machine.mon.roots, DistinctNumbers())
    requires Assumes(Moves(c, Begin(system), moves).system.past, system.machine.mon.roots, Apart(c.rules))
    requires Moved(c, Moves(c, Begin(system), moves), move).loop.written
             != Moves(c, Begin(system), moves).loop.written
    ensures var before := Moves(c, Begin(system), moves);
            var after := Moved(c, before, move);
            && before.loop.written == 0 && after.loop.written == 1
            && after.system.machine.mon.enumerated == []
            && IsAttachedOf(c.rules, Restrict(Monitor.Host(before.system.past.history), system.machine.mon.roots),
                            after.system.machine.plant.devices)
            && forall d | d in scan && Below(system.machine.mon.roots, d.syspath) && d.node.Some? ::
                 Usable(c, after.system.machine.plant, d) || Remove(d) in before.system.log
  {
    var before := Moves(c, Begin(system), moves);
    AttachedBeforeEntrypoint(c, system, moves, move, scan, files, mounts);
    DaemonRuns(c, system, moves);
    Writing(c, before, move);
    var steps :| Possible(c, system, steps) && Run(c, system, steps) == before.system;
    RunInitializes(c, system, steps, scan, files, mounts, move.env);
  }

  // ----- Nothing is taken after the container has stopped or a root device is gone -----

  /** Every event taken but the last lets the loop go on, and while the loop runs the last one does too. */
  ghost predicate Stops(roots: seq<Path>, d: Daemon) {
    && (d.stage.Setup? || d.stage.Looping? ==> NoneTerminal(roots, d.loop.consumed))
    && (d.loop.consumed != [] ==> NoneTerminal(roots, d.loop.consumed[..|d.loop.consumed| - 1]))
    && (d.stage.Killing? || (d.stage.Leaving? && d.stage.ok) ==>
          d.loop.consumed != [] && Terminal(roots, d.loop.consumed[|d.loop.consumed| - 1]))
  }

  lemma AcceptStops(roots: seq<Path>, d: Daemon, event: Event, pipeOk: bool)
    requires Stops(roots, d) && d.stage.Looping?
    ensures Stops(roots, Accept(roots, d, event, pipeOk))
  {
    var (loop, reaction) := React(roots, d.loop, event, pipeOk);
    ReactConsumes(roots, d.loop, event, pipeOk);
    var e := Accept(roots, d, event, pipeOk);
    assert e.loop == loop;
    match reaction {
      case Continue => assert e.stage == d.stage;
      case KillAndWait => assert e.stage == Killing;
      case Break => assert Terminal(roots, event);
      case Bail => assert e.stage.Leaving? && !e.stage.ok;
    }
  }

  lemma RespondStops(roots: seq<Path>, d: Daemon, outcome: Outcome, pipeOk: bool)
    requires Stops(roots, d) && d.stage.Looping?
    ensures Stops(roots, Respond(roots, d, outcome, pipeOk))
  {
    if outcome.Yield? {
      AcceptStops(roots, d, outcome.event, pipeOk);
    }
  }

  lemma QuietStops(c: Config, d: Daemon, move: Move)
    requires Stops(d.system.machine.mon.roots, d)
    requires (move.PollHotplug? || move.PollContainer?) ==> !d.stage.Looping?
    ensures Stops(d.system.machine.mon.roots, Moved(c, d, move))
    ensures Moved(c, d, move).loop == d.loop
  {
  }

  lemma StopsMove(c: Config, d: Daemon, move: Move)
    requires Stops(d.system.machine.mon.roots, d)
    ensures Stops(d.system.machine.mon.roots, Moved(c, d, move))
    ensures Moved(c, d, move).loop.consumed != d.loop.consumed ==> d.stage.Looping?
  {
    if !d.stage.Looping? || !(move.PollHotplug? || move.PollContainer?) {
      QuietStops(c, d, move);
    } else if move.PollHotplug? {
      PollStops(c, d, move);
    } else {
      AcceptStops(d.system.machine.mon.roots, d, Stopped, true);
    }
  }

  lemma PollStops(c: Config, d: Daemon, move: Move)
    requires Stops(d.system.machine.mon.roots, d) && d.stage.Looping? && move.PollHotplug?
    ensures Stops(d.system.machine.mon.roots, Moved(c, d, move))
  {
    var system, outcome := Apply(c, d.system, Turn(move.env)), Advance(c, d.system.machine, move.env).1;
    PollResponds(c, d, system, outcome, move);
    RespondStops(d.system.machine.mon.roots, d.(system := system), outcome, move.pipeOk);
  }

  /** In every run the supervisor takes no event after the first `Stopped` or the first removal of a root
    device, and exits normally only after one of them. */
  lemma {:induction false} DaemonStops(c: Config, system: System, moves: seq<Move>)
    requires OnTrack(system) && Plausible(c, Begin(system), moves) && system.machine.phase.Draining?
    ensures Stops(system.machine.mon.roots, Moves(c, Begin(system), moves))
    decreases |moves|
  {
    if moves != [] {
      var init := moves[..|moves| - 1];
      DaemonStops(c, system, init);
      DaemonRuns(c, system, init);
      var before := Moves(c, Begin(system), init);
      var steps :| Possible(c, system, steps) && Run(c, system, steps) == before.system;
      RunOnTrack(c, system, steps);
      StopsMove(c, before, moves[|moves| - 1]);
    }
  }

  // ----- The daemon's loop is the loop -----

  /** The items that have come so far lead the loop from its start to the daemon's state, and to the daemon's
    exit: none while the loop runs; while the container is being waited for, the one the wait leads to; and
    after leaving the one the daemon left with, unless it left before the loop. */
  ghost predicate FollowsLoop(roots: seq<Path>, d: Daemon, items: seq<Item>) {
    var start := LoopState(true, 0, []);
    Events(items) == d.loop.consumed &&
    match d.stage
    case Setup(_) => !d.looped && items == [] && d.loop == start
    case Looping => d.looped && forall w :: Loop(roots, start, items, w) == (d.loop, Running)
    case Killing =>
      d.looped && forall w :: Loop(roots, start, items, w) == (d.loop, if w then Normal else Failure)
    case Leaving(_, ok) =>
      if d.looped then exists w :: Loop(roots, start, items, w) == (d.loop, if ok then Normal else Failure)
      else !ok && items == [] && d.loop == start
  }

  ghost predicate InLoop(roots: seq<Path>, d: Daemon) {
    exists items :: FollowsLoop(roots, d, items)
  }

  /** One item more after a loop that is still running. */
  lemma {:induction false} LoopMore(roots: seq<Path>, l: LoopState, items: seq<Item>, item: Item, w: bool)
    requires Loop(roots, l, items, w).1 == Running
    ensures Events(items + [item]) == Events(items) + if item.Broken? then [] else [item.event]
    ensures Loop(roots, l, items + [item], w) == Loop(roots, Loop(roots, l, items, w).0, [item], w)
    decreases |items|
  {
    var more := items + [item];
    if items == [] {
      assert more == [item];
    } else {
      var l' := React(roots, l, items[0].event, items[0].pipeOk).0;
      assert more[1..] == items[1..] + [item];
      LoopMore(roots, l', items[1..], item, w);
    }
  }

  lemma OneEvent(roots: seq<Path>, l: LoopState, event: Event, pipeOk: bool, w: bool)
    ensures var (l', reaction) := React(roots, l, event, pipeOk);
            Loop(roots, l, [Next(event, pipeOk)], w) ==
            (l', match reaction
                 case Continue => Running
                 case KillAndWait => if w then Normal else Failure
                 case Break => Normal
                 case Bail => Failure)
  {
    assert [Next(event, pipeOk)][1..] == [];
  }

  lemma AcceptInLoop(roots: seq<Path>, d: Daemon, event: Event, pipeOk: bool)
    requires InLoop(roots, d) && d.stage.Looping?
    ensures InLoop(roots, Accept(roots, d, event, pipeOk))
  {
    var items :| FollowsLoop(roots, d, items);
    var start, more := LoopState(true, 0, []), items + [Next(event, pipeOk)];
    forall w: bool
      ensures Loop(roots, start, more, w) == Loop(roots, d.loop, [Next(event, pipeOk)], w)
      ensures Events(more) == Events(items) + [event]
    {
      LoopMore(roots, start, items, Next(event, pipeOk), w);
    }
    OneEvent(roots, d.loop, event, pipeOk, true);
    OneEvent(roots, d.loop, event, pipeOk, false);
    assert Events(more) == Events(items) + [event] by {
      LoopMore(roots, start, items, Next(event, pipeOk), true);
    }
    assert FollowsLoop(roots, Accept(roots, d, event, pipeOk), more);
  }

  /** A stream that breaks ends the loop with a failure. */
  lemma BrokenInLoop(roots: seq<Path>, d: Daemon)
    requires InLoop(roots, d) && d.stage.Looping?
    ensures InLoop(roots, Leave(d, false))
  {
    var items :| FollowsLoop(roots, d, items);
    LoopMore(roots, LoopState(true, 0, []), items, Broken, true);
    assert FollowsLoop(roots, Leave(d, false), items + [Broken]);
  }

  lemma RespondInLoop(roots: seq<Path>, d: Daemon, outcome: Outcome, pipeOk: bool)
    requires InLoop(roots, d) && d.stage.Looping?
    ensures InLoop(roots, Respond(roots, d, outcome, pipeOk))
  {
    match outcome {
      case Yield(event) => AcceptInLoop(roots, d, event, pipeOk);
      case Failed(_) => BrokenInLoop(roots, d);
      case Silent =>
      case Wait =>
      case Over =>
    }
  }

  /** The wait for the killed container decides the exit. */
  lemma KilledInLoop(roots: seq<Path>, d: Daemon, ok: bool)
    requires InLoop(roots, d) && d.stage.Killing?
    ensures InLoop(roots, Leave(d, ok))
  {
    var items :| FollowsLoop(roots, d, items);
    assert Loop(roots, LoopState(true, 0, []), items, ok) == (d.loop, if ok then Normal else Failure);
    assert FollowsLoop(roots, Leave(d, ok), items);
  }

  lemma SameInLoop(roots: seq<Path>, d: Daemon, e: Daemon)
    requires InLoop(roots, d) && e.loop == d.loop && e.looped == d.looped
    requires e.stage == d.stage || (e.stage.Leaving? && d.stage.Leaving? && e.stage.ok == d.stage.ok)
    ensures InLoop(roots, e)
  {
    var items :| FollowsLoop(roots, d, items);
    assert FollowsLoop(roots, e, items);
  }

  lemma PrepareInLoop(roots: seq<Path>, d: Daemon, works: bool)
    requires InLoop(roots, d) && d.stage.Setup?
    ensures InLoop(roots, PrepareNext(d, works))
  {
    assert FollowsLoop(roots, PrepareNext(d, works), []);
  }

  lemma MoveInLoop(c: Config, d: Daemon, move: Move)
    requires InLoop(d.system.machine.mon.roots, d)
    ensures InLoop(d.system.machine.mon.roots, Moved(c, d, move))
  {
    var roots := d.system.machine.mon.roots;
    if move.PollHotplug? && d.stage.Looping? {
      var system, outcome := Apply(c, d.system, Turn(move.env)), Advance(c, d.system.machine, move.env).1;
      PollResponds(c, d, system, outcome, move);
      SameInLoop(roots, d, d.(system := system));
      RespondInLoop(roots, d.(system := system), outcome, move.pipeOk);
    } else if move.PollContainer? && d.stage.Looping? && d.watcher.Reported? {
      AcceptInLoop(roots, d, Stopped, true);
    } else if move.PollContainer? && d.stage.Looping? && d.watcher.Lost? {
      BrokenInLoop(roots, d);
    } else if move.AwaitKilled? && d.stage.Killing? && !d.watcher.Watching? {
      KilledInLoop(roots, d, d.watcher.Reported?);
    } else if move.Prepare? && d.stage.Setup? {
      PrepareInLoop(roots, d, move.works);
    } else {
      QuietMove(c, d, move);
      SameInLoop(roots, d, Moved(c, d, move));
    }
  }

  /** Every other move leaves the loop alone. */
  lemma QuietMove(c: Config, d: Daemon, move: Move)
    requires !((move.PollHotplug? || (move.PollContainer? && !d.watcher.Watching?)) && d.stage.Looping?)
    requires !(move.AwaitKilled? && d.stage.Killing? && !d.watcher.Watching?)
    requires !(move.Prepare? && d.stage.Setup?)
    ensures var e := Moved(c, d, move);
            && e.loop == d.loop && e.looped == d.looped
            && (e.stage == d.stage || (e.stage.Leaving? && d.stage.Leaving? && e.stage.ok == d.stage.ok))
  {
  }

  /** In every run, what the daemon's moves do to the loop is what the loop does over the events taken. */
  lemma {:induction false} DaemonIsLoop(c: Config, system: System, moves: seq<Move>)
    requires OnTrack(system) && Plausible(c, Begin(system), moves) && system.machine.phase.Draining?
    ensures InLoop(system.machine.mon.roots, Moves(c, Begin(system), moves))
    decreases |moves|
  {
    if moves == [] {
      assert FollowsLoop(system.machine.mon.roots, Begin(system), []);
    } else {
      var init := moves[..|moves| - 1];
      DaemonIsLoop(c, system, init);
      DaemonRuns(c, system, init);
      var before := Moves(c, Begin(system), init);
      var steps :| Possible(c, system, steps) && Run(c, system, steps) == before.system;
      RunOnTrack(c, system, steps);
      MoveInLoop(c, before, moves[|moves| - 1]);
    }
  }
}
