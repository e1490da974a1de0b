/** When processing succeeds: the exact conditions under which a device is attached and detached. */
module Progress {
  import opened Devices
  import opened Monitor
  import opened DeviceFilter
  import opened ContainerState
  import opened Controller
  import opened Effects
  import opened Pipeline

  // ----- Files -----

  /** No path lies strictly above another one; the same path may occur twice. */
  predicate Unrelated(paths: seq<Path>) {
    forall a, b | a in paths && b in paths :: !StrictlyAbove(a, b)
  }

  /** No call from number `first` up to `end` fails. */
  predicate AllFine(env: Env, first: nat, end: nat) {
    forall call: nat | first <= call < end :: env.At(call) == Fine
  }

  /** None of these calls is kept from the container. */
  predicate AllEntered(env: Env, first: nat, end: nat) {
    forall call: nat | first <= call < end :: env.At(call) != NotEntered
  }

  ghost predicate AllPlaceable(files: Files, paths: seq<Path>) {
    forall p | p in paths :: Placeable(files, p)
  }

  lemma FirstPlaceable(files: Files, placed: Files, first: Path, rest: seq<Path>)
    requires forall p | p in rest :: Placeable(placed, p) <==> Placeable(files, p)
    ensures AllPlaceable(files, [first] + rest) <==> Placeable(files, first) && AllPlaceable(placed, rest)
  {
    assert first in [first] + rest && forall p | p in rest :: p in [first] + rest;
  }

  lemma {:induction false} LinksSucceedIff(files: Files, target: Path, links: seq<Path>, env: Env, call: nat)
    requires Unrelated(links)
    ensures LinkAll(files, target, links, env, call).1.Ok? <==>
            AllFine(env, call, call + |links|) && AllPlaceable(files, links)
    decreases |links|
  {
    if links != [] {
      var first, rest := links[0], links[1..];
      var (placed, r) := Place(files, first, Link(target), env.At(call));
      PlaceSucceedsIff(files, first, Link(target), env.At(call));
      if r.Ok? {
        LinksSucceedIff(placed, target, rest, env, call + 1);
        forall p | p in rest ensures Placeable(placed, p) <==> Placeable(files, p) {
          PlaceKeepsPlaceable(files, first, Link(target), env.At(call), p);
        }
        FirstPlaceable(files, placed, first, rest);
        assert links == [first] + rest;
      }
    }
  }

  /** The paths a device needs: its node's, then those of its symlinks. */
  function PathsOf(rules: seq<Rule>, d: Device): seq<Path>
    requires d.node.Some?
  {
    [d.node.value.path] + MatchingLinks(rules, d)
  }

  /** Files are added if and only if the owner exists, no call fails and each place can be taken. */
  lemma FilesSucceedIff(c: Config, files: Files, d: Device, env: Env)
    requires d.node.Some? && Unrelated(PathsOf(c.rules, d))
    ensures AddFiles(c, files, d, d.node.value, env).1.Ok? <==>
            && c.owner.Some?
            && AllFine(env, 0, |PathsOf(c.rules, d)|) && AllPlaceable(files, PathsOf(c.rules, d))
  {
    var node, links := d.node.value, MatchingLinks(c.rules, d);
    var (placed, made) := PlaceNode(files, node, c.owner, env.At(0));
    PlaceNodeSucceedsIff(files, node, c.owner, env.At(0));
    assert PathsOf(c.rules, d)[0] == node.path && forall p | p in links :: p in PathsOf(c.rules, d);
    if made.Ok? {
      LinksSucceedIff(placed, node.path, links, env, 1);
      forall p | p in links ensures Placeable(placed, p) <==> Placeable(files, p) {
        PlaceKeepsPlaceable(files, node.path, Node(node.ty, node.major, node.minor, c.owner), env.At(0), p);
      }
      FirstPlaceable(files, placed, node.path, links);
    }
  }

  // ----- Events -----

  /** There is room for the number: it has an entry, or there are fewer than 256. */
  predicate HasRoomFor(perms: Permissions, k: Key) {
    k in perms || |perms| < 256
  }

  /** A device with a node is attached if and only if there is room for its number, the container's user exists
    on the host, each of its paths can be taken, and no call fails, that of its message included. Whether its
    sysfs directory can be made writable does not matter. */
  lemma AddSucceedsIff(c: Config, s: Plant, d: Device, env: Env)
    requires d.node.Some? && Unrelated(PathsOf(c.rules, d))
    ensures AddDevice(c, s, d, env).1.Ok? <==>
            && HasRoomFor(s.perms, KeyOf(d.node.value)) && c.owner.Some?
            && AllPlaceable(s.files, PathsOf(c.rules, d))
            && AllFine(env, 0, |PathsOf(c.rules, d)| + 1)
  {
    FilesSucceedIff(c, s.files, d, env);
    AddSteps(c, s, d, env);
  }

  lemma AddSteps(c: Config, s: Plant, d: Device, env: Env)
    requires d.node.Some?
    ensures AddDevice(c, s, d, env).1.Ok? <==>
            && HasRoomFor(s.perms, KeyOf(d.node.value))
            && AddFiles(c, s.files, d, d.node.value, env).1.Ok?
            && env.At(|PathsOf(c.rules, d)|) == Fine
  {
  }

  /** An attached device is detached if and only if its number has an entry and no call is kept from the
    container, that of its message included. */
  lemma RemoveSucceedsIff(s: Plant, p: Path, env: Env)
    requires p in s.devices && s.devices[p].device.node.Some?
    ensures RemoveDevice(s, p, env).1.Ok? <==>
            && KeyOf(s.devices[p].device.node.value) in s.perms
            && (s.devices[p].device.syspath in s.bound ==> env.At(0) != NotEntered)
            && AllEntered(env, 1, 2 + |s.devices[p].symlinks|)
            && env.At(2 + |s.devices[p].symlinks|) == Fine
  {
    var dev := s.devices[p];
    DeletesSucceedIff(Delete(s.files, dev.device.node.value.path, env.At(1)).0, dev.symlinks, env, 2);
    RemoveSteps(s, p, env);
  }

  lemma {:induction false} DeletesSucceedIff(files: Files, paths: seq<Path>, env: Env, call: nat)
    ensures DeleteAll(files, paths, env, call).1.Ok? <==> AllEntered(env, call, call + |paths|)
    decreases |paths|
  {
    if paths != [] {
      DeletesSucceedIff(Delete(files, paths[0], env.At(call)).0, paths[1..], env, call + 1);
    }
  }

  lemma RemoveSteps(s: Plant, p: Path, env: Env)
    requires p in s.devices && s.devices[p].device.node.Some?
    ensures var dev := s.devices[p];
            RemoveDevice(s, p, env).1.Ok? <==>
            && (dev.device.syspath in s.bound ==> env.At(0) != NotEntered)
            && KeyOf(dev.device.node.value) in s.perms
            && env.At(1) != NotEntered
            && DeleteAll(Delete(s.files, dev.device.node.value.path, env.At(1)).0, dev.symlinks, env, 2).1.Ok?
            && env.At(2 + |dev.symlinks|) == Fine
  {
  }

  // ----- Turns -----

  /** The event is an addition that cannot succeed even if no call fails. */
  ghost predicate Hopeless(c: Config, s: Plant, e: DeviceEvent) {
    e.Add? && e.dev.node.Some? &&
    (|s.devices| >= 256 || c.owner.None? || !AllPlaceable(s.files, PathsOf(c.rules, e.dev)))
  }

  /** With distinct numbers and no failing call, a turn of any run fails if and only if it adds a device while 256
    are attached, for a user without a counterpart, or at a path that cannot be taken. */
  lemma TurnFailsIff(c: Config, s: System, env: Env)
    requires Permits(c, s) && Assumes(s.past, s.machine.mon.roots, DistinctNumbers()) && !s.machine.phase.Ended?
    requires env.fault == Fine
    requires Next(s.machine).1.Some? && Next(s.machine).1.value.Add? && Next(s.machine).1.value.dev.node.Some? ==>
               Unrelated(PathsOf(c.rules, Next(s.machine).1.value.dev))
    ensures Advance(c, s.machine, env).1.Failed? <==>
            Next(s.machine).1.Some? && Hopeless(c, s.machine.plant, Next(s.machine).1.value)
  {
    NextTracks(s.machine, s.past);
    AdvanceFields(c, s.machine, env);
    var e := Next(s.machine).1;
    if e.Some? {
      TakenRelated(s.machine, s.past, DistinctNumbers());
      if e.value.dev.node.None? {
        assert e.value.dev.syspath !in s.machine.plant.devices;
        Ignored(c, s.machine.plant, e.value, env);
      } else if e.value.Add? {
        AddFailsIff(c, Holding(s), s.machine.plant, e.value.dev, env);
      } else {
        RemoveNeverFails(c, Holding(s), s.machine.plant, e.value.dev, env);
      }
    }
  }

  lemma AddFailsIff(c: Config, held: Registry, s: Plant, d: Device, env: Env)
    requires Attaches(c.rules, held, s) && Grants(held, s) && d.syspath !in held && d.node.Some?
    requires forall p | p in held :: KeysApart(held[p], d)
    requires env.fault == Fine && Unrelated(PathsOf(c.rules, d))
    ensures AddDevice(c, s, d, env).1.Err? <==> Hopeless(c, s, Add(d))
  {
    UnusedKey(held, s.perms, d);
    AddSucceedsIff(c, s, d, env);
  }

  lemma RemoveNeverFails(c: Config, held: Registry, s: Plant, d: Device, env: Env)
    requires Attaches(c.rules, held, s) && Grants(held, s)
    requires d.syspath in held && held[d.syspath] == d && d.node.Some?
    requires forall p | p in held :: KeysApart(held[p], d)
    requires env.fault == Fine
    ensures RemoveDevice(s, d.syspath, env).1.Ok?
  {
    OwnKey(held, d);
    assert s.devices[d.syspath].device == d;
    RemoveSucceedsIff(s, d.syspath, env);
  }
}
