/** The hotplug controller: device events applied to a running container, and undone again. */
module Controller {
  import opened Devices
  import opened Monitor
  import opened DeviceFilter
  import opened ContainerState
  import Mounts
  import opened Uevent

  // ----- Configuration, state and environment -----

  /** A USB interface that gets a well-known path. */
  datatype Rule = Rule(vid: Bytes, pid: Bytes, interface: Bytes, path: Path)

  /** `owner` is the host owner for new device nodes, if the container's user has one. */
  datatype Config = Config(rules: seq<Rule>, sysfs: bool, owner: Option<(U32, U32)>)

  datatype Attached = Attached(device: Device, symlinks: seq<Path>)

  datatype Event = Attach(dev: Attached) | Detach(dev: Attached) | Initialized | Stopped

  /** Everything the controller keeps or changes. */
  datatype Plant = Plant(
    devices: map<Path, Attached>,
    bound: set<Path>,
    perms: Permissions,
    files: Files,
    mounts: Mounts.Mount,
    number: nat,
    sent: seq<Bytes>)

  /** What the environment does to one event's foreign calls, counted from 0: call number `at` meets
    `fault`, and `bind` tells whether making sysfs writable works. */
  datatype Env = Env(at: nat, fault: Fault, bind: bool) {
    function At(call: nat): Fault {
      if call == at then fault else Fine
    }
  }

  function Matches(rule: Rule, d: Device): bool {
    && PropertyValue(d.properties, Ascii("ID_VENDOR_ID")) == Some(rule.vid)
    && PropertyValue(d.properties, Ascii("ID_MODEL_ID")) == Some(rule.pid)
    && PropertyValue(d.properties, Ascii("ID_USB_INTERFACE_NUM")) == Some(rule.interface)
  }

  /** The symlinks a device gets, in the order of the rules. */
  function MatchingLinks(rules: seq<Rule>, d: Device): seq<Path> {
    if rules == [] then []
    else
      var last := rules[|rules| - 1];
      MatchingLinks(rules[..|rules| - 1], d) + if Matches(last, d) then [last.path] else []
  }

  /** The first property called `name` has this value. */
  ghost predicate HasValue(d: Device, name: Bytes, value: Bytes) {
    exists i | 0 <= i < |d.properties| ::
      && d.properties[i].name == name && d.properties[i].value == value
      && forall j | 0 <= j < i :: d.properties[j].name != name
  }

  lemma {:induction false} FirstValue(properties: seq<Property>, name: Bytes, value: Bytes)
    ensures PropertyValue(properties, name) == Some(value) <==>
            exists i | 0 <= i < |properties| ::
              && properties[i].name == name && properties[i].value == value
              && forall j | 0 <= j < i :: properties[j].name != name
    decreases |properties|
  {
    if properties != [] && properties[0].name != name {
      var rest := properties[1..];
      FirstValue(rest, name, value);
      forall i | 0 <= i < |rest| && rest[i].name == name && forall j | 0 <= j < i :: rest[j].name != name
        ensures forall j | 0 <= j < i + 1 :: properties[j].name != name
      {
        forall j | 0 <= j < i + 1 ensures properties[j].name != name {
          if j > 0 { assert properties[j] == rest[j - 1]; }
        }
      }
      forall i | 0 < i < |properties| && forall j | 0 <= j < i :: properties[j].name != name
        ensures properties[i] == rest[i - 1] && forall j | 0 <= j < i - 1 :: rest[j].name != name
      {
        forall j | 0 <= j < i - 1 ensures rest[j].name != name { assert rest[j] == properties[j + 1]; }
      }
    }
  }

  /** A rule applies exactly when vendor, product and interface number are the device's. */
  ghost predicate Applies(rule: Rule, d: Device) {
    && HasValue(d, Ascii("ID_VENDOR_ID"), rule.vid)
    && HasValue(d, Ascii("ID_MODEL_ID"), rule.pid)
    && HasValue(d, Ascii("ID_USB_INTERFACE_NUM"), rule.interface)
  }

  lemma MatchesExactly(rule: Rule, d: Device)
    ensures Matches(rule, d) <==> Applies(rule, d)
  {
    FirstValue(d.properties, Ascii("ID_VENDOR_ID"), rule.vid);
    FirstValue(d.properties, Ascii("ID_MODEL_ID"), rule.pid);
    FirstValue(d.properties, Ascii("ID_USB_INTERFACE_NUM"), rule.interface);
  }

  /** The symlinks are the paths of exactly the rules that apply, one for each, in their order. */
  lemma {:induction false} LinkIndices(rules: seq<Rule>, d: Device) returns (indices: seq<nat>)
    ensures Increasing(indices)
    ensures forall i: nat :: i in indices <==> i < |rules| && Applies(rules[i], d)
    ensures |MatchingLinks(rules, d)| == |indices|
    ensures forall j | 0 <= j < |indices| ::
              indices[j] in indices && MatchingLinks(rules, d)[j] == rules[indices[j]].path
    decreases |rules|
  {
    if rules == [] {
      indices := [];
    } else {
      var init, last := rules[..|rules| - 1], rules[|rules| - 1];
      var before := LinkIndices(init, d);
      MatchesExactly(last, d);
      if Matches(last, d) {
        indices := before + [|rules| - 1];
        IncreasingMore(before, |rules| - 1);
      } else {
        indices := before;
      }
      assert forall j | 0 <= j < |before| :: before[j] in before;
    }
  }

  // ----- One event -----

  function LinkAll(files: Files, target: Path, links: seq<Path>, env: Env, call: nat): (Files, Result<()>)
    decreases |links|
  {
    if links == [] then (files, Ok(()))
    else
      var (placed, r) := Place(files, links[0], Link(target), env.At(call));
      if r.Err? then (placed, r) else LinkAll(placed, target, links[1..], env, call + 1)
  }

  function DeleteAll(files: Files, paths: seq<Path>, env: Env, call: nat): (Files, Result<()>)
    decreases |paths|
  {
    if paths == [] then (files, Ok(()))
    else
      var (deleted, r) := Delete(files, paths[0], env.At(call));
      if r.Err? then (deleted, r) else DeleteAll(deleted, paths[1..], env, call + 1)
  }

  const ADD: Bytes := Ascii("add")
  const REMOVE: Bytes := Ascii("remove")

  /** The node first, then its symlinks. */
  function AddFiles(c: Config, files: Files, d: Device, node: DevNode, env: Env): (Files, Result<()>) {
    var (placed, made) := PlaceNode(files, node, c.owner, env.At(0));
    if made.Err? then (placed, made)
    else LinkAll(placed, node.path, MatchingLinks(c.rules, d), env, 1)
  }

  function RemoveFiles(files: Files, dev: Attached, node: DevNode, env: Env): (Files, Result<()>) {
    var (deleted, r) := Delete(files, node.path, env.At(1));
    if r.Err? then (deleted, r) else DeleteAll(deleted, dev.symlinks, env, 2)
  }

  function BindDevice(c: Config, s: Plant, syspath: Path, env: Env): Plant {
    if c.sysfs && env.bind
    then s.(mounts := Mounts.Bind(s.mounts, syspath), bound := s.bound + {syspath})
    else s
  }

  function UnbindDevice(s: Plant, syspath: Path): Plant {
    s.(mounts := if syspath in s.bound then Mounts.Unbind(s.mounts, syspath) else s.mounts,
       bound := s.bound - {syspath})
  }

  function AddDevice(c: Config, s: Plant, d: Device, env: Env): (Plant, Result<Option<Event>>) {
    if d.node.None? then (s, Ok(None))
    else
      var links := MatchingLinks(c.rules, d);
      var (perms, granted) := Permit(s.perms, KeyOf(d.node.value), ALL);
      if granted.Err? then (s, Err(granted.error))
      else
        var (files, placed) := AddFiles(c, s.files, d, d.node.value, env);
        var s1 := s.(perms := perms, files := files);
        if placed.Err? then (s1, Err(placed.error))
        else
          var s2 := BindDevice(c, s1, d.syspath, env).(number := NextNumber(s.number));
          if env.At(1 + |links|) != Fine then (s2, Err(NotSent))
          else
            var dev := Attached(d, links);
            (s2.(sent := s.sent + [Message(ADD, s2.number, d)], devices := s.devices[d.syspath := dev]),
             Ok(Some(Attach(dev))))
  }

  function RemoveDevice(s: Plant, p: Path, env: Env): (Plant, Result<Option<Event>>) {
    if p !in s.devices then (s, Ok(None))
    else
      var dev := s.devices[p];
      var syspath := dev.device.syspath;
      var s0 := s.(devices := s.devices - {p});
      if syspath in s.bound && env.At(0).NotEntered? then
        (s0.(bound := s.bound - {syspath}), Err(NoNamespace))
      else
        var s1 := UnbindDevice(s0, syspath);
        if dev.device.node.None? then (s1, Err(AbsentNode))
        else
          var (perms, revoked) := Permit(s.perms, KeyOf(dev.device.node.value), 0);
          if revoked.Err? then (s1, Err(revoked.error))
          else
            var (files, removed) := RemoveFiles(s.files, dev, dev.device.node.value, env);
            var s2 := s1.(perms := perms, files := files);
            if removed.Err? then (s2, Err(removed.error))
            else
              var s3 := s2.(number := NextNumber(s.number));
              if env.At(2 + |dev.symlinks|) != Fine then (s3, Err(NotSent))
              else (s3.(sent := s.sent + [Message(REMOVE, s3.number, dev.device)]), Ok(Some(Detach(dev))))
  }

  function Process(c: Config, s: Plant, e: DeviceEvent, env: Env): (Plant, Result<Option<Event>>) {
    match e
    case Add(d) => AddDevice(c, s, d, env)
    case Remove(d) => RemoveDevice(s, d.syspath, env)
  }

  // ----- The event stream -----

  datatype Phase = Draining | Following | Ended

  datatype Machine = Machine(mon: State, plant: Plant, phase: Phase)

  /** What one turn of the stream's loop leads to; `Over` is the end of the stream without an error. */
  datatype Outcome = Silent | Yield(event: Event) | Wait | Over | Failed(error: Error)

  function Handle(c: Config, m: Machine, e: DeviceEvent, env: Env): (Machine, Outcome) {
    var (plant, r) := Process(c, m.plant, e, env);
    var m := m.(plant := plant);
    match r
    case Err(error) => (m.(phase := Ended), Failed(error))
    case Ok(None) => (m, Silent)
    case Ok(Some(event)) => (m, Yield(event))
  }

  /** The next device event: read without waiting while draining, polled for afterwards. */
  function Next(m: Machine): (State, Option<DeviceEvent>) {
    match m.phase
    case Draining => Read(m.mon)
    case Following =>
      var (mon, polled) := Poll(m.mon);
      (mon, if polled.Ready? then Some(polled.event) else None)
    case Ended => (m.mon, None)
  }

  function Advance(c: Config, m: Machine, env: Env): (Machine, Outcome) {
    var (mon, e) := Next(m);
    var m' := m.(mon := mon);
    if e.Some? then Handle(c, m', e.value, env)
    else if m.phase.Draining? then (m'.(phase := Following), Yield(Initialized))
    else if m.phase.Following? && Poll(m.mon).1.Finished? then (m'.(phase := Ended), Over)
    else (m', Wait)
  }

  function Turns(c: Config, m: Machine, envs: nat -> Env, n: nat): Machine {
    if n == 0 then m else Advance(c, Turns(c, m, envs, n - 1), envs(n - 1)).0
  }

  class HotPlug {
    const container: Container
    const symlinks: seq<Rule>
    const sysfs: bool
    const monitor: DeviceMonitor
    const sender: UdevSender
    var devices: map<Path, Attached>
    var sysfsBound: set<Path>
    var phase: Phase

    ghost function View(): Plant
      reads this, container, container.filter, sender
    {
      Plant(devices, sysfsBound, container.filter.entries, container.files, container.mounts,
            sender.number, sender.sent)
    }

    ghost function Whole(): Machine
      reads this, container, container.filter, sender, monitor
    {
      Machine(monitor.View(), View(), phase)
    }

    function Settings(): Config {
      Config(symlinks, sysfs, container.Owner())
    }

    constructor (container: Container, monitor: DeviceMonitor, sender: UdevSender, symlinks: seq<Rule>, sysfs: bool)
      ensures this.container == container && this.monitor == monitor && this.sender == sender
      ensures this.symlinks == symlinks && this.sysfs == sysfs
      ensures devices == map[] && sysfsBound == {} && phase == Draining
    {
      this.container, this.monitor, this.sender := container, monitor, sender;
      this.symlinks, this.sysfs := symlinks, sysfs;
      devices, sysfsBound, phase := map[], {}, Draining;
    }

    method CollectLinks(d: Device) returns (links: seq<Path>)
      ensures links == MatchingLinks(symlinks, d)
    {
      links := [];
      for i := 0 to |symlinks|
        invariant links == MatchingLinks(symlinks[..i], d)
      {
        assert symlinks[..i + 1][..i] == symlinks[..i];
        if Matches(symlinks[i], d) {
          links := links + [symlinks[i].path];
        }
      }
      assert symlinks[..|symlinks|] == symlinks;
    }

    method PlaceLinks(target: Path, links: seq<Path>, env: Env) returns (r: Result<()>)
      modifies container`files
      ensures (container.files, r) == LinkAll(old(container.files), target, links, env, 1)
    {
      ghost var all := LinkAll(container.files, target, links, env, 1);
      for i := 0 to |links|
        invariant LinkAll(container.files, target, links[i..], env, 1 + i) == all
      {
        assert links[i..][1..] == links[i + 1..];
        r := container.Symlink(target, links[i], env.At(1 + i));
        if r.Err? {
          return;
        }
      }
      r := Ok(());
    }

    method RemoveLinks(links: seq<Path>, env: Env) returns (r: Result<()>)
      modifies container`files
      ensures (container.files, r) == DeleteAll(old(container.files), links, env, 2)
    {
      ghost var all := DeleteAll(container.files, links, env, 2);
      for i := 0 to |links|
        invariant DeleteAll(container.files, links[i..], env, 2 + i) == all
      {
        assert links[i..][1..] == links[i + 1..];
        r := container.Rm(links[i], env.At(2 + i));
        if r.Err? {
          return;
        }
      }
      r := Ok(());
    }

    method ProcessAdd(d: Device, env: Env) returns (r: Result<Option<Event>>)
      modifies this`devices, this`sysfsBound
      modifies container`files, container`mounts, container.filter`entries, sender
      ensures (View(), r) == AddDevice(Settings(), old(View()), d, env)
    {
      if d.node.None? {
        return Ok(None);
      }
      var node := d.node.value;
      var links := CollectLinks(d);
      var done := container.Device(node.ty, node.major, node.minor, ALL);
      if done.Err? {
        return Err(done.error);
      }
      done := container.Mknod(node, env.At(0));
      if done.Err? {
        return Err(done.error);
      }
      done := PlaceLinks(node.path, links, env);
      if done.Err? {
        return Err(done.error);
      }
      if sysfs {
        done := container.BindSysfs(d.syspath, env.bind);
        if done.Ok? {
          sysfsBound := sysfsBound + {d.syspath};
        }
      }
      done := sender.Send(d, ADD, env.At(1 + |links|) == Fine);
      if done.Err? {
        return Err(done.error);
      }
      var dev := Attached(d, links);
      devices := devices[d.syspath := dev];
      r := Ok(Some(Attach(dev)));
    }

    method ProcessRemove(p: Path, env: Env) returns (r: Result<Option<Event>>)
      modifies this`devices, this`sysfsBound
      modifies container`files, container`mounts, container.filter`entries, sender
      ensures (View(), r) == RemoveDevice(old(View()), p, env)
    {
      if p !in devices {
        return Ok(None);
      }
      var dev := devices[p];
      devices := devices - {p};
      var done: Result<()>;
      if dev.device.syspath in sysfsBound {
        sysfsBound := sysfsBound - {dev.device.syspath};
        done := container.UnbindSysfs(dev.device.syspath, env.At(0));
        if done.Err? {
          return Err(done.error);
        }
      }
      assert sysfsBound == old(sysfsBound) - {dev.device.syspath};
      if dev.device.node.None? {
        return Err(AbsentNode);
      }
      var node := dev.device.node.value;
      done := container.Device(node.ty, node.major, node.minor, 0);
      if done.Err? {
        return Err(done.error);
      }
      done := container.Rm(node.path, env.At(1));
      if done.Err? {
        return Err(done.error);
      }
      done := RemoveLinks(dev.symlinks, env);
      if done.Err? {
        return Err(done.error);
      }
      done := sender.Send(dev.device, REMOVE, env.At(2 + |dev.symlinks|) == Fine);
      if done.Err? {
        return Err(done.error);
      }
      r := Ok(Some(Detach(dev)));
    }

    method Process(e: DeviceEvent, env: Env) returns (r: Outcome)
      modifies this`devices, this`sysfsBound, this`phase
      modifies container`files, container`mounts, container.filter`entries, sender
      ensures (Whole(), r) == Handle(Settings(), old(Whole()), e, env)
    {
      var result: Result<Option<Event>>;
      match e {
        case Add(d) => result := ProcessAdd(d, env);
        case Remove(d) => result := ProcessRemove(d.syspath, env);
      }
      match result {
        case Err(error) =>
          phase := Ended;
          r := Failed(error);
        case Ok(None) => r := Silent;
        case Ok(Some(event)) => r := Yield(event);
      }
    }

    /** One turn of whichever of the stream's two loops is running. */
    method Turn(env: Env) returns (r: Outcome)
      modifies this`devices, this`sysfsBound, this`phase
      modifies container`files, container`mounts, container.filter`entries, sender, monitor
      ensures (Whole(), r) == Advance(Settings(), old(Whole()), env)
    {
      match phase {
        case Draining =>
          var e := monitor.TryRead();
          if e.None? {
            phase := Following;
            return Yield(Initialized);
          }
          r := Process(e.value, env);
        case Following =>
          var polled := monitor.PollNext();
          if !polled.Ready? {
            phase := if polled.Finished? then Ended else phase;
            return if polled.Finished? then Over else Wait;
          }
          r := Process(polled.event, env);
        case Ended =>
          r := Wait;
      }
    }

    /** Run the stream until it yields, waits or fails. Device events without an effect are passed over
      silently; `turns` counts the turns of the loop this took. */
    method Resume(envs: nat -> Env) returns (r: Outcome, ghost turns: nat)
      modifies this`devices, this`sysfsBound, this`phase
      modifies container`files, container`mounts, container.filter`entries, sender, monitor
      ensures turns > 0 && !r.Silent?
      ensures (Whole(), r) ==
              Advance(Settings(), Turns(Settings(), old(Whole()), envs, turns - 1), envs(turns - 1))
    {
      var n := 0;
      while true
        invariant Whole() == Turns(Settings(), old(Whole()), envs, n)
        decreases |monitor.enumerated| + |monitor.socket|
      {
        ReadShrinks(monitor.View());
        r := Turn(envs(n));
        n := n + 1;
        if !r.Silent? {
          return r, n;
        }
      }
    }
  }

  lemma {:induction false} ReadShrinks(m: State)
    ensures Read(m).1.Some? ==>
              |Read(m).0.enumerated| + |Read(m).0.socket| < |m.enumerated| + |m.socket|
    decreases |m.socket|
  {
    if m.enumerated == [] && m.socket != [] {
      ReadShrinks(Take(m));
    }
  }
}
