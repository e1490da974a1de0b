/** What processing one device event does to the container, and what every event preserves.

  `held` stands for the devices delivered by the monitor and not yet removed. */
module Effects {
  import opened Devices
  import opened Monitor
  import opened DeviceFilter
  import opened ContainerState
  import opened Controller
  import opened Uevent
  import Mounts

  // ----- Attached devices -----

  /** The attached devices are those of `held` that have a node, with the symlinks of the rules. */
  ghost predicate IsAttachedOf(rules: seq<Rule>, held: Registry, devices: map<Path, Attached>) {
    && (forall p :: p in devices <==> p in held && held[p].node.Some?)
    && (forall p | p in devices :: devices[p] == Attached(held[p], MatchingLinks(rules, held[p])))
  }

  function NodesOf(held: Registry): set<DevNode> {
    set p | p in held && held[p].node.Some? :: held[p].node.value
  }

  predicate Keyed(held: Registry) {
    forall p | p in held :: held[p].syspath == p
  }

  ghost predicate Attaches(rules: seq<Rule>, held: Registry, s: Plant) {
    && Keyed(held)
    && IsAttachedOf(rules, held, s.devices)
    && s.bound <= s.devices.Keys
  }

  /** A successful addition of a device with a node, field by field. */
  lemma AddedFields(c: Config, s: Plant, d: Device, env: Env)
    requires d.node.Some? && AddDevice(c, s, d, env).1.Ok?
    ensures var (t, r) := AddDevice(c, s, d, env);
            var dev := Attached(d, MatchingLinks(c.rules, d));
            && r.value == Some(Attach(dev))
            && t.devices == s.devices[d.syspath := dev]
            && Permit(s.perms, KeyOf(d.node.value), ALL) == (t.perms, Ok(()))
            && t.bound == (if c.sysfs && env.bind then s.bound + {d.syspath} else s.bound)
            && t.mounts == (if c.sysfs && env.bind then Mounts.Bind(s.mounts, d.syspath) else s.mounts)
            && t.number == NextNumber(s.number)
            && t.sent == s.sent + [Message(ADD, t.number, d)]
  {
  }

  lemma AddedFiles(c: Config, s: Plant, d: Device, env: Env)
    requires d.node.Some? && AddDevice(c, s, d, env).1.Ok?
    ensures AddFiles(c, s.files, d, d.node.value, env).1.Ok?
    ensures AddDevice(c, s, d, env).0.files == AddFiles(c, s.files, d, d.node.value, env).0
  {
  }

  /** A successful removal of an attached device, field by field. */
  lemma RemovedFields(s: Plant, p: Path, env: Env)
    requires p in s.devices && RemoveDevice(s, p, env).1.Ok?
    ensures var (t, r) := RemoveDevice(s, p, env);
            var dev := s.devices[p];
            && dev.device.node.Some?
            && r.value == Some(Detach(dev))
            && t.devices == s.devices - {p}
            && Permit(s.perms, KeyOf(dev.device.node.value), 0) == (t.perms, Ok(()))
            && t.bound == s.bound - {dev.device.syspath}
            && t.mounts == (if dev.device.syspath in s.bound
                            then Mounts.Unbind(s.mounts, dev.device.syspath) else s.mounts)
            && t.number == NextNumber(s.number)
            && t.sent == s.sent + [Message(REMOVE, t.number, dev.device)]
  {
  }

  lemma RemovedFiles(s: Plant, p: Path, env: Env)
    requires p in s.devices && RemoveDevice(s, p, env).1.Ok? && s.devices[p].device.node.Some?
    ensures RemoveFiles(s.files, s.devices[p], s.devices[p].device.node.value, env).1.Ok?
    ensures RemoveDevice(s, p, env).0.files ==
            RemoveFiles(s.files, s.devices[p], s.devices[p].device.node.value, env).0
  {
  }

  /** An event for a device without a node, or that was never attached, changes nothing. */
  lemma Ignored(c: Config, s: Plant, e: DeviceEvent, env: Env)
    requires if e.Add? then e.dev.node.None? else e.dev.syspath !in s.devices
    ensures Process(c, s, e, env) == (s, Ok(None))
  {
  }

  /** The event the stream yields for a device event. */
  function Expected(rules: seq<Rule>, e: DeviceEvent): Option<Event> {
    if e.dev.node.None? then None
    else
      var dev := Attached(e.dev, MatchingLinks(rules, e.dev));
      Some(if e.Add? then Attach(dev) else Detach(dev))
  }

  /** After every successful event the attached devices are the delivered ones that have a node. */
  lemma AttachesStep(c: Config, held: Registry, s: Plant, e: DeviceEvent, env: Env)
    requires Attaches(c.rules, held, s) && Fits(held, e) && Process(c, s, e, env).1.Ok?
    ensures Attaches(c.rules, Hold(held, e), Process(c, s, e, env).0)
    ensures Process(c, s, e, env).1.value == Expected(c.rules, e)
  {
    if e.dev.node.None? {
      assert e.dev.syspath !in s.devices;
      Ignored(c, s, e, env);
    } else if e.Add? {
      AddedFields(c, s, e.dev, env);
    } else {
      RemovedFields(s, e.dev.syspath, env);
    }
  }

  // ----- Permissions -----

  predicate KeysApart(a: Device, b: Device) {
    a.syspath != b.syspath && a.node.Some? && b.node.Some? ==> KeyOf(a.node.value) != KeyOf(b.node.value)
  }

  /** The map grants everything on the attached devices, nothing else, one entry for each. */
  ghost predicate Grants(held: Registry, s: Plant) {
    GrantsExactly(s.perms, NodesOf(held)) && |s.perms| == |s.devices| <= 256
  }

  lemma NodesAdd(held: Registry, d: Device)
    requires d.node.Some? && d.syspath !in held
    ensures NodesOf(held[d.syspath := d]) == NodesOf(held) + {d.node.value}
  {
    var held' := held[d.syspath := d];
    forall n | n in NodesOf(held) + {d.node.value} ensures n in NodesOf(held') {
      if n in NodesOf(held) {
        var p :| p in held && held[p].node == Some(n);
        assert held'[p].node == Some(n);
      } else {
        assert held'[d.syspath].node == Some(n);
      }
    }
  }

  lemma NodesRemove(held: Registry, d: Device)
    requires d.syspath in held && held[d.syspath] == d && d.node.Some?
    requires forall p | p in held && p != d.syspath :: held[p].node != d.node
    ensures NodesOf(held - {d.syspath}) == NodesOf(held) - {d.node.value}
  {
    var held' := held - {d.syspath};
    forall n | n in NodesOf(held) - {d.node.value} ensures n in NodesOf(held') {
      var p :| p in held && held[p].node == Some(n);
      assert held'[p].node == Some(n);
    }
  }

  lemma NodesIgnore(held: Registry, e: DeviceEvent)
    requires Fits(held, e) && e.dev.node.None?
    ensures NodesOf(Hold(held, e)) == NodesOf(held)
  {
    var held' := Hold(held, e);
    forall n | n in NodesOf(held) ensures n in NodesOf(held') {
      var p :| p in held && held[p].node == Some(n);
      assert p in held' && held'[p].node == Some(n);
    }
    forall n | n in NodesOf(held') ensures n in NodesOf(held) {
      var p :| p in held' && held'[p].node == Some(n);
      assert p in held && held[p].node == Some(n);
    }
  }

  lemma UnusedKey(held: Registry, perms: Permissions, d: Device)
    requires GrantsExactly(perms, NodesOf(held)) && d.node.Some?
    requires forall p | p in held :: KeysApart(held[p], d) && held[p].syspath != d.syspath
    ensures KeyOf(d.node.value) !in perms
  {
  }

  lemma GrantMore(perms: Permissions, nodes: set<DevNode>, n: DevNode)
    requires GrantsExactly(perms, nodes)
    ensures GrantsExactly(perms[KeyOf(n) := ALL], nodes + {n})
    ensures KeyOf(n) !in perms ==> |perms[KeyOf(n) := ALL]| == |perms| + 1
  {
    var perms' := perms[KeyOf(n) := ALL];
    forall k | k in perms' ensures perms'[k] == ALL && exists m :: m in nodes + {n} && KeyOf(m) == k {
      if k == KeyOf(n) {
        assert n in nodes + {n};
      } else {
        var m :| m in nodes && KeyOf(m) == k;
        assert m in nodes + {n};
      }
    }
  }

  lemma GrantLess(perms: Permissions, nodes: set<DevNode>, n: DevNode)
    requires GrantsExactly(perms, nodes) && n in nodes
    requires forall m | m in nodes && m != n :: KeyOf(m) != KeyOf(n)
    ensures KeyOf(n) in perms
    ensures GrantsExactly(perms - {KeyOf(n)}, nodes - {n})
    ensures |perms - {KeyOf(n)}| == |perms| - 1
  {
    var perms' := perms - {KeyOf(n)};
    forall k | k in perms' ensures perms'[k] == ALL && exists m :: m in nodes - {n} && KeyOf(m) == k {
      var m :| m in nodes && KeyOf(m) == k;
      assert m in nodes - {n};
    }
    assert perms.Keys == perms'.Keys + {KeyOf(n)};
  }

  lemma GrantsAdded(c: Config, held: Registry, s: Plant, d: Device, env: Env)
    requires Attaches(c.rules, held, s) && Grants(held, s) && d.syspath !in held && d.node.Some?
    requires forall p | p in held :: KeysApart(held[p], d)
    requires AddDevice(c, s, d, env).1.Ok?
    ensures Grants(held[d.syspath := d], AddDevice(c, s, d, env).0)
  {
    AddedFields(c, s, d, env);
    UnusedKey(held, s.perms, d);
    NodesAdd(held, d);
    GrantMore(s.perms, NodesOf(held), d.node.value);
  }

  lemma GrantsRemoved(c: Config, held: Registry, s: Plant, d: Device, env: Env)
    requires Attaches(c.rules, held, s) && Grants(held, s)
    requires d.syspath in held && held[d.syspath] == d && d.node.Some?
    requires forall p | p in held :: KeysApart(held[p], d)
    requires RemoveDevice(s, d.syspath, env).1.Ok?
    ensures Grants(held - {d.syspath}, RemoveDevice(s, d.syspath, env).0)
  {
    RemovedFields(s, d.syspath, env);
    OwnKey(held, d);
    NodesRemove(held, d);
    GrantLess(s.perms, NodesOf(held), d.node.value);
    assert s.devices.Keys == (s.devices - {d.syspath}).Keys + {d.syspath};
  }

  /** After every successful event the permission map grants exactly the attached devices. */
  lemma GrantsStep(c: Config, held: Registry, s: Plant, e: DeviceEvent, env: Env)
    requires Attaches(c.rules, held, s) && Grants(held, s) && Fits(held, e)
    requires forall p | p in held :: KeysApart(held[p], e.dev)
    requires Process(c, s, e, env).1.Ok?
    ensures Grants(Hold(held, e), Process(c, s, e, env).0)
  {
    if e.dev.node.None? {
      assert e.dev.syspath !in s.devices;
      Ignored(c, s, e, env);
      NodesIgnore(held, e);
    } else if e.Add? {
      GrantsAdded(c, held, s, e.dev, env);
    } else {
      GrantsRemoved(c, held, s, e.dev, env);
    }
  }

  lemma OwnKey(held: Registry, d: Device)
    requires Keyed(held) && d.syspath in held && held[d.syspath] == d && d.node.Some?
    requires forall p | p in held :: KeysApart(held[p], d)
    ensures d.node.value in NodesOf(held)
    ensures forall m | m in NodesOf(held) && m != d.node.value :: KeyOf(m) != KeyOf(d.node.value)
    ensures forall p | p in held && p != d.syspath :: held[p].node != d.node
  {
  }

  /** No other device of `held` has the number of `d`. */
  ghost predicate Unshared(held: Registry, d: Device) {
    forall p | p in held :: KeysApart(held[p], d)
  }

  lemma RevokeExactIff(perms: Permissions, nodes: set<DevNode>, n: DevNode, rest: set<DevNode>)
    requires GrantsExactly(perms, nodes) && n in nodes
    requires rest <= nodes <= rest + {n}
    ensures GrantsExactly(perms - {KeyOf(n)}, rest) <==> forall m | m in rest :: KeyOf(m) != KeyOf(n)
  {
    if forall m | m in rest :: KeyOf(m) != KeyOf(n) {
      forall k | k in perms - {KeyOf(n)} ensures exists m :: m in rest && KeyOf(m) == k {
        var m :| m in nodes && KeyOf(m) == k;
        assert m in rest;
      }
    }
  }

  lemma RestNodes(held: Registry, d: Device)
    requires Keyed(held) && d.syspath in held && held[d.syspath] == d && d.node.Some?
    ensures d.node.value in NodesOf(held)
    ensures NodesOf(held - {d.syspath}) <= NodesOf(held) <= NodesOf(held - {d.syspath}) + {d.node.value}
    ensures Unshared(held, d) <==> forall m | m in NodesOf(held - {d.syspath}) :: KeyOf(m) != KeyOf(d.node.value)
  {
    var rest := held - {d.syspath};
    forall n | n in NodesOf(held) ensures n in NodesOf(rest) + {d.node.value} {
      var p :| p in held && held[p].node == Some(n);
      assert p != d.syspath ==> p in rest && rest[p].node == Some(n);
    }
    forall n | n in NodesOf(rest) ensures n in NodesOf(held) {
      var p :| p in rest && rest[p].node == Some(n);
      assert held[p].node == Some(n);
    }
    forall m | m in NodesOf(rest) && Unshared(held, d) ensures KeyOf(m) != KeyOf(d.node.value) {
      var p :| p in rest && rest[p].node == Some(m);
      assert KeysApart(held[p], d);
    }
    forall p | p in held && !KeysApart(held[p], d)
      ensures held[p].node.Some? && held[p].node.value in NodesOf(rest)
      ensures KeyOf(held[p].node.value) == KeyOf(d.node.value)
    {
      assert p in rest && rest[p].node == Some(held[p].node.value);
    }
  }

  /** Without any assumption on device numbers: an addition always keeps the map in step with the attached
    devices, and a removal does so if and only if no other attached device has the same number. */
  lemma GrantsExactlyIff(c: Config, held: Registry, s: Plant, e: DeviceEvent, env: Env)
    requires Attaches(c.rules, held, s) && GrantsExactly(s.perms, NodesOf(held)) && Fits(held, e)
    requires Process(c, s, e, env).1.Ok?
    ensures GrantsExactly(Process(c, s, e, env).0.perms, NodesOf(Hold(held, e))) <==>
            (e.Remove? ==> Unshared(held, e.dev))
  {
    if e.dev.node.None? {
      assert e.dev.syspath !in s.devices;
      Ignored(c, s, e, env);
      NodesIgnore(held, e);
    } else if e.Add? {
      AddedFields(c, s, e.dev, env);
      NodesAdd(held, e.dev);
      GrantMore(s.perms, NodesOf(held), e.dev.node.value);
    } else {
      RemovedFields(s, e.dev.syspath, env);
      RestNodes(held, e.dev);
      RevokeExactIff(s.perms, NodesOf(held), e.dev.node.value, NodesOf(held - {e.dev.syspath}));
    }
  }

  /** With distinct device numbers no event fails for want of an entry or of a device node, and a full
    map refuses a device only when that many devices are attached already. */
  lemma NoSpuriousAbort(c: Config, held: Registry, s: Plant, e: DeviceEvent, env: Env)
    requires Attaches(c.rules, held, s) && Grants(held, s) && Fits(held, e)
    requires forall p | p in held :: KeysApart(held[p], e.dev)
    requires Process(c, s, e, env).1.Err?
    ensures Process(c, s, e, env).1.error !in {MissingKey, AbsentNode}
    ensures Process(c, s, e, env).1.error == MapFull ==> e.Add? && |s.devices| == 256
  {
    if e.Add? {
      AddErrors(c, s, e.dev, env);
    } else {
      assert e.dev.syspath in s.devices;
      OwnKey(held, e.dev);
      GrantLess(s.perms, NodesOf(held), e.dev.node.value);
      RemoveErrors(s, e.dev.syspath, env);
    }
  }

  lemma AddErrors(c: Config, s: Plant, d: Device, env: Env)
    requires AddDevice(c, s, d, env).1.Err?
    ensures var error := AddDevice(c, s, d, env).1.error;
            || error in {NoNamespace, NotCreated, Unmapped, NotSent}
            || (error == MapFull && |s.perms| >= 256)
  {
    if d.node.Some? {
      LinkErrors(PlaceNode(s.files, d.node.value, c.owner, env.At(0)).0, d.node.value.path,
                 MatchingLinks(c.rules, d), env, 1);
    }
  }

  lemma RemoveErrors(s: Plant, p: Path, env: Env)
    requires p in s.devices && RemoveDevice(s, p, env).1.Err?
    requires s.devices[p].device.node.Some? && KeyOf(s.devices[p].device.node.value) in s.perms
    ensures RemoveDevice(s, p, env).1.error in {NoNamespace, NotSent}
  {
    DeleteErrors(Delete(s.files, s.devices[p].device.node.value.path, env.At(1)).0, s.devices[p].symlinks, env, 2);
  }

  lemma {:induction false} LinkErrors(files: Files, target: Path, links: seq<Path>, env: Env, call: nat)
    ensures LinkAll(files, target, links, env, call).1.Err? ==>
              LinkAll(files, target, links, env, call).1.error in {NoNamespace, NotCreated}
    decreases |links|
  {
    if links != [] {
      LinkErrors(Place(files, links[0], Link(target), env.At(call)).0, target, links[1..], env, call + 1);
    }
  }

  lemma {:induction false} DeleteErrors(files: Files, paths: seq<Path>, env: Env, call: nat)
    ensures DeleteAll(files, paths, env, call).1.Err? ==>
              DeleteAll(files, paths, env, call).1.error == NoNamespace
    decreases |paths|
  {
    if paths != [] {
      DeleteErrors(Delete(files, paths[0], env.At(call)).0, paths[1..], env, call + 1);
    }
  }
}
