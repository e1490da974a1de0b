/** The container's `/dev`: which event decides what is found at a path. */
module Footprints {
  import opened Devices
  import opened Monitor
  import opened ContainerState
  import opened Controller
  import opened Effects

  // ----- The last writer decides, without any hypothesis -----

  /** What an event leaves at `q`, if it touches `q` at all: symlinks are made after the node. */
  function Writes(c: Config, e: DeviceEvent, q: Path): Option<Option<Entry>> {
    if e.dev.node.None? then None
    else
      var node := e.dev.node.value;
      var isLink := q in MatchingLinks(c.rules, e.dev);
      if q != node.path && !isLink then None
      else if e.Remove? then Some(None)
      else if isLink then Some(Some(Link(node.path)))
      else Some(Some(Node(node.ty, node.major, node.minor, c.owner)))
  }

  /** The content of `q` after a sequence of events. */
  function Content(c: Config, initial: Files, log: seq<DeviceEvent>, q: Path): Option<Entry> {
    if log == [] then FileAt(initial, q)
    else
      var written := Writes(c, log[|log| - 1], q);
      if written.Some? then written.value else Content(c, initial, log[..|log| - 1], q)
  }

  lemma {:induction false} LinkAllFiles(files: Files, target: Path, links: seq<Path>, env: Env, call: nat, q: Path)
    requires LinkAll(files, target, links, env, call).1.Ok?
    ensures FileAt(LinkAll(files, target, links, env, call).0, q) ==
            if q in links then Some(Link(target)) else FileAt(files, q)
    decreases |links|
  {
    if links != [] {
      PlaceFiles(files, links[0], Link(target), env.At(call), q);
      LinkAllFiles(Place(files, links[0], Link(target), env.At(call)).0, target, links[1..], env, call + 1, q);
    }
  }

  lemma {:induction false} DeleteAllFiles(files: Files, paths: seq<Path>, env: Env, call: nat, q: Path)
    requires DeleteAll(files, paths, env, call).1.Ok?
    ensures FileAt(DeleteAll(files, paths, env, call).0, q) == if q in paths then None else FileAt(files, q)
    decreases |paths|
  {
    if paths != [] {
      DeleteFiles(files, paths[0], env.At(call), q);
      DeleteAllFiles(Delete(files, paths[0], env.At(call)).0, paths[1..], env, call + 1, q);
    }
  }

  lemma AddFilesAt(c: Config, files: Files, d: Device, env: Env, q: Path)
    requires d.node.Some? && AddFiles(c, files, d, d.node.value, env).1.Ok?
    ensures FileAt(AddFiles(c, files, d, d.node.value, env).0, q) ==
            if Writes(c, Add(d), q).Some? then Writes(c, Add(d), q).value else FileAt(files, q)
  {
    var node := d.node.value;
    PlaceNodeFiles(files, node, c.owner, env.At(0), q);
    LinkAllFiles(PlaceNode(files, node, c.owner, env.At(0)).0, node.path, MatchingLinks(c.rules, d), env, 1, q);
  }

  lemma RemoveFilesAt(c: Config, files: Files, d: Device, env: Env, q: Path)
    requires d.node.Some?
    requires RemoveFiles(files, Attached(d, MatchingLinks(c.rules, d)), d.node.value, env).1.Ok?
    ensures FileAt(RemoveFiles(files, Attached(d, MatchingLinks(c.rules, d)), d.node.value, env).0, q) ==
            if Writes(c, Remove(d), q).Some? then Writes(c, Remove(d), q).value else FileAt(files, q)
  {
    var node := d.node.value;
    DeleteFiles(files, node.path, env.At(1), q);
    DeleteAllFiles(Delete(files, node.path, env.At(1)).0, MatchingLinks(c.rules, d), env, 2, q);
  }

  /** One successful event rewrites its own footprint and nothing else. */
  lemma FilesStep(c: Config, held: Registry, s: Plant, e: DeviceEvent, env: Env, q: Path)
    requires Attaches(c.rules, held, s) && Fits(held, e) && Process(c, s, e, env).1.Ok?
    ensures FileAt(Process(c, s, e, env).0.files, q) ==
            if Writes(c, e, q).Some? then Writes(c, e, q).value else FileAt(s.files, q)
  {
    if e.dev.node.None? {
      assert e.dev.syspath !in s.devices;
      Ignored(c, s, e, env);
    } else if e.Add? {
      AddedFiles(c, s, e.dev, env);
      AddFilesAt(c, s.files, e.dev, env, q);
    } else {
      RemovedFiles(s, e.dev.syspath, env);
      RemoveFilesAt(c, s.files, e.dev, env, q);
    }
  }

  // ----- With disjoint footprints, exactly the attached devices are present -----

  predicate InFootprint(rules: seq<Rule>, d: Device, q: Path) {
    d.node.Some? && (q == d.node.value.path || q in MatchingLinks(rules, d))
  }

  ghost predicate FootprintsApart(rules: seq<Rule>, a: Device, b: Device) {
    a.syspath != b.syspath ==> forall q :: !(InFootprint(rules, a, q) && InFootprint(rules, b, q))
  }

  /** A device is not linked onto its own node. */
  predicate SelfApart(rules: seq<Rule>, d: Device) {
    d.node.Some? ==> d.node.value.path !in MatchingLinks(rules, d)
  }

  /** Nothing was at the device's paths to begin with. */
  ghost predicate FreePaths(rules: seq<Rule>, initial: Files, d: Device) {
    forall q | InFootprint(rules, d, q) :: FileAt(initial, q) == None
  }

  /** What an attached device has at a path of its footprint. */
  function Own(c: Config, d: Device, q: Path): Entry
    requires d.node.Some?
  {
    var node := d.node.value;
    if q == node.path then Node(node.ty, node.major, node.minor, c.owner) else Link(node.path)
  }

  ghost predicate Touched(rules: seq<Rule>, held: Registry, q: Path) {
    exists p | p in held :: InFootprint(rules, held[p], q)
  }

  /** Every attached device has its node and all its symlinks. */
  ghost predicate HasOwn(c: Config, held: Registry, files: Files) {
    forall p, q | p in held && InFootprint(c.rules, held[p], q) :: FileAt(files, q) == Some(Own(c, held[p], q))
  }

  /** The same, and everything else is as it was. */
  ghost predicate PresentExactly(c: Config, initial: Files, held: Registry, files: Files) {
    HasOwn(c, held, files) && forall q | !Touched(c.rules, held, q) :: FileAt(files, q) == FileAt(initial, q)
  }

  ghost predicate Rewrites(c: Config, e: DeviceEvent, files: Files, after: Files) {
    forall q :: FileAt(after, q) == if Writes(c, e, q).Some? then Writes(c, e, q).value else FileAt(files, q)
  }

  lemma EventRewrites(c: Config, held: Registry, s: Plant, e: DeviceEvent, env: Env)
    requires Attaches(c.rules, held, s) && Fits(held, e) && Process(c, s, e, env).1.Ok?
    ensures Rewrites(c, e, s.files, Process(c, s, e, env).0.files)
  {
    forall q ensures FileAt(Process(c, s, e, env).0.files, q) ==
                     if Writes(c, e, q).Some? then Writes(c, e, q).value else FileAt(s.files, q)
    {
      FilesStep(c, held, s, e, env, q);
    }
  }

  lemma OwnAt(c: Config, held: Registry, files: Files, e: DeviceEvent, after: Files, p: Path, q: Path)
    requires Keyed(held) && Fits(held, e) && Rewrites(c, e, files, after)
    requires HasOwn(c, held, files) && SelfApart(c.rules, e.dev)
    requires p in held ==> FootprintsApart(c.rules, held[p], e.dev)
    requires p in Hold(held, e) && InFootprint(c.rules, Hold(held, e)[p], q)
    ensures FileAt(after, q) == Some(Own(c, Hold(held, e)[p], q))
  {
    if p == e.dev.syspath {
      assert Hold(held, e)[p] == e.dev;
    } else {
      assert !InFootprint(c.rules, e.dev, q);
      assert FileAt(files, q) == Some(Own(c, held[p], q));
    }
  }

  /** Every successful event leaves every attached device its files, whatever was there before, provided paths
    are not shared. */
  lemma OwnStep(c: Config, held: Registry, s: Plant, e: DeviceEvent, env: Env)
    requires Attaches(c.rules, held, s) && Fits(held, e) && Process(c, s, e, env).1.Ok?
    requires HasOwn(c, held, s.files) && SelfApart(c.rules, e.dev)
    requires forall p | p in held :: FootprintsApart(c.rules, held[p], e.dev)
    ensures HasOwn(c, Hold(held, e), Process(c, s, e, env).0.files)
  {
    var after := Process(c, s, e, env).0.files;
    EventRewrites(c, held, s, e, env);
    forall p, q | p in Hold(held, e) && InFootprint(c.rules, Hold(held, e)[p], q)
      ensures FileAt(after, q) == Some(Own(c, Hold(held, e)[p], q))
    {
      OwnAt(c, held, s.files, e, after, p, q);
    }
  }

  lemma PresentElsewhere(c: Config, initial: Files, held: Registry, files: Files, e: DeviceEvent, after: Files, q: Path)
    requires Fits(held, e) && Rewrites(c, e, files, after)
    requires PresentExactly(c, initial, held, files)
    requires FreePaths(c.rules, initial, e.dev)
    requires !Touched(c.rules, Hold(held, e), q)
    ensures FileAt(after, q) == FileAt(initial, q)
  {
    var held' := Hold(held, e);
    assert e.Add? ==> e.dev.syspath in held' && held'[e.dev.syspath] == e.dev;
    if !InFootprint(c.rules, e.dev, q) {
      forall p | p in held ensures !InFootprint(c.rules, held[p], q) {
        assert p in held' ==> !InFootprint(c.rules, held'[p], q);
      }
      assert !Touched(c.rules, held, q);
    }
  }

  /** Every successful event keeps exactly the attached devices present, if their paths were free as well. */
  lemma PresentStep(c: Config, initial: Files, held: Registry, s: Plant, e: DeviceEvent, env: Env)
    requires Attaches(c.rules, held, s) && Fits(held, e) && Process(c, s, e, env).1.Ok?
    requires PresentExactly(c, initial, held, s.files)
    requires SelfApart(c.rules, e.dev) && FreePaths(c.rules, initial, e.dev)
    requires forall p | p in held :: FootprintsApart(c.rules, held[p], e.dev)
    ensures PresentExactly(c, initial, Hold(held, e), Process(c, s, e, env).0.files)
  {
    OwnStep(c, held, s, e, env);
    EventRewrites(c, held, s, e, env);
    forall q | !Touched(c.rules, Hold(held, e), q)
      ensures FileAt(Process(c, s, e, env).0.files, q) == FileAt(initial, q)
    {
      PresentElsewhere(c, initial, held, s.files, e, Process(c, s, e, env).0.files, q);
    }
  }

  // ----- Paths of no attached device, without any hypothesis -----

  /** Some event of the log was about a device with `q` in its footprint. */
  predicate Rewritten(c: Config, log: seq<DeviceEvent>, q: Path) {
    log != [] && (InFootprint(c.rules, log[|log| - 1].dev, q) || Rewritten(c, log[..|log| - 1], q))
  }

  /** A path of no attached device is as it was, unless some event was about it; then nothing is there. */
  lemma {:induction false} ContentElsewhere(c: Config, initial: Files, log: seq<DeviceEvent>, q: Path)
    requires Fitting(log)
    ensures Touched(c.rules, Held(log), q) ||
            Content(c, initial, log, q) == if Rewritten(c, log, q) then None else FileAt(initial, q)
    decreases |log|
  {
    if log != [] {
      var init, e := log[..|log| - 1], log[|log| - 1];
      if InFootprint(c.rules, e.dev, q) {
        if e.Add? {
          assert e.dev.syspath in Held(log) && Held(log)[e.dev.syspath] == e.dev;
        }
      } else {
        ContentElsewhere(c, initial, init, q);
        if p :| p in Held(init) && InFootprint(c.rules, Held(init)[p], q) {
          assert p in Held(log) && Held(log)[p] == Held(init)[p];
        }
      }
    }
  }
}
