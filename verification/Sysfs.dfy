/** Writable sysfs directories: the mounts always reflect the set of bound devices, provided a device is
  added before and removed after the devices below it. */
module Sysfs {
  import opened Devices
  import opened Monitor
  import opened Controller
  import opened Effects
  import opened Mounts

  /** `below` is at or below `above`. */
  predicate AtOrBelow(below: Path, above: Path) {
    above <= below
  }

  /** No other attached device lies below the one that comes or goes. */
  predicate LeafEvent(held: Registry, e: DeviceEvent) {
    forall p | p in held && held[p].node.Some? && p != e.dev.syspath :: !AtOrBelow(p, e.dev.syspath)
  }

  /** The mounts are the original ones with some of the bound directories on top, bound in the order `live`, in
    which no directory comes after one below it. */
  ghost predicate Backed(base: Mount, s: Plant, live: seq<Path>) {
    s.mounts == BindAll(base, live) && Sorted(live) && forall p | p in live :: p in s.bound
  }

  /** The same with all bound directories. */
  ghost predicate Arranged(base: Mount, s: Plant, order: seq<Path>) {
    Backed(base, s, order) && forall p | p in s.bound :: p in order
  }

  ghost predicate SysfsOk(base: Mount, s: Plant) {
    exists order :: Arranged(base, s, order)
  }

  predicate CoveredBySet(bound: set<Path>, p: Path) {
    exists b | b in bound :: b <= p
  }

  /** A path is writable exactly when it was so originally or a bound directory is a prefix of it. */
  ghost predicate Exact(base: Mount, s: Plant) {
    forall q :: Writable(s.mounts, q) <==> Writable(base, q) || CoveredBySet(s.bound, q)
  }

  /** Arranged mounts are exact, and without bound directories the original mounts are back. */
  lemma SysfsExact(base: Mount, s: Plant)
    requires SysfsOk(base, s)
    ensures Exact(base, s)
    ensures s.bound == {} ==> s.mounts == base
  {
    var order :| Arranged(base, s, order);
    forall q ensures Writable(s.mounts, q) <==> Writable(base, q) || CoveredBySet(s.bound, q) {
      BindAllWritable(base, order, q);
    }
    NothingBacked(base, s, order);
  }

  lemma NothingBacked(base: Mount, s: Plant, live: seq<Path>)
    requires Backed(base, s, live)
    ensures s.bound == {} ==> s.mounts == base
  {
    assert live != [] ==> live[0] in s.bound;
  }

  // ----- What one event does to the mounts -----

  /** From `s` to `t` nothing changes, or `p` is bound, or `p` is detached. */
  ghost predicate Changes(s: Plant, t: Plant, p: Path) {
    || (t.mounts == s.mounts && t.bound == s.bound)
    || (p !in s.bound && t.mounts == Bind(s.mounts, p) && t.bound == s.bound + {p})
    || (p in s.bound && t.mounts == Unbind(s.mounts, p) && t.bound == s.bound - {p})
  }

  /** Every successful event binds or detaches the directory of its own device, or none. */
  lemma EventChanges(c: Config, held: Registry, s: Plant, e: DeviceEvent, env: Env)
    requires Attaches(c.rules, held, s) && Fits(held, e) && Process(c, s, e, env).1.Ok?
    ensures Changes(s, Process(c, s, e, env).0, e.dev.syspath)
  {
    if e.dev.node.None? {
      assert e.dev.syspath !in s.devices;
      Ignored(c, s, e, env);
    } else if e.Add? {
      AddedFields(c, s, e.dev, env);
    } else {
      RemovedFields(s, e.dev.syspath, env);
      assert e.dev.syspath !in s.bound ==> s.bound - {e.dev.syspath} == s.bound;
    }
  }

  /** The list of binds after the change. */
  function NextOrder(order: seq<Path>, s: Plant, t: Plant, p: Path): seq<Path> {
    if p in t.bound && p !in s.bound then order + [p]
    else if p in s.bound && p !in t.bound then Dropped(order, p)
    else order
  }

  /** Whatever the order of the binds, the mounts are those of the list. */
  lemma OrderFollows(base: Mount, order: seq<Path>, s: Plant, t: Plant, p: Path)
    requires Changes(s, t, p) && s.mounts == BindAll(base, order)
    requires MountedAt(base, p) && p in s.bound ==> Covered(order, p)
    ensures t.mounts == BindAll(base, NextOrder(order, s, t, p))
  {
    if p in t.bound && p !in s.bound {
      BindAllSnoc(base, order, p);
    } else if p in s.bound && p !in t.bound {
      DetachFromAll(base, order, p);
    }
  }

  // ----- Additions -----

  /** No bound directory lies at or below `p`. */
  predicate Foremost(bound: set<Path>, p: Path) {
    forall b | b in bound :: !(p <= b)
  }

  /** A bind keeps writability exact from any state, and keeps the mounts backed if it comes before those of
    the directories below. */
  lemma AdditionExact(base: Mount, s: Plant, t: Plant, p: Path, live: seq<Path>)
    requires t.mounts == Bind(s.mounts, p) && t.bound == s.bound + {p}
    ensures Exact(base, s) ==> Exact(base, t)
    ensures Backed(base, s, live) && Foremost(s.bound, p) ==> Backed(base, t, live + [p])
  {
    forall q ensures Writable(t.mounts, q) <==> p <= q || Writable(s.mounts, q) {
      BindWritable(s.mounts, p, q);
    }
    assert forall q :: CoveredBySet(t.bound, q) <==> CoveredBySet(s.bound, q) || p <= q by {
      assert p in t.bound;
    }
    if Backed(base, s, live) && Foremost(s.bound, p) {
      SortedSnoc(live, p);
      BindAllSnoc(base, live, p);
    }
  }

  // ----- Exactly when a removal keeps writability exact -----

  /** `a` lies strictly above `p`. */
  predicate Above(a: Path, p: Path) {
    a <= p && a != p
  }

  /** What goes with `p` stays writable for another reason, or `p` itself has gone before. */
  ghost predicate Spared(base: Mount, live: seq<Path>, bound: set<Path>, p: Path) {
    || p !in live
    || (exists a | a in live :: Above(a, p))
    || (forall q | p <= q && CoveredBySet(bound - {p}, q) :: Writable(base, q))
  }

  lemma DroppedCovers(live: seq<Path>, p: Path, q: Path)
    requires Sorted(live) && p in live
    ensures !(p <= q) ==> (Covered(Dropped(live, p), q) <==> Covered(live, q))
    ensures p <= q ==> (Covered(Dropped(live, p), q) <==> exists a | a in live :: Above(a, p))
  {
    SortedDropped(live, p);
    if p <= q {
      forall b | b in live && !(p <= b) && b <= q ensures Above(b, p) {
        PrefixesComparable(b, p, q);
      }
      forall a | a in live && Above(a, p) ensures !(p <= a) && a <= q {
        PrefixTransitive(a, p, q);
        if p <= a { PrefixAntisymmetric(a, p); }
      }
    } else {
      forall b | b in live && b <= q ensures !(p <= b) {
        if p <= b { PrefixTransitive(p, b, q); }
      }
    }
  }

  /** A removed device that had already lost its bind changes no path. */
  lemma LostAt(base: Mount, s: Plant, t: Plant, live: seq<Path>, p: Path, q: Path)
    requires Backed(base, s, live) && Exact(base, s) && p in s.bound && p !in live
    requires t.mounts == s.mounts && t.bound == s.bound - {p}
    ensures Writable(t.mounts, q) <==> Writable(base, q) || CoveredBySet(t.bound, q)
  {
    BindAllWritable(base, live, q);
    assert forall b | b in live :: b in t.bound;
  }

  /** Away from a removed device nothing changes. */
  lemma ElsewhereAt(base: Mount, s: Plant, t: Plant, live: seq<Path>, p: Path, q: Path)
    requires Backed(base, s, live) && Exact(base, s) && p in live && !(p <= q)
    requires t.mounts == BindAll(base, Dropped(live, p)) && t.bound == s.bound - {p}
    ensures Writable(t.mounts, q) <==> Writable(base, q) || CoveredBySet(t.bound, q)
  {
    BindAllWritable(base, live, q);
    BindAllWritable(base, Dropped(live, p), q);
    DroppedCovers(live, p, q);
    WithoutCovers(s.bound, p, q);
  }

  lemma WithoutCovers(bound: set<Path>, p: Path, q: Path)
    requires !(p <= q)
    ensures CoveredBySet(bound - {p}, q) <==> CoveredBySet(bound, q)
  {
    forall b | b in bound && b <= q ensures b in bound - {p} {
    }
  }

  /** At and below a removed device only a bind further up keeps a path writable. */
  lemma BelowAt(base: Mount, s: Plant, t: Plant, live: seq<Path>, p: Path, q: Path)
    requires Backed(base, s, live) && p in live && p <= q
    requires t.mounts == BindAll(base, Dropped(live, p)) && t.bound == s.bound - {p}
    ensures (Writable(t.mounts, q) <==> Writable(base, q) || CoveredBySet(t.bound, q)) <==>
            (exists a | a in live :: Above(a, p)) || (CoveredBySet(t.bound, q) ==> Writable(base, q))
  {
    BindAllWritable(base, Dropped(live, p), q);
    DroppedCovers(live, p, q);
    if a :| a in live && Above(a, p) {
      assert a in t.bound;
      PrefixTransitive(a, p, q);
    }
  }

  lemma {:induction false} DroppedIsSame(order: seq<Path>, p: Path)
    requires p !in order
    ensures Dropped(order, p) == order && !Visible(order, p)
    decreases |order|
  {
    if order != [] {
      var init, last := order[..|order| - 1], order[|order| - 1];
      assert last in order;
      assert init + [last] == order;
      DroppedIsSame(init, p);
    }
  }

  /** From mounts that are exact, whatever was spared before: a removal keeps them so if and only if its device
    is spared, and the mounts stay backed in any case. */
  lemma DetachExactIff(base: Mount, s: Plant, t: Plant, live: seq<Path>, p: Path)
    requires Backed(base, s, live) && Exact(base, s) && p in s.bound
    requires MountedAt(base, p) ==> Covered(live, p)
    requires t.mounts == Unbind(s.mounts, p) && t.bound == s.bound - {p}
    ensures Backed(base, t, Dropped(live, p))
    ensures Exact(base, t) <==> Spared(base, live, s.bound, p)
  {
    DetachFromAll(base, live, p);
    SortedDropped(live, p);
    DroppedSorted(live, p);
    DroppedWithin(live, p);
    if p !in live {
      DroppedIsSame(live, p);
      forall q ensures Writable(t.mounts, q) <==> Writable(base, q) || CoveredBySet(t.bound, q) {
        LostAt(base, s, t, live, p, q);
      }
    } else {
      TakenExactIff(base, s, t, live, p);
    }
  }

  lemma TakenExactIff(base: Mount, s: Plant, t: Plant, live: seq<Path>, p: Path)
    requires Backed(base, s, live) && Exact(base, s) && p in live
    requires t.mounts == BindAll(base, Dropped(live, p)) && t.bound == s.bound - {p}
    ensures Exact(base, t) <==> Spared(base, live, s.bound, p)
  {
    forall q | !(p <= q) ensures Writable(t.mounts, q) <==> Writable(base, q) || CoveredBySet(t.bound, q) {
      ElsewhereAt(base, s, t, live, p, q);
    }
    forall q | p <= q
      ensures (Writable(t.mounts, q) <==> Writable(base, q) || CoveredBySet(t.bound, q)) <==>
              (exists a | a in live :: Above(a, p)) || (CoveredBySet(t.bound, q) ==> Writable(base, q))
    {
      BelowAt(base, s, t, live, p, q);
    }
  }

  lemma PrefixesComparable(a: Path, p: Path, q: Path)
    requires a <= q && p <= q
    ensures a <= p || p <= a
  {
  }

  /** A bound directory lies strictly above `p`, or no other one below it. */
  predicate Safe(bound: set<Path>, p: Path) {
    || (exists a | a in bound :: Above(a, p))
    || (forall b | b in bound && p <= b :: b == p)
  }

  lemma BoundIsCovered(base: Mount, s: Plant, live: seq<Path>, b: Path)
    requires Backed(base, s, live) && Exact(base, s) && b in s.bound && !Writable(base, b)
    ensures Covered(live, b)
  {
    BindAllWritable(base, live, b);
    assert b <= b && CoveredBySet(s.bound, b);
  }

  lemma AboveIsLive(live: seq<Path>, a: Path, p: Path)
    requires Covered(live, a) && Above(a, p)
    ensures exists b | b in live :: Above(b, p)
  {
    var b :| b in live && b <= a;
    PrefixTransitive(b, a, p);
    if b == p { PrefixAntisymmetric(a, p); }
    assert Above(b, p);
  }

  lemma AloneCovers(bound: set<Path>, p: Path, q: Path)
    requires forall b | b in bound && p <= b :: b == p
    requires forall a | a in bound :: !Above(a, p)
    requires p <= q
    ensures !CoveredBySet(bound - {p}, q)
  {
    forall b | b in bound - {p} ensures !(b <= q) {
      if b <= q { PrefixesComparable(b, p, q); }
    }
  }

  /** Where the original mounts are read-only, whether a device is spared can be read off the bound
    directories. */
  lemma SparedIffSafe(base: Mount, s: Plant, live: seq<Path>, p: Path)
    requires Backed(base, s, live) && Exact(base, s) && p in s.bound
    requires forall b | b in s.bound :: !Writable(base, b)
    ensures Covered(live, p)
    ensures Spared(base, live, s.bound, p) <==> Safe(s.bound, p)
  {
    BoundIsCovered(base, s, live, p);
    if a :| a in s.bound && Above(a, p) {
      BoundIsCovered(base, s, live, a);
      AboveIsLive(live, a, p);
    } else if Spared(base, live, s.bound, p) {
      forall b | b in s.bound && p <= b ensures b == p {
        SparedAlone(base, live, s.bound, p, b);
      }
    } else if Safe(s.bound, p) {
      forall q | p <= q ensures !CoveredBySet(s.bound - {p}, q) {
        AloneCovers(s.bound, p, q);
      }
    }
  }

  lemma SparedAlone(base: Mount, live: seq<Path>, bound: set<Path>, p: Path, b: Path)
    requires Spared(base, live, bound, p) && Covered(live, p) && forall a | a in live :: a in bound
    requires forall a | a in bound :: !Above(a, p) && !Writable(base, a)
    requires b in bound && p <= b
    ensures b == p
  {
    var a :| a in live && a <= p;
    assert !Above(a, p);
    assert b <= b;
    if b != p {
      assert b in bound - {p};
      assert CoveredBySet(bound - {p}, b);
    }
  }

  /** The removal of a bound device from exact mounts, where the original ones are read-only: they stay exact
    if and only if a bound directory lies strictly above it or no other one below it. */
  lemma RemovalExactIff(base: Mount, s: Plant, p: Path, env: Env, live: seq<Path>)
    requires Backed(base, s, live) && Exact(base, s) && p in s.bound
    requires forall b | b in s.bound :: !Writable(base, b)
    requires p in s.devices && s.devices[p].device.syspath == p && RemoveDevice(s, p, env).1.Ok?
    ensures Backed(base, RemoveDevice(s, p, env).0, Dropped(live, p))
    ensures Exact(base, RemoveDevice(s, p, env).0) <==> Safe(s.bound, p)
  {
    RemovedFields(s, p, env);
    SparedIffSafe(base, s, live, p);
    DetachExactIff(base, s, RemoveDevice(s, p, env).0, live, p);
  }

  // ----- Leaf events -----

  lemma ArrangedUnbind(base: Mount, s: Plant, t: Plant, order: seq<Path>, p: Path)
    requires Arranged(base, s, order) && p in s.bound
    requires t.mounts == Unbind(s.mounts, p) && t.bound == s.bound - {p}
    requires forall b | b in s.bound && b != p :: !(p <= b)
    ensures Arranged(base, t, Dropped(order, p))
  {
    assert p <= p;
    DetachFromAll(base, order, p);
    SortedDropped(order, p);
    DroppedSorted(order, p);
  }

  /** An event at a leaf keeps the mounts in step with the bound directories, whether its own bind works
    or not. */
  lemma SysfsStep(c: Config, base: Mount, held: Registry, s: Plant, e: DeviceEvent, env: Env)
    requires Attaches(c.rules, held, s) && Fits(held, e) && Process(c, s, e, env).1.Ok?
    requires SysfsOk(base, s) && LeafEvent(held, e)
    ensures SysfsOk(base, Process(c, s, e, env).0)
  {
    var t := Process(c, s, e, env).0;
    var p := e.dev.syspath;
    var order :| Arranged(base, s, order);
    EventChanges(c, held, s, e, env);
    forall b | b in s.bound && b != p ensures !(p <= b) {
      assert b in held && !AtOrBelow(b, p);
    }
    if p in s.bound && p !in t.bound {
      ArrangedUnbind(base, s, t, order, p);
    } else if p !in s.bound && p in t.bound {
      AdditionExact(base, s, t, p, order);
      assert Arranged(base, t, order + [p]);
    } else {
      assert Arranged(base, t, order);
    }
  }
}
