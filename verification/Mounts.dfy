/** The mounts a container sees, as a tree: a path is looked up by crossing into the mount at its
  shortest mounted prefix, again and again, so the topmost mount wins. */
module Mounts {
  import opened Devices

  /** A mount and the mounts attached to directories of it. At most one mount is attached to a given
    directory of a given mount; stacking another one attaches it to the root of the first. */
  datatype Mount = Mount(writable: bool, children: map<Path, Mount>)

  /** Length of the shortest prefix of `p`, no shorter than `n`, that a mount is attached to. */
  function Crossing(children: map<Path, Mount>, p: Path, n: nat): (r: Option<nat>)
    requires n <= |p|
    ensures r.Some? ==> n <= r.value <= |p| && p[..r.value] in children
    ensures forall j | n <= j <= |p| && (r.Some? ==> j < r.value) :: p[..j] !in children
    decreases |p| - n
  {
    if p[..n] in children then Some(n)
    else if n < |p| then Crossing(children, p, n + 1)
    else None
  }

  /** The directory at which the lookup of `p` leaves the mount, if it does. */
  function Exit(m: Mount, p: Path): (r: Option<Path>)
    ensures r.Some? ==> r.value in m.children && r.value <= p
    ensures forall k | k in m.children && k <= p :: r.Some? && r.value <= k
  {
    var n := Crossing(m.children, p, 0);
    assert forall k | k <= p :: k == p[..|k|];
    if n.Some? then Some(p[..n.value]) else None
  }

  /** Whether the topmost mount at `p` is writable. */
  predicate Writable(m: Mount, p: Path) {
    var k := Exit(m, p);
    if k.Some? then Writable(m.children[k.value], p) else m.writable
  }

  /** Attach a writable mount at `p`, on top of whatever is there. */
  function Bind(m: Mount, p: Path): Mount {
    var k := Exit(m, p);
    if k.Some? then m.(children := m.children[k.value := Bind(m.children[k.value], p)])
    else m.(children := m.children[p := Mount(true, map[])])
  }

  /** Detach the topmost mount at `p` with everything below it. Fails quietly when the topmost mount
    covering `p` is not attached at `p` itself. */
  function Unbind(m: Mount, p: Path): Mount {
    var k := Exit(m, p);
    if k.None? then m
    else
      var child := m.children[k.value];
      if k.value == p && Exit(child, p).None? then m.(children := m.children - {p})
      else m.(children := m.children[k.value := Unbind(child, p)])
  }

  lemma ExitUnique(m: Mount, p: Path, k: Path)
    requires k in m.children && k <= p
    requires forall j | j in m.children && j <= p :: k <= j
    ensures Exit(m, p) == Some(k)
  {
    PrefixAntisymmetric(Exit(m, p).value, k);
  }

  lemma PrefixAntisymmetric(a: Path, b: Path)
    requires a <= b && b <= a
    ensures a == b
  {
    assert |a| == |b|;
  }

  /** The exit depends only on the attached directories that are prefixes. */
  lemma SameExit(m: Mount, n: Mount, p: Path)
    requires forall k | k <= p :: k in m.children <==> k in n.children
    ensures Exit(m, p) == Exit(n, p)
  {
    if Exit(m, p).Some? {
      ExitUnique(n, p, Exit(m, p).value);
    }
  }

  // ----- The lookup, component by component -----

  /** Every mount is attached to a directory at or below the one its parent is attached to, and the first to one
    at or below `top`. */
  ghost predicate Rooted(m: Mount, top: Path) {
    forall k | k in m.children :: top <= k && Rooted(m.children[k], k)
  }

  /** Whether the walk along `p` that has come to its first `n` components ends in a writable mount: a mount at
    the directory reached is crossed before the next component is taken. */
  predicate Walk(m: Mount, p: Path, n: nat)
    requires n <= |p|
    decreases m, |p| - n
  {
    if p[..n] in m.children then Walk(m.children[p[..n]], p, n)
    else if n < |p| then Walk(m, p, n + 1)
    else m.writable
  }

  /** The lookup by shortest prefixes gives the writability of the mount in which the walk ends. */
  lemma {:induction false} WalkIsLookup(m: Mount, top: Path, p: Path, n: nat)
    requires Rooted(m, top) && n <= |p| && forall j | 0 <= j < n :: p[..j] !in m.children
    ensures Walk(m, p, n) <==> Writable(m, p)
    decreases m, |p| - n
  {
    if p[..n] in m.children {
      forall k | k in m.children && k <= p ensures p[..n] <= k {
        assert k == p[..|k|];
      }
      ExitUnique(m, p, p[..n]);
      var child := m.children[p[..n]];
      forall j | 0 <= j < n ensures p[..j] !in child.children {
        assert |p[..j]| < |p[..n]|;
      }
      WalkIsLookup(child, p[..n], p, n);
    } else if n < |p| {
      WalkIsLookup(m, top, p, n + 1);
    } else {
      assert forall k | k <= p :: k == p[..|k|];
    }
  }

  /** Binds and detaches keep mounts below the directory their parent is attached to. */
  lemma {:induction false} BindRooted(m: Mount, top: Path, p: Path)
    requires Rooted(m, top) && top <= p
    ensures Rooted(Bind(m, p), top)
    decreases m
  {
    var k := Exit(m, p);
    if k.Some? {
      BindRooted(m.children[k.value], k.value, p);
    }
  }

  lemma {:induction false} UnbindRooted(m: Mount, top: Path, p: Path)
    requires Rooted(m, top)
    ensures Rooted(Unbind(m, p), top)
    decreases m
  {
    var k := Exit(m, p);
    if k.Some? {
      UnbindRooted(m.children[k.value], k.value, p);
    }
  }

  /** Detaching what was just bound restores the tree. */
  lemma {:induction false} DetachUndoesBind(m: Mount, p: Path)
    ensures Unbind(Bind(m, p), p) == m
    decreases m
  {
    var k := Exit(m, p);
    var bound := Bind(m, p);
    if k.Some? {
      DetachUndoesBind(m.children[k.value], p);
      assert bound.children.Keys == m.children.Keys;
      ExitUnique(bound, p, k.value);
      if k.value == p {
        BindIsCrossed(m.children[p], p);
      }
      assert Unbind(bound, p).children == m.children;
    } else {
      ExitUnique(bound, p, p);
      assert Unbind(bound, p).children == m.children;
    }
  }

  lemma BindIsCrossed(m: Mount, p: Path)
    ensures Exit(Bind(m, p), p).Some?
  {
    var key := if Exit(m, p).Some? then Exit(m, p).value else p;
    assert key in Bind(m, p).children && key <= p;
  }

  /** Binding `p` makes everything below it writable and changes nothing elsewhere. */
  lemma {:induction false} BindWritable(m: Mount, p: Path, q: Path)
    ensures Writable(Bind(m, p), q) <==> p <= q || Writable(m, q)
    decreases m
  {
    var bound := Bind(m, p);
    var k := Exit(m, p);
    var kq := Exit(m, q);
    if k.Some? {
      assert bound.children.Keys == m.children.Keys;
      assert Exit(bound, q) == kq by {
        if kq.Some? { ExitUnique(bound, q, kq.value); }
      }
      if p <= q {
        ExitUnique(m, q, k.value);
      }
      if kq == k {
        BindWritable(m.children[k.value], p, q);
      }
    } else if p <= q {
      assert forall j | j in m.children && j <= q :: p <= j;
      ExitUnique(bound, q, p);
    } else {
      assert Exit(bound, q) == kq by {
        if kq.Some? { ExitUnique(bound, q, kq.value); }
      }
    }
  }

  lemma BindElsewhere(m: Mount, x: Path, h: Path)
    requires !(x <= h)
    ensures Exit(Bind(m, x), h) == Exit(m, h)
  {
    SameExit(m, Bind(m, x), h);
  }

  /** The topmost mount at `p` is attached at `p` itself. */
  predicate MountedAt(m: Mount, p: Path) {
    var k := Exit(m, p);
    k.Some? && ((k.value == p && Exit(m.children[p], p).None?) || MountedAt(m.children[k.value], p))
  }

  lemma {:induction false} BindMounts(m: Mount, p: Path)
    ensures MountedAt(Bind(m, p), p)
    decreases m
  {
    var k := Exit(m, p);
    var bound := Bind(m, p);
    ExitUnique(bound, p, if k.Some? then k.value else p);
    if k.Some? {
      BindMounts(m.children[k.value], p);
    }
  }

  /** A bind that is not on the way does not change what is mounted at `p`. */
  lemma {:induction false} MountedStays(m: Mount, p: Path, x: Path)
    requires !(x <= p)
    ensures MountedAt(Bind(m, x), p) <==> MountedAt(m, p)
    decreases m
  {
    BindElsewhere(m, x, p);
    if Exit(m, p).Some? && Exit(m, x) == Exit(m, p) {
      var k := Exit(m, p).value;
      BindElsewhere(m.children[k], x, p);
      MountedStays(m.children[k], p, x);
    }
  }

  /** A bind further up hides whatever was mounted at `p`. */
  lemma {:induction false} BindHides(m: Mount, h: Path, p: Path)
    requires h <= p && h != p
    ensures !MountedAt(Bind(m, h), p)
    decreases m
  {
    var k := if Exit(m, h).Some? then Exit(m, h).value else h;
    var bound := Bind(m, h);
    PrefixTransitive(k, h, p);
    ExitUnique(bound, h, k);
    ExitShared(bound, h, p);
    if k == p {
      PrefixAntisymmetric(h, p);
    }
    if Exit(m, h).Some? {
      BindHides(m.children[k], h, p);
    }
  }

  /** Detaching where nothing is mounted changes nothing. */
  lemma {:induction false} UnbindNothing(m: Mount, p: Path)
    requires !MountedAt(m, p)
    ensures Unbind(m, p) == m
    decreases m
  {
    if Exit(m, p).Some? {
      var k := Exit(m, p).value;
      UnbindNothing(m.children[k], p);
      assert m.children[k := m.children[k]] == m.children;
    }
  }

  lemma BelowLeavesAlike(m: Mount, p: Path, x: Path)
    requires Exit(m, p).Some? && p <= x && p != x
    ensures Exit(Bind(m, x), p) == Exit(m, p)
    ensures var k := Exit(m, p).value; Bind(m, x).children == m.children[k := Bind(m.children[k], x)]
    ensures Exit(Bind(m.children[Exit(m, p).value], x), p) == Exit(m.children[Exit(m, p).value], p)
  {
    var k := Exit(m, p).value;
    PrefixTransitive(k, p, x);
    ExitShared(m, p, x);
    BindElsewhere(m, x, p);
    BindElsewhere(m.children[k], x, p);
  }

  /** Detaching after the mount on the way has been replaced by one with the same exit. */
  lemma DetachReplaced(m: Mount, p: Path, k: Path, y: Mount)
    requires Exit(m, p) == Some(k) && Exit(y, p) == Exit(m.children[k], p)
    ensures var n := m.(children := m.children[k := y]);
            Unbind(n, p) == if k == p && Exit(y, p).None? then Unbind(m, p)
                            else m.(children := m.children[k := Unbind(y, p)])
  {
    var n := m.(children := m.children[k := y]);
    SameExit(m, n, p);
    Overwritten(m.children, k, y, Unbind(y, p));
  }

  lemma Overwritten(children: map<Path, Mount>, k: Path, y: Mount, z: Mount)
    ensures children[k := y][k := z] == children[k := z]
    ensures children[k := y] - {k} == children - {k}
  {
  }

  /** Detaching takes along what was attached further down. */
  lemma {:induction false} DetachTakes(m: Mount, p: Path, x: Path)
    requires MountedAt(m, p) && p <= x && p != x
    ensures Unbind(Bind(m, x), p) == Unbind(m, p)
    decreases m
  {
    var k := Exit(m, p).value;
    BelowLeavesAlike(m, p, x);
    DetachReplaced(m, p, k, Bind(m.children[k], x));
    if !(k == p && Exit(m.children[k], p).None?) {
      DetachTakes(m.children[k], p, x);
    }
  }

  /** Whatever was attached further down since a bind goes when the bind is undone. */
  lemma UnbindTakesSubtree(m: Mount, h: Path, x: Path)
    requires h <= x && h != x
    ensures Unbind(Bind(Bind(m, h), x), h) == m
  {
    BindMounts(m, h);
    DetachTakes(Bind(m, h), h, x);
    DetachUndoesBind(m, h);
  }

  predicate Comparable(a: Path, b: Path) {
    a <= b || b <= a
  }

  /** Attaching or replacing a mount off the way to `b` does not disturb detaching `b`. */
  lemma DetachElsewhere(m: Mount, b: Path, x: Path, y: Mount)
    requires !(x <= b) && Exit(m, b).Some?
    ensures var n := m.(children := m.children[x := y]);
            Exit(n, b) == Exit(m, b) &&
            Unbind(n, b) == Unbind(m, b).(children := Unbind(m, b).children[x := y])
  {
    var n := m.(children := m.children[x := y]);
    var j := Exit(m, b).value;
    SameExit(m, n, b);
    assert n.children[j] == m.children[j];
    assert Unbind(n, b).children == Unbind(m, b).children[x := y];
  }

  lemma DetachKeys(m: Mount, b: Path, c: Path)
    requires Exit(m, b).Some? && !(Exit(m, b).value <= c)
    ensures Exit(Unbind(m, b), c) == Exit(m, c)
    ensures forall k | k <= c && k in m.children ::
              k in Unbind(m, b).children && Unbind(m, b).children[k] == m.children[k]
  {
    var n := Unbind(m, b);
    var j := Exit(m, b).value;
    forall k | k <= c ensures k in n.children <==> k in m.children {
      assert k != j;
    }
    SameExit(m, n, c);
  }

  lemma ExitShared(m: Mount, b: Path, c: Path)
    requires Exit(m, b).Some? && Exit(m, b).value <= c
    ensures Exit(m, c) == Exit(m, b)
  {
    var j, k := Exit(m, b).value, Exit(m, c).value;
    PrefixTransitive(k, j, b);
    PrefixAntisymmetric(j, k);
  }

  /** Different exits mean that neither exit is on the way to the other path. */
  lemma ExitsApart(m: Mount, b: Path, c: Path)
    requires Exit(m, b).Some? && Exit(m, b) != Exit(m, c)
    ensures !(Exit(m, b).value <= c)
    ensures Exit(m, c).Some? ==> !(Exit(m, c).value <= b)
  {
    if Exit(m, b).value <= c {
      ExitShared(m, b, c);
    } else if Exit(m, c).Some? && Exit(m, c).value <= b {
      ExitShared(m, c, b);
    }
  }

  lemma PrefixTransitive(a: Path, b: Path, c: Path)
    requires a <= b && b <= c
    ensures a <= c
  {
  }

  /** Binds and detaches of unrelated directories commute. */
  lemma {:induction false} DetachBindCommute(m: Mount, b: Path, c: Path)
    requires !Comparable(b, c)
    ensures Unbind(Bind(m, c), b) == Bind(Unbind(m, b), c)
    decreases m
  {
    var kb := Exit(m, b);
    var kc := Exit(m, c);
    if kb.None? {
      BindElsewhere(m, c, b);
    } else if kb == kc {
      assert kb.value != b && kb.value != c;
      DetachBindCommute(m.children[kb.value], b, c);
      SharedExitCommute(m, b, c, kb.value);
    } else {
      ExitsApart(m, b, c);
      DetachKeys(m, b, c);
      var x := if kc.Some? then kc.value else c;
      var y := if kc.Some? then Bind(m.children[x], c) else Mount(true, map[]);
      DetachElsewhere(m, b, x, y);
    }
  }

  lemma SharedExitCommute(m: Mount, b: Path, c: Path, k: Path)
    requires Exit(m, b) == Exit(m, c) == Some(k) && k != b && k != c && !(c <= b)
    ensures Unbind(Bind(m, c), b) == m.(children := m.children[k := Unbind(Bind(m.children[k], c), b)])
    ensures Bind(Unbind(m, b), c) == m.(children := m.children[k := Bind(Unbind(m.children[k], b), c)])
  {
    SharedBindFirst(m, b, c, k);
    SharedUnbindFirst(m, b, c, k);
  }

  lemma SharedBindFirst(m: Mount, b: Path, c: Path, k: Path)
    requires Exit(m, b) == Exit(m, c) == Some(k) && k != b && !(c <= b)
    ensures Unbind(Bind(m, c), b) == m.(children := m.children[k := Unbind(Bind(m.children[k], c), b)])
  {
    BindElsewhere(m, c, b);
    var x := Bind(m.children[k], c);
    Overwritten(m.children, k, x, Unbind(x, b));
  }

  lemma SharedUnbindFirst(m: Mount, b: Path, c: Path, k: Path)
    requires Exit(m, b) == Exit(m, c) == Some(k) && k != b
    ensures Bind(Unbind(m, b), c) == m.(children := m.children[k := Bind(Unbind(m.children[k], b), c)])
  {
    var y := Unbind(m.children[k], b);
    var d := Unbind(m, b);
    assert d.children == m.children[k := y];
    SameExit(m, d, c);
    Overwritten(m.children, k, y, Bind(y, c));
  }

  // ----- A container's sysfs directories -----

  function BindAll(base: Mount, bound: seq<Path>): Mount {
    if bound == [] then base
    else Bind(BindAll(base, bound[..|bound| - 1]), bound[|bound| - 1])
  }

  predicate Covered(bound: seq<Path>, p: Path) {
    exists b | b in bound :: b <= p
  }

  /** A path is writable exactly when it was to begin with or some bound directory is a prefix. */
  lemma {:induction false} BindAllWritable(base: Mount, bound: seq<Path>, p: Path)
    ensures Writable(BindAll(base, bound), p) <==> Writable(base, p) || Covered(bound, p)
    decreases |bound|
  {
    if bound != [] {
      var init, last := bound[..|bound| - 1], bound[|bound| - 1];
      BindAllWritable(base, init, p);
      BindWritable(BindAll(base, init), last, p);
      CoveredSnoc(bound, p);
    }
  }

  lemma CoveredSnoc(bound: seq<Path>, p: Path)
    requires bound != []
    ensures Covered(bound, p) <==> Covered(bound[..|bound| - 1], p) || bound[|bound| - 1] <= p
  {
    var init, last := bound[..|bound| - 1], bound[|bound| - 1];
    assert forall b | b in bound :: b in init || b == last;
    assert last in bound && forall b | b in init :: b in bound;
  }

  /** Whether the topmost bind that covers `p` is one of `p` itself. */
  predicate Visible(order: seq<Path>, p: Path) {
    order != [] &&
    var last := order[|order| - 1];
    last == p || (!(last <= p) && Visible(order[..|order| - 1], p))
  }

  /** What is left of the binds, in the order they were made, when `p` is detached: nothing happens if `p` is
    hidden or not bound, otherwise its topmost bind goes and takes along the later ones below it. */
  function Dropped(order: seq<Path>, p: Path): seq<Path> {
    if !Visible(order, p) then order
    else
      var init, last := order[..|order| - 1], order[|order| - 1];
      if last == p then init else Dropped(init, p) + if p <= last then [] else [last]
  }

  lemma BindAllSnoc(base: Mount, order: seq<Path>, p: Path)
    ensures BindAll(base, order + [p]) == Bind(BindAll(base, order), p)
  {
    assert (order + [p])[..|order|] == order;
  }

  /** Detaching follows the list of binds, whatever their order, unless the original mounts have one of their
    own at `p` that no bind covers. */
  lemma {:induction false} DetachFromAll(base: Mount, order: seq<Path>, p: Path)
    requires MountedAt(base, p) ==> Covered(order, p)
    ensures MountedAt(BindAll(base, order), p) <==> Visible(order, p)
    ensures Unbind(BindAll(base, order), p) == BindAll(base, Dropped(order, p))
    decreases |order|
  {
    if order == [] {
      UnbindNothing(base, p);
    } else {
      var init, last := order[..|order| - 1], order[|order| - 1];
      var before := BindAll(base, init);
      CoveredSnoc(order, p);
      if last == p {
        BindMounts(before, p);
        DetachUndoesBind(before, p);
      } else if last <= p {
        BindHides(before, last, p);
        UnbindNothing(Bind(before, last), p);
      } else {
        DetachFromAll(base, init, p);
        MountedStays(before, p, last);
        DetachUnder(base, order, p);
      }
    }
  }

  /** The case of a last bind that is not on the way to `p`. */
  lemma DetachUnder(base: Mount, order: seq<Path>, p: Path)
    requires order != [] && !(order[|order| - 1] <= p)
    requires var init := order[..|order| - 1];
             && (MountedAt(BindAll(base, init), p) <==> Visible(init, p))
             && (MountedAt(BindAll(base, order), p) <==> Visible(init, p))
             && Unbind(BindAll(base, init), p) == BindAll(base, Dropped(init, p))
    ensures Unbind(BindAll(base, order), p) == BindAll(base, Dropped(order, p))
  {
    var init, last := order[..|order| - 1], order[|order| - 1];
    if !Visible(init, p) {
      UnbindNothing(BindAll(base, order), p);
    } else if p <= last {
      DetachTakes(BindAll(base, init), p, last);
      assert Dropped(order, p) == Dropped(init, p);
    } else {
      DetachBindCommute(BindAll(base, init), p, last);
      BindAllSnoc(base, Dropped(init, p), last);
    }
  }

  // ----- Binds with parents first -----

  /** No directory comes after one below it, and none comes twice. */
  predicate Sorted(order: seq<Path>) {
    forall i, j | 0 <= i < j < |order| :: !(order[j] <= order[i])
  }

  lemma SortedLast(order: seq<Path>, p: Path)
    requires Sorted(order) && order != [] && p in order[..|order| - 1]
    ensures !(order[|order| - 1] <= p)
  {
    var i :| 0 <= i < |order| - 1 && order[i] == p;
  }

  lemma SortedSnoc(order: seq<Path>, p: Path)
    requires Sorted(order) && forall b | b in order :: !(p <= b)
    ensures Sorted(order + [p])
  {
    forall i | 0 <= i < |order| ensures !(p <= order[i]) { assert order[i] in order; }
  }

  /** With parents first, every bound directory is visible, and detaching it takes along exactly the ones
    below it. */
  lemma {:induction false} SortedDropped(order: seq<Path>, p: Path)
    requires Sorted(order)
    ensures p in order ==> Visible(order, p)
    ensures p in order ==> forall b :: b in Dropped(order, p) <==> b in order && !(p <= b)
    decreases |order|
  {
    if order != [] {
      var init, last := order[..|order| - 1], order[|order| - 1];
      assert init + [last] == order;
      if p == last {
        forall b | b in init ensures !(p <= b) { SortedLast(order, b); }
      } else if p in init {
        SortedLast(order, p);
        SortedDropped(init, p);
      }
    }
  }

  lemma {:induction false} DroppedSorted(order: seq<Path>, p: Path)
    requires Sorted(order)
    ensures Sorted(Dropped(order, p))
    decreases |order|
  {
    if order != [] {
      var init, last := order[..|order| - 1], order[|order| - 1];
      DroppedSorted(init, p);
      DroppedWithin(init, p);
      forall b | b in init ensures !(last <= b) { SortedLast(order, b); }
      SortedSnoc(Dropped(init, p), last);
    }
  }

  /** Detaching adds no bind. */
  lemma {:induction false} DroppedWithin(order: seq<Path>, p: Path)
    ensures forall b | b in Dropped(order, p) :: b in order
    decreases |order|
  {
    if order != [] {
      var init, last := order[..|order| - 1], order[|order| - 1];
      assert init + [last] == order;
      DroppedWithin(init, p);
    }
  }
}
