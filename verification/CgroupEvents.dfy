/** Watching a cgroup's `cgroup.events` file for the moment when the cgroup has no process left. */
module CgroupEvents {
  /** One attempt to read the file: it cannot be rewound, or its lines, the last of which may be broken. */
  datatype Reading = Unreachable | Content(lines: seq<string>, broken: bool)

  datatype Observation = Populated | Unpopulated | Unreadable

  const FIELD: string := "populated "

  /** The first `populated` line decides; a file that is gone or breaks off before it counts as
    unpopulated, and one that simply lacks it is an error. */
  function Look(r: Reading): Observation {
    if r.Unreachable? then Unpopulated
    else LookIn(r.lines, r.broken)
  }

  function LookIn(lines: seq<string>, broken: bool): Observation {
    if lines == [] then if broken then Unpopulated else Unreadable
    else if FIELD <= lines[0] then
      if lines[0][|lines[0]| - 1] == '1' then Populated else Unpopulated
    else LookIn(lines[1..], broken)
  }

  method Observe(r: Reading) returns (o: Observation)
    ensures o == Look(r)
  {
    if r.Unreachable? {
      return Unpopulated;
    }
    for i := 0 to |r.lines|
      invariant LookIn(r.lines[i..], r.broken) == Look(r)
    {
      var line := r.lines[i];
      assert r.lines[i..][1..] == r.lines[i + 1..];
      if FIELD <= line {
        return if line[|line| - 1] == '1' then Populated else Unpopulated;
      }
    }
    return if r.broken then Unpopulated else Unreadable;
  }

  /** Where the watching task is: still waiting, done because the cgroup is unpopulated, or failed. */
  datatype Watcher = Watching | Reported | Lost

  function Watch(w: Watcher, o: Observation): Watcher {
    match o
    case Populated => w
    case Unpopulated => if w.Watching? then Reported else w
    case Unreadable => if w.Watching? then Lost else w
  }

  /** How a wait for the next change of the file ends: with the file as it is then, or with an error. */
  datatype Wakeup = Woken(reading: Reading) | Interrupted

  function Sight(w: Wakeup): Observation {
    match w
    case Woken(reading) => Look(reading)
    case Interrupted => Unreadable
  }

  /** The watcher after these looks, if it still watches before them. */
  function Watched(w: Watcher, wakeups: seq<Wakeup>): Watcher
    decreases |wakeups|
  {
    if wakeups == [] || !w.Watching? then w else Watched(Watch(w, Sight(wakeups[0])), wakeups[1..])
  }

  /** Look once, and again after every change of the file, until the cgroup is unpopulated. `wakeups` are the
    changes so far. */
  method Wait(first: Reading, wakeups: seq<Wakeup>) returns (w: Watcher)
    ensures w == Watched(Watching, [Woken(first)] + wakeups)
    ensures w.Watching? <==> Look(first).Populated? && forall k | k in wakeups :: Sight(k).Populated?
    ensures !w.Watching? ==>
              exists n | 0 <= n <= |wakeups| ::
                && (forall k | 0 <= k < n :: ([Woken(first)] + wakeups)[k].Woken? &&
                                             Sight(([Woken(first)] + wakeups)[k]).Populated?)
                && Sight(([Woken(first)] + wakeups)[n]) == if w.Reported? then Unpopulated else Unreadable
  {
    ghost var all := [Woken(first)] + wakeups;
    w := Watching;
    var o := Observe(first);
    assert Sight(all[0]) == o && all[1..] == wakeups;
    if !o.Populated? {
      return if o.Unpopulated? then Reported else Lost;
    }
    for i := 0 to |wakeups|
      invariant w == Watching && Watched(w, wakeups[i..]) == Watched(Watching, all)
      invariant forall k | 0 <= k <= i :: all[k].Woken? && Sight(all[k]).Populated?
      invariant forall k | 0 <= k < i :: Sight(wakeups[k]).Populated?
    {
      assert all[i + 1] == wakeups[i] && wakeups[i] in wakeups;
      assert wakeups[i..][1..] == wakeups[i + 1..];
      if wakeups[i].Interrupted? {
        assert !Sight(wakeups[i]).Populated?;
        return Lost;
      }
      o := Observe(wakeups[i].reading);
      if !o.Populated? {
        return if o.Unpopulated? then Reported else Lost;
      }
    }
  }

  /** Line `n` is the first one about this. */
  ghost predicate IsFirst(lines: seq<string>, n: nat) {
    && n < |lines| && "populated " <= lines[n]
    && forall k | 0 <= k < n :: !("populated " <= lines[k])
  }

  lemma FirstOfRest(lines: seq<string>, n: nat)
    requires lines != [] && !("populated " <= lines[0])
    ensures IsFirst(lines, n + 1) <==> IsFirst(lines[1..], n)
  {
    var rest := lines[1..];
    assert forall k | 0 <= k < |rest| :: rest[k] == lines[k + 1];
    if IsFirst(rest, n) {
      assert forall k | 0 < k < n + 1 :: lines[k] == rest[k - 1];
    }
  }

  /** The cgroup counts as populated only on the word of the kernel: a line of the file says so. */
  lemma {:induction false} PopulatedIsWritten(lines: seq<string>, broken: bool)
    ensures LookIn(lines, broken).Populated? <==>
            exists n: nat :: IsFirst(lines, n) && lines[n][|lines[n]| - 1] == '1'
    decreases |lines|
  {
    if lines != [] && "populated " <= lines[0] {
      assert IsFirst(lines, 0);
    } else if lines != [] {
      PopulatedIsWritten(lines[1..], broken);
      forall n: nat ensures IsFirst(lines, n + 1) <==> IsFirst(lines[1..], n) {
        FirstOfRest(lines, n);
      }
      if n: nat :| IsFirst(lines, n) && lines[n][|lines[n]| - 1] == '1' {
        assert n > 0;
        assert IsFirst(lines, n - 1 + 1);
        assert IsFirst(lines[1..], n - 1);
      }
    }
  }

  /** It is an error exactly when the whole file can be read and no line is about this. */
  lemma {:induction false} UnreadableIff(lines: seq<string>, broken: bool)
    ensures LookIn(lines, broken).Unreadable? <==>
            !broken && forall k | 0 <= k < |lines| :: !("populated " <= lines[k])
    decreases |lines|
  {
    if lines != [] && !("populated " <= lines[0]) {
      var rest := lines[1..];
      UnreadableIff(rest, broken);
      assert forall k | 0 < k < |lines| :: lines[k] == rest[k - 1];
      assert forall k | 0 <= k < |rest| :: rest[k] == lines[k + 1];
    }
  }

  /** After a change the cgroup counts as populated exactly when the file can be read from its start and its
    first line about this ends in 1, and the watch fails exactly when the wait for the change did or the whole
    file has no such line. In all other cases the cgroup counts as unpopulated. */
  lemma SightExact(w: Wakeup)
    ensures Sight(w).Populated? <==>
            && w.Woken? && w.reading.Content?
            && exists n: nat :: IsFirst(w.reading.lines, n) && w.reading.lines[n][|w.reading.lines[n]| - 1] == '1'
    ensures Sight(w).Unreadable? <==>
            || w.Interrupted?
            || (&& w.reading.Content? && !w.reading.broken
                && forall k | 0 <= k < |w.reading.lines| :: !("populated " <= w.reading.lines[k]))
  {
    if w.Woken? && w.reading.Content? {
      PopulatedIsWritten(w.reading.lines, w.reading.broken);
      UnreadableIff(w.reading.lines, w.reading.broken);
    }
  }
}
