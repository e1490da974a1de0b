/** User-namespace ID maps: parsing `/proc/<pid>/{uid,gid}_map` and translating IDs through them. */
module IdMap {
  import opened Devices
  import opened Text

  /** `count` IDs starting at `inside` correspond to those starting at `outside`. */
  datatype Range = Range(inside: U32, outside: U32, count: U32)

  // ----- Parsing -----

  function ParseWord(words: seq<string>, i: nat): Option<U32> {
    if i < |words| then
      var n := FromDigits(words[i], 10, U32_LIMIT);
      if n.Some? then Some(n.value) else None
    else None
  }

  function ParseLine(line: string): Option<Range> {
    var words := Words(line);
    var inside, outside, count := ParseWord(words, 0), ParseWord(words, 1), ParseWord(words, 2);
    if inside.Some? && outside.Some? && count.Some?
    then Some(Range(inside.value, outside.value, count.value))
    else None
  }

  function ParseLines(lines: seq<string>): Option<seq<Range>> {
    if lines == [] then Some([])
    else
      var init := ParseLines(lines[..|lines| - 1]);
      var last := ParseLine(lines[|lines| - 1]);
      if init.Some? && last.Some? then Some(init.value + [last.value]) else None
  }

  function ParseMap(content: string): Option<seq<Range>> {
    ParseLines(Lines(content))
  }

  lemma ParseLinesMore(lines: seq<string>, i: nat)
    requires i < |lines|
    ensures var init, last := ParseLines(lines[..i]), ParseLine(lines[i]);
            ParseLines(lines[..i + 1]) ==
            if init.Some? && last.Some? then Some(init.value + [last.value]) else None
  {
    assert lines[..i + 1][..i] == lines[..i];
  }

  lemma {:induction false} ParseLinesPrefix(lines: seq<string>, i: nat)
    requires i <= |lines| && ParseLines(lines[..i]).None?
    ensures ParseLines(lines).None?
    decreases |lines| - i
  {
    if i == |lines| {
      assert lines[..i] == lines;
    } else {
      ParseLinesMore(lines, i);
      ParseLinesPrefix(lines, i + 1);
    }
  }

  method Parse(content: string) returns (r: Option<seq<Range>>)
    ensures r == ParseMap(content)
  {
    var ranges := [];
    var lines := Lines(content);
    for i := 0 to |lines|
      invariant ParseLines(lines[..i]) == Some(ranges)
    {
      ParseLinesMore(lines, i);
      var words := Words(lines[i]);
      var inside := ParseWord(words, 0);
      var outside := ParseWord(words, 1);
      var count := ParseWord(words, 2);
      if inside.None? || outside.None? || count.None? {
        ParseLinesPrefix(lines, i + 1);
        return None;
      }
      ranges := ranges + [Range(inside.value, outside.value, count.value)];
    }
    assert lines[..|lines|] == lines;
    return Some(ranges);
  }

  predicate WellFormedLine(line: string) {
    var words := Words(line);
    |words| >= 3 && forall i | 0 <= i < 3 :: FromDigits(words[i], 10, 0x1_0000_0000).Some?
  }

  /** A map is accepted exactly when each line starts with three numbers that fit. */
  lemma {:induction false} ParseAccepts(lines: seq<string>)
    ensures ParseLines(lines).Some? <==> forall line | line in lines :: WellFormedLine(line)
    decreases |lines|
  {
    if lines != [] {
      var init, last := lines[..|lines| - 1], lines[|lines| - 1];
      ParseAccepts(init);
      assert lines == init + [last];
      LineAccepts(last);
    }
  }

  lemma LineAccepts(line: string)
    ensures ParseLine(line).Some? <==> WellFormedLine(line)
  {
    var words := Words(line);
    if |words| >= 3 {
      assert WellFormedLine(line) <==>
             FromDigits(words[0], 10, 0x1_0000_0000).Some? && FromDigits(words[1], 10, 0x1_0000_0000).Some? &&
             FromDigits(words[2], 10, 0x1_0000_0000).Some?;
    }
  }

  // ----- Printing, and reading back -----

  datatype Padding = Padding(before: string, first: string, second: string, after: string) {
    predicate Valid() {
      && Spaces(before) && Spaces(first) && Spaces(second) && Spaces(after)
      && first != [] && second != []
    }
  }

  predicate Spaces(s: string) {
    forall c | c in s :: c == ' ' || c == '\t'
  }

  function RenderLine(r: (nat, nat, nat), pad: Padding): string {
    pad.before + Decimal(r.0) + (pad.first + Decimal(r.1) + (pad.second + Decimal(r.2) + pad.after))
  }

  function Render(triples: seq<(nat, nat, nat)>, pads: seq<Padding>): string
    requires |triples| == |pads|
  {
    if triples == [] then ""
    else RenderLine(triples[0], pads[0]) + "\n" + Render(triples[1..], pads[1..])
  }

  lemma DecimalSolid(n: nat)
    ensures Solid(Decimal(n)) && Decimal(n) != [] && '\n' !in Decimal(n) && '\r' !in Decimal(n)
  {
    DecimalValue(n);
  }

  lemma StartsBlank(pad: string, rest: string)
    requires Spaces(pad) && pad != []
    ensures IsSpace((pad + rest)[0])
  {
    assert (pad + rest)[0] in pad;
  }

  lemma ThreeWords(a: string, b: string, c: string, pad: Padding)
    requires pad.Valid() && Solid(a) && Solid(b) && Solid(c) && a != [] && b != [] && c != []
    ensures Words(pad.before + a + (pad.first + b + (pad.second + c + pad.after))) == [a, b, c]
  {
    var rest := pad.first + b + (pad.second + c + pad.after);
    StartsBlank(pad.first, b + (pad.second + c + pad.after));
    assert rest == pad.first + (b + (pad.second + c + pad.after));
    FirstWord(pad.before, a, rest);
    TwoWords(b, c, pad);
    assert [a] + [b, c] == [a, b, c];
  }

  lemma TwoWords(b: string, c: string, pad: Padding)
    requires pad.Valid() && Solid(b) && Solid(c) && b != [] && c != []
    ensures Words(pad.first + b + (pad.second + c + pad.after)) == [b, c]
  {
    var rest := pad.second + c + pad.after;
    StartsBlank(pad.second, c + pad.after);
    assert rest == pad.second + (c + pad.after);
    FirstWord(pad.first, b, rest);
    assert pad.after != [] ==> pad.after[0] in pad.after;
    FirstWord(pad.second, c, pad.after);
    BlankHasNoWords(pad.after);
  }

  /** Whatever the padding, a rendered line has exactly the three numbers as its words. */
  lemma RenderedWords(r: (nat, nat, nat), pad: Padding)
    requires pad.Valid()
    ensures Words(RenderLine(r, pad)) == [Decimal(r.0), Decimal(r.1), Decimal(r.2)]
    ensures '\n' !in RenderLine(r, pad) && '\r' !in RenderLine(r, pad)
  {
    DecimalSolid(r.0);
    DecimalSolid(r.1);
    DecimalSolid(r.2);
    ThreeWords(Decimal(r.0), Decimal(r.1), Decimal(r.2), pad);
    NoBreaks(r, pad);
  }

  lemma NoBreaks(r: (nat, nat, nat), pad: Padding)
    requires pad.Valid()
    ensures '\n' !in RenderLine(r, pad) && '\r' !in RenderLine(r, pad)
  {
    DecimalSolid(r.0);
    DecimalSolid(r.1);
    DecimalSolid(r.2);
  }

  predicate Fits(r: (nat, nat, nat)) {
    r.0 < 0x1_0000_0000 && r.1 < 0x1_0000_0000 && r.2 < 0x1_0000_0000
  }

  /** A rendered line reads back as its triple, and is rejected when a number does not fit. */
  lemma RenderedLine(r: (nat, nat, nat), pad: Padding)
    requires pad.Valid()
    ensures ParseLine(RenderLine(r, pad)) == if Fits(r) then Some(Range(r.0, r.1, r.2)) else None
  {
    RenderedWords(r, pad);
    DecimalRoundTrip(r.0, U32_LIMIT);
    DecimalRoundTrip(r.1, U32_LIMIT);
    DecimalRoundTrip(r.2, U32_LIMIT);
  }

  lemma {:induction false} RenderedLines(triples: seq<(nat, nat, nat)>, pads: seq<Padding>)
    requires |triples| == |pads| && forall pad | pad in pads :: pad.Valid()
    ensures |Lines(Render(triples, pads))| == |triples|
    ensures forall i | 0 <= i < |triples| ::
              Lines(Render(triples, pads))[i] == RenderLine(triples[i], pads[i])
    decreases |triples|
  {
    if triples != [] {
      RenderedLines(triples[1..], pads[1..]);
      RenderedWords(triples[0], pads[0]);
      FirstLine(RenderLine(triples[0], pads[0]), Render(triples[1..], pads[1..]));
    }
  }

  function ToRange(r: (nat, nat, nat)): Range
    requires Fits(r)
  {
    Range(r.0, r.1, r.2)
  }

  lemma {:induction false} ParseAll(lines: seq<string>, ranges: seq<Range>)
    requires |lines| == |ranges| && forall i | 0 <= i < |lines| :: ParseLine(lines[i]) == Some(ranges[i])
    ensures ParseLines(lines) == Some(ranges)
    decreases |lines|
  {
    if lines != [] {
      ParseAll(lines[..|lines| - 1], ranges[..|ranges| - 1]);
      assert ranges == ranges[..|ranges| - 1] + [ranges[|ranges| - 1]];
    }
  }

  /** Parsing inverts printing with any spaces and tabs: it returns the printed triples when all of them
    fit, and nothing when one does not. */
  lemma PrintParse(triples: seq<(nat, nat, nat)>, pads: seq<Padding>)
    requires |triples| == |pads| && forall pad | pad in pads :: pad.Valid()
    ensures (forall i | 0 <= i < |triples| :: Fits(triples[i])) ==>
              ParseMap(Render(triples, pads)).Some? &&
              |ParseMap(Render(triples, pads)).value| == |triples| &&
              forall i | 0 <= i < |triples| ::
                ParseMap(Render(triples, pads)).value[i] == ToRange(triples[i])
    ensures (exists i :: 0 <= i < |triples| && !Fits(triples[i])) ==>
              ParseMap(Render(triples, pads)).None?
  {
    var lines := Lines(Render(triples, pads));
    RenderedLines(triples, pads);
    forall i | 0 <= i < |triples| ensures ParseLine(lines[i]).Some? <==> Fits(triples[i])
                                  ensures Fits(triples[i]) ==> ParseLine(lines[i]).value == ToRange(triples[i])
    {
      RenderedLine(triples[i], pads[i]);
    }
    if i :| 0 <= i < |triples| && !Fits(triples[i]) {
      ParseAccepts(lines);
      LineAccepts(lines[i]);
      assert lines[i] in lines;
    } else {
      ParseAll(lines, seq(|triples|, i requires 0 <= i < |triples| => ToRange(triples[i])));
    }
  }

  // ----- Translation -----

  /** First matching range wins; an overflow met on the way ends the search without a result. */
  function Translate(ranges: seq<Range>, id: U32): Option<U32> {
    if ranges == [] then None
    else
      var r := ranges[0];
      if r.inside + r.count >= U32_LIMIT then None
      else if r.inside <= id < r.inside + r.count then
        if id - r.inside + r.outside < U32_LIMIT then Some(id - r.inside + r.outside) else None
      else Translate(ranges[1..], id)
  }

  predicate Contains(r: Range, id: U32) {
    r.inside <= id < r.inside + r.count
  }

  predicate NoOverflow(r: Range) {
    r.inside + r.count < 0x1_0000_0000
  }

  /** For any map whatsoever: an ID has a counterpart exactly when some range contains it, neither that
    range nor an earlier one ends beyond the largest ID, no earlier range contains it, and the sum fits. */
  predicate FoundAt(ranges: seq<Range>, id: U32, i: nat) {
    && i < |ranges|
    && Contains(ranges[i], id)
    && (forall j | 0 <= j <= i :: NoOverflow(ranges[j]))
    && (forall j | 0 <= j < i :: !Contains(ranges[j], id))
    && id - ranges[i].inside + ranges[i].outside < 0x1_0000_0000
  }

  lemma {:induction false} TranslateExact(ranges: seq<Range>, id: U32)
    ensures Translate(ranges, id).Some? <==> exists i: nat :: FoundAt(ranges, id, i)
    ensures forall i: nat | FoundAt(ranges, id, i) ::
              Translate(ranges, id) == Some(id - ranges[i].inside + ranges[i].outside)
    decreases |ranges|
  {
    if ranges != [] {
      var rest := ranges[1..];
      TranslateExact(rest, id);
      forall i: nat | FoundAt(ranges, id, i) && i > 0 ensures FoundAt(rest, id, i - 1) {
        forall j | 0 <= j <= i - 1 ensures NoOverflow(rest[j]) { assert rest[j] == ranges[j + 1]; }
        forall j | 0 <= j < i - 1 ensures !Contains(rest[j], id) { assert rest[j] == ranges[j + 1]; }
      }
      if NoOverflow(ranges[0]) && !Contains(ranges[0], id) {
        forall i: nat | FoundAt(rest, id, i) ensures FoundAt(ranges, id, i + 1) {
          forall j | 0 <= j <= i + 1 ensures NoOverflow(ranges[j]) {
            if j > 0 { assert ranges[j] == rest[j - 1]; }
          }
          forall j | 0 <= j < i + 1 ensures !Contains(ranges[j], id) {
            if j > 0 { assert ranges[j] == rest[j - 1]; }
          }
        }
      } else {
        forall i: nat | FoundAt(ranges, id, i) ensures i == 0 {
          assert NoOverflow(ranges[0]);
        }
        if NoOverflow(ranges[0]) && id - ranges[0].inside + ranges[0].outside < U32_LIMIT {
          assert FoundAt(ranges, id, 0);
        }
      }
    }
  }

  predicate DisjointRanges(a: Range, b: Range) {
    && (a.inside + a.count <= b.inside || b.inside + b.count <= a.inside)
    && (a.outside + a.count <= b.outside || b.outside + b.count <= a.outside)
  }

  /** What the kernel accepts in a map, see user_namespaces(7): non-empty ranges that do not wrap and
    do not overlap, inside or outside. */
  predicate KernelMap(ranges: seq<Range>) {
    && (forall r | r in ranges :: r.count > 0 && NoOverflow(r) && r.outside + r.count < 0x1_0000_0000)
    && (forall i, j | 0 <= i < j < |ranges| :: DisjointRanges(ranges[i], ranges[j]))
  }

  /** In a kernel map, the range that contains an ID is the one that translates it, and it is found. */
  lemma {:induction false} KernelTranslate(ranges: seq<Range>, id: U32, r: Range)
    requires KernelMap(ranges) && r in ranges && Contains(r, id)
    ensures Translate(ranges, id) == Some(id - r.inside + r.outside)
    decreases |ranges|
  {
    assert ranges[0] in ranges;
    if !Contains(ranges[0], id) {
      KernelTail(ranges);
      KernelTranslate(ranges[1..], id, r);
    } else {
      OneContains(ranges, ranges[0], r, id);
    }
  }

  lemma OneContains(ranges: seq<Range>, r: Range, s: Range, id: U32)
    requires KernelMap(ranges) && r in ranges && s in ranges && Contains(r, id) && Contains(s, id)
    ensures r == s
  {
    var i :| 0 <= i < |ranges| && ranges[i] == r;
    var j :| 0 <= j < |ranges| && ranges[j] == s;
  }

  lemma KernelTail(ranges: seq<Range>)
    requires KernelMap(ranges) && ranges != []
    ensures KernelMap(ranges[1..])
  {
    var rest := ranges[1..];
    forall i, j | 0 <= i < j < |rest| ensures DisjointRanges(rest[i], rest[j]) {
      assert DisjointRanges(ranges[i + 1], ranges[j + 1]);
    }
    assert forall r | r in rest :: r in ranges;
  }

  /** Translation is defined exactly on the union of the inside ranges. */
  lemma TranslateDefined(ranges: seq<Range>, id: U32)
    requires KernelMap(ranges)
    ensures Translate(ranges, id).Some? <==> exists r | r in ranges :: Contains(r, id)
  {
    TranslateExact(ranges, id);
    if i: nat :| FoundAt(ranges, id, i) {
      assert ranges[i] in ranges && Contains(ranges[i], id);
    }
    if r :| r in ranges && Contains(r, id) {
      KernelTranslate(ranges, id, r);
    }
  }

  /** Different IDs have different counterparts. */
  lemma TranslateInjective(ranges: seq<Range>, a: U32, b: U32)
    requires KernelMap(ranges)
    requires Translate(ranges, a).Some? && Translate(ranges, a) == Translate(ranges, b)
    ensures a == b
  {
    TranslateDefined(ranges, a);
    TranslateDefined(ranges, b);
    var r :| r in ranges && Contains(r, a);
    var s :| s in ranges && Contains(s, b);
    KernelTranslate(ranges, a, r);
    KernelTranslate(ranges, b, s);
    SameRange(ranges, r, s, Translate(ranges, a).value);
  }

  lemma SameRange(ranges: seq<Range>, r: Range, s: Range, x: U32)
    requires KernelMap(ranges) && r in ranges && s in ranges
    requires r.outside <= x < r.outside + r.count && s.outside <= x < s.outside + s.count
    ensures r == s
  {
    var i :| 0 <= i < |ranges| && ranges[i] == r;
    var j :| 0 <= j < |ranges| && ranges[j] == s;
  }

  /** The order of the lines does not matter. */
  lemma TranslateUnordered(ranges: seq<Range>, other: seq<Range>, id: U32)
    requires KernelMap(ranges) && KernelMap(other)
    requires forall r :: r in ranges <==> r in other
    ensures Translate(ranges, id) == Translate(other, id)
  {
    TranslateDefined(ranges, id);
    TranslateDefined(other, id);
    if r :| r in ranges && Contains(r, id) {
      KernelTranslate(ranges, id, r);
      KernelTranslate(other, id, r);
    }
  }

  // ----- User namespaces -----

  const IDENTITY: seq<Range> := [Range(0, 0, U32_LIMIT - 1)]

  datatype UserNamespace = UserNamespace(uids: seq<Range>, gids: seq<Range>) {
    predicate InUserNs() {
      !(uids == IDENTITY && gids == IDENTITY)
    }

    /** Host owner of a file owned by `uid` and `gid` inside, if both have counterparts. */
    function Owner(uid: U32, gid: U32): Option<(U32, U32)> {
      var u, g := Translate(uids, uid), Translate(gids, gid);
      if u.Some? && g.Some? then Some((u.value, g.value)) else None
    }
  }

  /** A process is outside exactly when both maps are the one line `0 0 4294967295`. */
  lemma OutsideIff(ns: UserNamespace)
    ensures !ns.InUserNs() <==>
            && |ns.uids| == 1 && ns.uids[0] == Range(0, 0, 4294967295)
            && |ns.gids| == 1 && ns.gids[0] == Range(0, 0, 4294967295)
  {
    assert |ns.uids| == 1 ==> ns.uids == [ns.uids[0]];
    assert |ns.gids| == 1 ==> ns.gids == [ns.gids[0]];
  }

  /** The owner of a new node is the user translated by the user map and the group by the group map. */
  lemma OwnerExact(ns: UserNamespace, uid: U32, gid: U32)
    requires KernelMap(ns.uids) && KernelMap(ns.gids)
    ensures ns.Owner(uid, gid).Some? <==>
            (exists r | r in ns.uids :: Contains(r, uid)) && (exists r | r in ns.gids :: Contains(r, gid))
    ensures forall u, g | u in ns.uids && g in ns.gids && Contains(u, uid) && Contains(g, gid) ::
              ns.Owner(uid, gid) == Some((uid - u.inside + u.outside, gid - g.inside + g.outside))
  {
    TranslateDefined(ns.uids, uid);
    TranslateDefined(ns.gids, gid);
    forall u, g | u in ns.uids && g in ns.gids && Contains(u, uid) && Contains(g, gid)
      ensures ns.Owner(uid, gid) == Some((uid - u.inside + u.outside, gid - g.inside + g.outside))
    {
      KernelTranslate(ns.uids, uid, u);
      KernelTranslate(ns.gids, gid, g);
    }
  }

  /** Outside a user namespace both translations are the identity, short of the reserved largest ID. */
  lemma OutsideIsIdentity(ns: UserNamespace, id: U32)
    requires !ns.InUserNs()
    ensures Translate(ns.uids, id) == Translate(ns.gids, id)
            == if id < 0xFFFF_FFFF then Some(id) else None
  {
  }
}
