/** References to root devices: parsing, printing and resolving. */
module DeviceReference {
  import opened Devices
  import opened Text

  datatype Kind =
    | Usb(vid: string, pid: Option<string>, serial: Option<string>)
    | Syspath(path: string)
    | Devnode(path: string)

  datatype DeviceRef = DeviceRef(parentLevel: nat, kind: Kind)

  // ----- Parsing -----

  const PARENT: string := "parent-of:"

  function Lower(c: char): char {
    if 'A' <= c <= 'Z' then (c as int - 'A' as int + 'a' as int) as char else c
  }

  function Lowered(s: string): (r: string)
    ensures |r| == |s| && forall i | 0 <= i < |s| :: r[i] == Lower(s[i])
  {
    if s == [] then [] else [Lower(s[0])] + Lowered(s[1..])
  }

  predicate IsHexDigit(c: char) {
    '0' <= c <= '9' || 'a' <= c <= 'f' || 'A' <= c <= 'F'
  }

  predicate IsHex4(s: string) {
    |s| == 4 && forall c | c in s :: IsHexDigit(c)
  }

  predicate IsAlphanumeric(c: char) {
    '0' <= c <= '9' || 'a' <= c <= 'z' || 'A' <= c <= 'Z'
  }

  predicate IsSerial(s: string) {
    s != [] && forall c | c in s :: IsAlphanumeric(c)
  }

  function Split(s: string, sep: char): (parts: seq<string>)
    ensures |parts| > 0
    ensures forall p | p in parts :: sep !in p
    decreases |s|
  {
    var i := IndexOf(s, sep);
    if i.None? then [s] else [s[..i.value]] + Split(s[i.value + 1..], sep)
  }

  function Join(parts: seq<string>, sep: char): string
    requires |parts| > 0
  {
    if |parts| == 1 then parts[0] else parts[0] + [sep] + Join(parts[1..], sep)
  }

  /** First name in an absolute path: empty and `.` components do not count. */
  function FirstComponent(parts: seq<string>): Option<string> {
    if parts == [] then None
    else if parts[0] == "" || parts[0] == "." then FirstComponent(parts[1..])
    else Some(parts[0])
  }

  predicate IsUnder(path: string, root: string) {
    path != [] && path[0] == '/' && FirstComponent(Split(path, '/')) == Some(root)
  }

  function ParseUsb(dev: string): Option<Kind> {
    var parts := Split(dev, ':');
    if |parts| > 3 then None
    else if !IsHex4(parts[0]) then None
    else if |parts| >= 2 && !IsHex4(parts[1]) then None
    else if |parts| == 3 && !IsSerial(parts[2]) then None
    else Some(Usb(
      Lowered(parts[0]),
      if |parts| >= 2 then Some(Lowered(parts[1])) else None,
      if |parts| == 3 then Some(parts[2]) else None))
  }

  function ParseKind(s: string): Option<Kind> {
    var i := IndexOf(s, ':');
    if i.None? then None
    else
      var kind, dev := s[..i.value], s[i.value + 1..];
      if kind == "usb" then ParseUsb(dev)
      else if kind == "syspath" then if IsUnder(dev, "sys") then Some(Syspath(dev)) else None
      else if kind == "devnode" then
        if IsUnder(dev, "dev") && dev[|dev| - 1] != '/' then Some(Devnode(dev)) else None
      else None
  }

  function Repeat(s: string, n: nat): string {
    if n == 0 then "" else s + Repeat(s, n - 1)
  }

  /** The number of prefixes, and the text after them. */
  function Strip(s: string): (nat, string)
    decreases |s|
  {
    if PARENT <= s then
      var (n, t) := Strip(s[|PARENT|..]);
      (n + 1, t)
    else (0, s)
  }

  /** Nothing is lost, and all prefixes are stripped. */
  lemma {:induction false} StripExact(s: string)
    ensures s == Repeat(PARENT, Strip(s).0) + Strip(s).1
    ensures !(PARENT <= Strip(s).1)
    decreases |s|
  {
    if PARENT <= s {
      var (n, t) := Strip(s[|PARENT|..]);
      StripExact(s[|PARENT|..]);
      RepeatFront(PARENT, n, t);
      assert s == PARENT + s[|PARENT|..];
    } else {
      RepeatFront(PARENT, 0, s);
    }
  }

  function Parse(s: string): Option<DeviceRef> {
    var (n, t) := Strip(s);
    var kind := ParseKind(t);
    if kind.Some? then Some(DeviceRef(n, kind.value)) else None
  }

  method FromStr(text: string) returns (r: Option<DeviceRef>)
    ensures r == Parse(text)
  {
    var s := text;
    var parentLevel := 0;
    while PARENT <= s
      invariant Strip(text) == (parentLevel + Strip(s).0, Strip(s).1)
      decreases |s|
    {
      s := s[|PARENT|..];
      parentLevel := parentLevel + 1;
    }
    var kind := ParseKind(s);
    if kind.None? {
      return None;
    }
    return Some(DeviceRef(parentLevel, kind.value));
  }

  lemma RepeatFront(s: string, n: nat, t: string)
    ensures Repeat(s, 0) + t == t
    ensures Repeat(s, n + 1) + t == s + (Repeat(s, n) + t)
  {
  }

  // ----- Printing -----

  function PrintKind(kind: Kind): string {
    match kind
    case Usb(vid, pid, serial) =>
      "usb:" + vid + (if pid.Some? then ":" + pid.value else "") + (if serial.Some? then ":" + serial.value else "")
    case Syspath(path) => "syspath:" + path
    case Devnode(path) => "devnode:" + path
  }

  function Print(d: DeviceRef): string {
    Repeat(PARENT, d.parentLevel) + PrintKind(d.kind)
  }

  method Display(d: DeviceRef) returns (out: string)
    ensures out == Print(d)
  {
    out := "";
    for i := 0 to d.parentLevel
      invariant out == Repeat(PARENT, i)
    {
      RepeatMore(PARENT, i);
      out := out + PARENT;
    }
    match d.kind {
      case Usb(vid, pid, serial) =>
        out := out + ("usb:" + vid);
        if pid.Some? {
          out := out + (":" + pid.value);
        }
        if serial.Some? {
          out := out + (":" + serial.value);
        }
      case Syspath(path) => out := out + ("syspath:" + path);
      case Devnode(path) => out := out + ("devnode:" + path);
    }
    assert out == Print(d);
  }

  lemma {:induction false} RepeatMore(s: string, n: nat)
    ensures Repeat(s, n + 1) == Repeat(s, n) + s
  {
    if n == 0 {
      assert s + "" == "" + s;
    } else {
      RepeatMore(s, n - 1);
      assert s + (Repeat(s, n - 1) + s) == s + Repeat(s, n - 1) + s;
    }
  }

  // ----- Printing what was parsed -----

  lemma {:induction false} JoinSplit(s: string, sep: char)
    ensures Join(Split(s, sep), sep) == s
    decreases |s|
  {
    var i := IndexOf(s, sep);
    if i.Some? {
      JoinSplit(s[i.value + 1..], sep);
      assert s == s[..i.value] + [sep] + s[i.value + 1..];
    }
  }

  lemma SplitFirst(first: string, sep: char, rest: string)
    requires sep !in first
    ensures Split(first + [sep] + rest, sep) == [first] + Split(rest, sep)
  {
    var s := first + [sep] + rest;
    IndexOfAfter(first, sep, rest);
    assert s[..|first|] == first && s[|first| + 1..] == rest;
  }

  lemma {:induction false} SplitJoin(parts: seq<string>, sep: char)
    requires |parts| > 0 && forall p | p in parts :: sep !in p
    ensures Split(Join(parts, sep), sep) == parts
    decreases |parts|
  {
    if |parts| > 1 {
      SplitJoin(parts[1..], sep);
      SplitFirst(parts[0], sep, Join(parts[1..], sep));
      assert parts == [parts[0]] + parts[1..];
    } else {
      assert parts[0] in parts && parts == [parts[0]];
    }
  }

  lemma JoinFew(a: string, b: string, c: string, sep: char)
    ensures Join([a], sep) == a
    ensures Join([a, b], sep) == a + [sep] + b
    ensures Join([a, b, c], sep) == a + [sep] + b + [sep] + c
  {
    assert [a, b][1..] == [b] && [a, b, c][1..] == [b, c] && [b, c][1..] == [c];
    assert Join([b, c], sep) == b + [sep] + c;
    assert Join([a, b, c], sep) == a + [sep] + Join([b, c], sep);
  }

  /** The parts of a USB reference as they are printed. */
  function UsbParts(kind: Kind): seq<string>
    requires kind.Usb?
  {
    [kind.vid] + (if kind.pid.Some? then [kind.pid.value] else [])
    + (if kind.serial.Some? then [kind.serial.value] else [])
  }

  predicate WellFormed(kind: Kind) {
    match kind
    case Usb(vid, pid, serial) =>
      && IsHex4(vid) && vid == Lowered(vid)
      && (pid.Some? ==> IsHex4(pid.value) && pid.value == Lowered(pid.value))
      && (serial.Some? ==> IsSerial(serial.value) && pid.Some?)
    case Syspath(path) => IsUnder(path, "sys")
    case Devnode(path) => IsUnder(path, "dev") && path[|path| - 1] != '/'
  }

  lemma LoweredHex4(s: string)
    requires IsHex4(s)
    ensures IsHex4(Lowered(s)) && Lowered(Lowered(s)) == Lowered(s)
  {
    var t := Lowered(s);
    forall i | 0 <= i < |t| ensures IsHexDigit(t[i]) && Lowered(t)[i] == t[i] {
      assert s[i] in s;
      LowerHexDigit(s[i]);
    }
  }

  lemma LowerHexDigit(c: char)
    requires IsHexDigit(c)
    ensures IsHexDigit(Lower(c)) && Lower(Lower(c)) == Lower(c)
  {
  }

  lemma ParsedWellFormed(s: string)
    requires ParseKind(s).Some?
    ensures WellFormed(ParseKind(s).value)
  {
    var i := IndexOf(s, ':').value;
    if s[..i] == "usb" {
      var parts := Split(s[i + 1..], ':');
      LoweredHex4(parts[0]);
      if |parts| >= 2 { LoweredHex4(parts[1]); }
    }
  }

  lemma PrintedOne(v: string)
    ensures PrintKind(Usb(v, None, None)) == "usb:" + Join([v], ':')
  {
  }

  lemma PrintedTwo(v: string, p: string)
    ensures PrintKind(Usb(v, Some(p), None)) == "usb:" + Join([v, p], ':')
  {
    JoinFew(v, p, "", ':');
  }

  lemma PrintedThree(v: string, p: string, s: string)
    ensures PrintKind(Usb(v, Some(p), Some(s))) == "usb:" + Join([v, p, s], ':')
  {
    JoinFew(v, p, s, ':');
    assert "usb:" + v + (":" + p) + (":" + s) == "usb:" + (v + [':'] + p + [':'] + s);
  }

  lemma UsbPrinted(kind: Kind)
    requires kind.Usb? && WellFormed(kind)
    ensures PrintKind(kind) == "usb:" + Join(UsbParts(kind), ':')
    ensures forall p | p in UsbParts(kind) :: ':' !in p
  {
    NoColons(kind);
    if kind.pid.None? {
      assert UsbParts(kind) == [kind.vid];
      PrintedOne(kind.vid);
    } else if kind.serial.None? {
      assert UsbParts(kind) == [kind.vid, kind.pid.value];
      PrintedTwo(kind.vid, kind.pid.value);
    } else {
      assert UsbParts(kind) == [kind.vid, kind.pid.value, kind.serial.value];
      PrintedThree(kind.vid, kind.pid.value, kind.serial.value);
    }
  }

  lemma NoColons(kind: Kind)
    requires kind.Usb? && WellFormed(kind)
    ensures forall p | p in UsbParts(kind) :: ':' !in p
  {
  }

  lemma Prefixed(name: string, dev: string)
    requires ':' !in name
    ensures IndexOf(name + ":" + dev, ':') == Some(|name|)
    ensures (name + ":" + dev)[..|name|] == name && (name + ":" + dev)[|name| + 1..] == dev
  {
    IndexOfAfter(name, ':', dev);
  }

  lemma ReparseUsb(kind: Kind)
    requires kind.Usb? && WellFormed(kind)
    ensures ParseUsb(Join(UsbParts(kind), ':')) == Some(kind)
    ensures PrintKind(kind) == "usb" + ":" + Join(UsbParts(kind), ':')
  {
    UsbPrinted(kind);
    SplitJoin(UsbParts(kind), ':');
  }

  /** Printing a well-formed kind and parsing it again returns it. */
  lemma ReparseKind(kind: Kind)
    requires WellFormed(kind)
    ensures ParseKind(PrintKind(kind)) == Some(kind)
  {
    match kind {
      case Usb(_, _, _) =>
        ReparseUsb(kind);
        Prefixed("usb", Join(UsbParts(kind), ':'));
      case Syspath(path) =>
        Prefixed("syspath", path);
        assert PrintKind(kind) == "syspath" + ":" + path;
      case Devnode(path) =>
        Prefixed("devnode", path);
        assert PrintKind(kind) == "devnode" + ":" + path;
    }
  }

  lemma NoParentPrefix(kind: Kind)
    ensures !(PARENT <= PrintKind(kind))
  {
    assert PrintKind(kind)[0] == if kind.Usb? then 'u' else if kind.Syspath? then 's' else 'd';
  }

  /** Stripping undoes any number of prefixes. */
  lemma {:induction false} StripRepeat(t: string, n: nat)
    requires !(PARENT <= t)
    ensures Strip(Repeat(PARENT, n) + t) == (n, t)
    decreases n
  {
    RepeatFront(PARENT, if n == 0 then 0 else n - 1, t);
    if n > 0 {
      StripRepeat(t, n - 1);
      StripMore(Repeat(PARENT, n - 1) + t);
    }
  }

  lemma StripMore(s: string)
    ensures Strip(PARENT + s) == (Strip(s).0 + 1, Strip(s).1)
  {
    assert (PARENT + s)[|PARENT|..] == s;
  }

  /** Every well-formed reference is accepted in its printed form, and read back unchanged. */
  lemma ReparseLevels(kind: Kind, n: nat)
    requires WellFormed(kind)
    ensures Parse(Print(DeviceRef(n, kind))) == Some(DeviceRef(n, kind))
  {
    ReparseKind(kind);
    NoParentPrefix(kind);
    StripRepeat(PrintKind(kind), n);
  }

  /** Position `i` of `s` belongs to the vendor or product ID of a USB reference that starts at `start`;
    the separator between them counts as well. */
  predicate InIds(start: nat, i: nat) {
    start + 4 <= i < start + 13
  }

  /** `out` is `usb:` and `dev` with its first nine characters in lower case. */
  predicate IsUsbText(dev: string, out: string) {
    && |out| == 4 + |dev|
    && out[..4] == "usb:"
    && forall i | 0 <= i < |dev| :: out[4 + i] == if i < 9 then Lower(dev[i]) else dev[i]
  }

  lemma TextOfOne(v: string)
    requires |v| == 4
    ensures IsUsbText(v, PrintKind(Usb(Lowered(v), None, None)))
  {
    var out := PrintKind(Usb(Lowered(v), None, None));
    assert out == "usb:" + Lowered(v);
  }

  lemma TextOfTwo(v: string, p: string)
    requires |v| == |p| == 4
    ensures IsUsbText(v + [':'] + p, PrintKind(Usb(Lowered(v), Some(Lowered(p)), None)))
  {
    var out := PrintKind(Usb(Lowered(v), Some(Lowered(p)), None));
    assert out == "usb:" + (Lowered(v) + [':'] + Lowered(p));
  }

  lemma TextOfThree(v: string, p: string, s: string)
    requires |v| == |p| == 4
    ensures IsUsbText(v + [':'] + p + [':'] + s, PrintKind(Usb(Lowered(v), Some(Lowered(p)), Some(s))))
  {
    var out := PrintKind(Usb(Lowered(v), Some(Lowered(p)), Some(s)));
    assert out == "usb:" + (Lowered(v) + [':'] + Lowered(p) + [':'] + s);
  }

  /** The IDs of a USB reference are printed in lower case, its serial number as it is. */
  lemma UsbText(dev: string)
    requires ParseUsb(dev).Some?
    ensures IsUsbText(dev, PrintKind(ParseUsb(dev).value))
  {
    var parts := Split(dev, ':');
    JoinSplit(dev, ':');
    if |parts| == 1 {
      assert parts == [parts[0]];
      TextOfOne(parts[0]);
    } else if |parts| == 2 {
      JoinFew(parts[0], parts[1], "", ':');
      assert parts == [parts[0], parts[1]];
      TextOfTwo(parts[0], parts[1]);
    } else {
      JoinFew(parts[0], parts[1], parts[2], ':');
      assert parts == [parts[0], parts[1], parts[2]];
      TextOfThree(parts[0], parts[1], parts[2]);
    }
  }

  lemma SplitAt(t: string, n: nat)
    requires IndexOf(t, ':') == Some(n)
    ensures t == t[..n] + ":" + t[n + 1..]
  {
  }

  lemma KindSplits(t: string)
    requires ParseKind(t).Some?
    ensures ParseKind(t).value.Usb? ==> |t| >= 4 && t[..4] == "usb:" && ParseUsb(t[4..]) == ParseKind(t)
    ensures ParseKind(t).value.Syspath? ==> t == "syspath:" + ParseKind(t).value.path
    ensures ParseKind(t).value.Devnode? ==> t == "devnode:" + ParseKind(t).value.path
  {
    var n := IndexOf(t, ':').value;
    SplitAt(t, n);
    if t[..n] == "usb" {
      assert n == 3 && t[..4] == "usb" + ":";
    }
  }

  lemma KindText(t: string)
    requires ParseKind(t).Some?
    ensures var out := PrintKind(ParseKind(t).value);
            && |out| == |t|
            && forall i | 0 <= i < |t| ::
                 out[i] == if ParseKind(t).value.Usb? && InIds(0, i) then Lower(t[i]) else t[i]
  {
    KindSplits(t);
    if ParseKind(t).value.Usb? {
      UsbText(t[4..]);
      UsbPointwise(t, PrintKind(ParseKind(t).value));
    }
  }

  lemma UsbPointwise(t: string, out: string)
    requires |t| >= 4 && |out| == |t| && t[..4] == out[..4]
    requires forall i | 0 <= i < |t| - 4 :: out[4 + i] == if i < 9 then Lower(t[4..][i]) else t[4..][i]
    ensures forall i | 0 <= i < |t| :: out[i] == if InIds(0, i) then Lower(t[i]) else t[i]
  {
    forall i | 0 <= i < |t| ensures out[i] == if InIds(0, i) then Lower(t[i]) else t[i] {
      if i < 4 {
        assert out[i] == out[..4][i] && t[i] == t[..4][i];
      } else {
        assert out[4 + (i - 4)] == if i - 4 < 9 then Lower(t[4..][i - 4]) else t[4..][i - 4];
      }
    }
  }

  /** The text after the prefixes is printed with its IDs in lower case. */
  lemma TextAfter(prefix: string, t: string, kind: Kind)
    requires ParseKind(t) == Some(kind)
    ensures |prefix + PrintKind(kind)| == |prefix + t|
    ensures forall i | 0 <= i < |prefix + t| ::
              (prefix + PrintKind(kind))[i] ==
              if kind.Usb? && InIds(|prefix|, i) then Lower((prefix + t)[i]) else (prefix + t)[i]
  {
    KindText(t);
    PrintedText(prefix, t, PrintKind(kind), kind.Usb?);
  }

  /** The law of the syntax: what is parsed prints back as the text itself with only the vendor and product
    IDs in lower case, and parsing the printed text gives the same reference, for any number of
    `parent-of:` prefixes and whatever the paths contain. */
  lemma ParsePrintParse(s: string)
    requires Parse(s).Some?
    ensures var d := Parse(s).value;
            var start := |PARENT| * d.parentLevel;
            && Parse(Print(d)) == Some(d)
            && |Print(d)| == |s|
            && forall i | 0 <= i < |s| ::
                 Print(d)[i] as int ==
                 if d.kind.Usb? && start + 4 <= i < start + 13 && 'A' <= s[i] <= 'Z' then s[i] as int + 32
                 else s[i] as int
  {
    var (n, t) := Strip(s);
    var kind := ParseKind(t).value;
    StripExact(s);
    ParsedWellFormed(t);
    ReparseLevels(kind, n);
    TextAfter(Repeat(PARENT, n), t, kind);
    RepeatLength(PARENT, n);
  }

  lemma PrintedText(prefix: string, t: string, out: string, usb: bool)
    requires |out| == |t| && forall i | 0 <= i < |t| :: out[i] == if usb && InIds(0, i) then Lower(t[i]) else t[i]
    ensures |prefix + out| == |prefix + t|
    ensures forall i | 0 <= i < |prefix + t| ::
              (prefix + out)[i] == if usb && InIds(|prefix|, i) then Lower((prefix + t)[i]) else (prefix + t)[i]
  {
    forall i | 0 <= i < |prefix + t|
      ensures (prefix + out)[i] == if usb && InIds(|prefix|, i) then Lower((prefix + t)[i]) else (prefix + t)[i]
    {
      if i >= |prefix| {
        assert InIds(|prefix|, i) <==> InIds(0, i - |prefix|);
      }
    }
  }

  lemma {:induction false} RepeatLength(s: string, n: nat)
    ensures |Repeat(s, n)| == |s| * n
  {
    if n > 0 {
      RepeatLength(s, n - 1);
    }
  }

  // ----- Exactly what is accepted -----

  predicate FourHex(s: string) {
    |s| == 4 && forall c | c in s :: c in "0123456789abcdefABCDEF"
  }

  predicate Alphanumeric(s: string) {
    s != "" && forall c | c in s :: 48 <= c as int <= 57 || 65 <= c as int <= 90 || 97 <= c as int <= 122
  }

  lemma HexCharExact(c: char)
    ensures IsHexDigit(c) <==> c in "0123456789abcdefABCDEF"
  {
    if '0' <= c <= '9' {
      assert "0123456789abcdefABCDEF"[c as int - '0' as int] == c;
    } else if 'a' <= c <= 'f' {
      assert "0123456789abcdefABCDEF"[c as int - 'a' as int + 10] == c;
    } else if 'A' <= c <= 'F' {
      assert "0123456789abcdefABCDEF"[c as int - 'A' as int + 16] == c;
    }
  }

  lemma FourHexExact(s: string)
    ensures IsHex4(s) <==> FourHex(s)
  {
    forall c | c in s ensures IsHexDigit(c) <==> c in "0123456789abcdefABCDEF" {
      HexCharExact(c);
    }
  }

  lemma AlphanumericExact(s: string)
    ensures IsSerial(s) <==> Alphanumeric(s)
  {
  }

  /** The parts of a USB reference: one or two IDs, or two IDs and a serial number. */
  predicate UsbForm(parts: seq<string>) {
    && 1 <= |parts| <= 3 && FourHex(parts[0])
    && (|parts| >= 2 ==> FourHex(parts[1]))
    && (|parts| == 3 ==> Alphanumeric(parts[2]))
  }

  lemma UsbAccepts(dev: string)
    ensures ParseUsb(dev).Some? <==>
            exists parts :: UsbForm(parts) && (forall p | p in parts :: ':' !in p) && Join(parts, ':') == dev
  {
    var parts := Split(dev, ':');
    JoinSplit(dev, ':');
    FourHexExact(parts[0]);
    if |parts| >= 2 { FourHexExact(parts[1]); }
    if |parts| >= 3 { AlphanumericExact(parts[2]); }
    if other :| UsbForm(other) && (forall p | p in other :: ':' !in p) && Join(other, ':') == dev {
      SplitJoin(other, ':');
    }
  }

  /** Components of an absolute path, the first of which that is neither empty nor `.` is `root`. */
  predicate PathForm(parts: seq<string>, root: string) {
    |parts| > 1 && parts[0] == "" &&
    exists i | 0 <= i < |parts| :: parts[i] == root && forall j | 0 <= j < i :: parts[j] == "" || parts[j] == "."
  }

  lemma {:induction false} FirstComponentExact(parts: seq<string>, root: string)
    requires root != "" && root != "."
    ensures FirstComponent(parts) == Some(root) <==>
            exists i | 0 <= i < |parts| ::
              parts[i] == root && forall j | 0 <= j < i :: parts[j] == "" || parts[j] == "."
    decreases |parts|
  {
    if parts != [] && (parts[0] == "" || parts[0] == ".") {
      var rest := parts[1..];
      FirstComponentExact(rest, root);
      forall i | 0 <= i < |rest| && rest[i] == root && forall j | 0 <= j < i :: rest[j] == "" || rest[j] == "."
        ensures parts[i + 1] == root && forall j | 0 <= j < i + 1 :: parts[j] == "" || parts[j] == "."
      {
        forall j | 0 <= j < i + 1 ensures parts[j] == "" || parts[j] == "." {
          if j > 0 { assert parts[j] == rest[j - 1]; }
        }
      }
      forall i | 0 < i < |parts| && parts[i] == root && forall j | 0 <= j < i :: parts[j] == "" || parts[j] == "."
        ensures rest[i - 1] == root && forall j | 0 <= j < i - 1 :: rest[j] == "" || rest[j] == "."
      {
        forall j | 0 <= j < i - 1 ensures rest[j] == "" || rest[j] == "." { assert rest[j] == parts[j + 1]; }
      }
    }
  }

  lemma AbsoluteParts(path: string)
    ensures path != "" && path[0] == '/' <==> |Split(path, '/')| > 1 && Split(path, '/')[0] == ""
  {
    JoinSplit(path, '/');
  }

  lemma PathAccepts(path: string, root: string)
    requires root != "" && root != "."
    ensures IsUnder(path, root) <==>
            exists parts :: PathForm(parts, root) && (forall p | p in parts :: '/' !in p) && Join(parts, '/') == path
  {
    var parts := Split(path, '/');
    JoinSplit(path, '/');
    AbsoluteParts(path);
    FirstComponentExact(parts, root);
    if IsUnder(path, root) {
      assert PathForm(parts, root);
    }
    if other :| PathForm(other, root) && (forall p | p in other :: '/' !in p) && Join(other, '/') == path {
      SplitJoin(other, '/');
    }
  }

  ghost predicate IsUsb(t: string) {
    exists parts :: UsbForm(parts) && (forall p | p in parts :: ':' !in p) && t == "usb:" + Join(parts, ':')
  }

  ghost predicate IsSyspath(t: string) {
    exists parts :: PathForm(parts, "sys") && (forall p | p in parts :: '/' !in p) && t == "syspath:" + Join(parts, '/')
  }

  ghost predicate IsDevnode(t: string) {
    exists parts :: PathForm(parts, "dev") && (forall p | p in parts :: '/' !in p)
                    && t == "devnode:" + Join(parts, '/') && t[|t| - 1] != '/'
  }

  /** A kind of reference in plain terms: `usb:` with one to three parts, or an absolute path below `/sys`, or one
    below `/dev` that does not end in a slash. */
  ghost predicate KindForm(t: string) {
    IsUsb(t) || IsSyspath(t) || IsDevnode(t)
  }

  lemma UsbIsForm(t: string, dev: string)
    requires t == "usb:" + dev && ParseUsb(dev).Some?
    ensures IsUsb(t)
  {
    UsbAccepts(dev);
    var parts :| UsbForm(parts) && (forall p | p in parts :: ':' !in p) && Join(parts, ':') == dev;
    assert t == "usb:" + Join(parts, ':');
  }

  lemma SyspathIsForm(t: string, path: string)
    requires t == "syspath:" + path && IsUnder(path, "sys")
    ensures IsSyspath(t)
  {
    PathAccepts(path, "sys");
    var parts :| PathForm(parts, "sys") && (forall p | p in parts :: '/' !in p) && Join(parts, '/') == path;
    assert t == "syspath:" + Join(parts, '/');
  }

  lemma DevnodeIsForm(t: string, path: string)
    requires t == "devnode:" + path && IsUnder(path, "dev") && path[|path| - 1] != '/'
    ensures IsDevnode(t)
  {
    PathAccepts(path, "dev");
    LastOf("devnode:", path);
    var parts :| PathForm(parts, "dev") && (forall p | p in parts :: '/' !in p) && Join(parts, '/') == path;
    assert t == "devnode:" + Join(parts, '/');
  }

  lemma LastOf(a: string, b: string)
    requires b != ""
    ensures (a + b)[|a + b| - 1] == b[|b| - 1]
  {
  }

  lemma KindIsForm(t: string)
    requires ParseKind(t).Some?
    ensures KindForm(t)
  {
    KindSplits(t);
    ParsedWellFormed(t);
    match ParseKind(t).value {
      case Usb(_, _, _) =>
        assert t == "usb:" + t[4..];
        UsbIsForm(t, t[4..]);
      case Syspath(path) => SyspathIsForm(t, path);
      case Devnode(path) => DevnodeIsForm(t, path);
    }
  }

  lemma UsbParses(t: string)
    requires IsUsb(t)
    ensures ParseKind(t).Some?
  {
    var parts :| UsbForm(parts) && (forall p | p in parts :: ':' !in p) && t == "usb:" + Join(parts, ':');
    Prefixed("usb", Join(parts, ':'));
    assert t == "usb" + ":" + Join(parts, ':');
    UsbAccepts(Join(parts, ':'));
  }

  lemma SyspathParses(t: string)
    requires IsSyspath(t)
    ensures ParseKind(t).Some?
  {
    var parts :| PathForm(parts, "sys") && (forall p | p in parts :: '/' !in p) && t == "syspath:" + Join(parts, '/');
    Prefixed("syspath", Join(parts, '/'));
    assert t == "syspath" + ":" + Join(parts, '/');
    PathAccepts(Join(parts, '/'), "sys");
  }

  lemma DevnodeParses(t: string)
    requires IsDevnode(t)
    ensures ParseKind(t).Some?
  {
    var parts :| PathForm(parts, "dev") && (forall p | p in parts :: '/' !in p)
                 && t == "devnode:" + Join(parts, '/') && t[|t| - 1] != '/';
    var path := Join(parts, '/');
    PathAccepts(path, "dev");
    LastOf("devnode:", path);
    DevnodeTextParses(path);
  }

  lemma DevnodeTextParses(path: string)
    requires IsUnder(path, "dev") && path[|path| - 1] != '/'
    ensures ParseKind("devnode:" + path).Some?
  {
    Prefixed("devnode", path);
    assert "devnode:" + path == "devnode" + ":" + path;
  }

  lemma FormIsKind(t: string)
    requires KindForm(t)
    ensures ParseKind(t).Some?
  {
    if IsUsb(t) {
      UsbParses(t);
    } else if IsSyspath(t) {
      SyspathParses(t);
    } else {
      DevnodeParses(t);
    }
  }

  /** A text is accepted if and only if it is any number of `parent-of:` in front of one of these kinds. */
  lemma ParseAccepts(s: string)
    ensures Parse(s).Some? <==> exists n: nat, t :: KindForm(t) && s == Repeat("parent-of:", n) + t
  {
    StripExact(s);
    var (n, t) := Strip(s);
    if Parse(s).Some? {
      KindIsForm(t);
    }
    if m: nat, u :| KindForm(u) && s == Repeat("parent-of:", m) + u {
      FormIsKind(u);
      ParsedWellFormed(u);
      KindText(u);
      FormHasNoPrefix(u);
      StripRepeat(u, m);
    }
  }

  lemma FormHasNoPrefix(t: string)
    requires KindForm(t)
    ensures !(PARENT <= t)
  {
    assert t[0] == 'u' || t[0] == 's' || t[0] == 'd';
  }

  // ----- Resolving -----

  /** The device hierarchy: the parent of every device that has one. */
  type Parents = map<Path, Path>

  function Ancestor(parents: Parents, device: Path, n: nat): Option<Path> {
    if n == 0 then Some(device)
    else
      var below := Ancestor(parents, device, n - 1);
      if below.Some? && below.value in parents then Some(parents[below.value]) else None
  }

  /** Along a chain of devices, each the parent of the one before, the last one is reached. */
  lemma {:induction false} ChainResolves(parents: Parents, chain: seq<Path>)
    requires chain != []
    requires forall i | 0 <= i < |chain| - 1 :: chain[i] in parents && parents[chain[i]] == chain[i + 1]
    ensures Ancestor(parents, chain[0], |chain| - 1) == Some(chain[|chain| - 1])
    decreases |chain|
  {
    if |chain| > 1 {
      var init := chain[..|chain| - 1];
      ChainResolves(parents, init);
      assert init[|init| - 1] == chain[|chain| - 2];
    }
  }

  /** And only along such a chain. */
  lemma {:induction false} ResolvedByChain(parents: Parents, device: Path, n: nat) returns (chain: seq<Path>)
    requires Ancestor(parents, device, n).Some?
    ensures |chain| == n + 1 && chain[0] == device && chain[n] == Ancestor(parents, device, n).value
    ensures forall i | 0 <= i < n :: chain[i] in parents && parents[chain[i]] == chain[i + 1]
  {
    if n == 0 {
      chain := [device];
    } else {
      var init := ResolvedByChain(parents, device, n - 1);
      chain := init + [parents[init[n - 1]]];
    }
  }

  /** Walk up from the device that the kind refers to, which is `found` if there is one. */
  method Resolve(d: DeviceRef, found: Option<Path>, parents: Parents) returns (r: Option<Path>)
    ensures r == if found.Some? then Ancestor(parents, found.value, d.parentLevel) else None
  {
    if found.None? {
      return None;
    }
    var device := found.value;
    for i := 0 to d.parentLevel
      invariant Ancestor(parents, found.value, i) == Some(device)
    {
      if device !in parents {
        NoAncestor(parents, found.value, i + 1, d.parentLevel);
        return None;
      }
      device := parents[device];
    }
    return Some(device);
  }

  lemma {:induction false} NoAncestor(parents: Parents, device: Path, n: nat, m: nat)
    requires n <= m && Ancestor(parents, device, n).None?
    ensures Ancestor(parents, device, m).None?
    decreases m
  {
    if n < m {
      NoAncestor(parents, device, n, m - 1);
    }
  }

  /** `parent-of:` in front of a reference refers to the parent of what the reference refers to. */
  lemma ParentOfResolves(s: string, found: Path, parents: Parents)
    requires Parse(s).Some?
    ensures Parse("parent-of:" + s).Some?
    ensures Parse("parent-of:" + s).value.kind == Parse(s).value.kind
    ensures var below := Ancestor(parents, found, Parse(s).value.parentLevel);
            Ancestor(parents, found, Parse("parent-of:" + s).value.parentLevel) ==
            if below.Some? && below.value in parents then Some(parents[below.value]) else None
  {
    StripMore(s);
  }
}
