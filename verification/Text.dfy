/** The standard library's text routines that the parsers rely on. */
module Text {
  import opened Devices

  // ----- Numbers -----

  function DigitChar(d: nat): (c: char)
    requires d < 10
  {
    "0123456789"[d]
  }

  function DigitValue(c: char): Option<nat> {
    if '0' <= c <= '9' then Some(c as nat - '0' as nat)
    else if 'a' <= c <= 'f' then Some(c as nat - 'a' as nat + 10)
    else if 'A' <= c <= 'F' then Some(c as nat - 'A' as nat + 10)
    else None
  }

  predicate Digits(w: string, radix: nat) {
    forall c | c in w :: DigitValue(c).Some? && DigitValue(c).value < radix
  }

  function Value(w: string, radix: nat): nat
    requires Digits(w, radix)
  {
    if w == [] then 0
    else Value(w[..|w| - 1], radix) * radix + DigitValue(w[|w| - 1]).value
  }

  /** `from_str_radix` of an unsigned type: an optional plus sign, at least one digit, no overflow. */
  function FromDigits(w: string, radix: nat, limit: nat): Option<nat> {
    var digits := if w != [] && w[0] == '+' then w[1..] else w;
    if digits != [] && Digits(digits, radix) && Value(digits, radix) < limit
    then Some(Value(digits, radix))
    else None
  }

  function Decimal(n: nat): string {
    if n < 10 then [DigitChar(n)] else Decimal(n / 10) + [DigitChar(n % 10)]
  }

  lemma {:induction false} DecimalValue(n: nat)
    ensures Decimal(n) != [] && Digits(Decimal(n), 10) && Value(Decimal(n), 10) == n
    ensures forall c | c in Decimal(n) :: '0' <= c <= '9'
  {
    if n >= 10 {
      DecimalValue(n / 10);
      var w := Decimal(n);
      assert w[..|w| - 1] == Decimal(n / 10);
    } else {
      var w := Decimal(n);
      assert w == [DigitChar(n)] && w[..|w| - 1] == [];
    }
  }

  /** Reading back a rendered number succeeds exactly when it is below the limit. */
  lemma DecimalRoundTrip(n: nat, limit: nat)
    ensures FromDigits(Decimal(n), 10, limit) == if n < limit then Some(n) else None
  {
    DecimalValue(n);
    assert Decimal(n)[0] in Decimal(n);
  }

  // ----- Words and lines -----

  predicate IsSpace(c: char) {
    c == ' ' || c == '\t' || c == '\n' || c == '\r' || c as int == 12
  }

  predicate Blank(s: string) {
    forall c | c in s :: IsSpace(c)
  }

  predicate Solid(s: string) {
    forall c | c in s :: !IsSpace(c)
  }

  function SkipSpace(s: string): (r: string)
    ensures |r| <= |s|
    ensures r != [] ==> !IsSpace(r[0])
  {
    if s != [] && IsSpace(s[0]) then SkipSpace(s[1..]) else s
  }

  function WordLength(s: string): (n: nat)
    ensures n <= |s|
    ensures s != [] && !IsSpace(s[0]) ==> n > 0
  {
    if s != [] && !IsSpace(s[0]) then 1 + WordLength(s[1..]) else 0
  }

  function Words(s: string): seq<string>
    decreases |s|
  {
    var t := SkipSpace(s);
    if t == [] then []
    else
      var n := WordLength(t);
      [t[..n]] + Words(t[n..])
  }

  function IndexOf<T(==)>(s: seq<T>, x: T): (r: Option<nat>)
    ensures r.Some? ==> r.value < |s| && s[r.value] == x && x !in s[..r.value]
    ensures r.None? ==> x !in s
  {
    if s == [] then None
    else if s[0] == x then Some(0)
    else
      var rest := IndexOf(s[1..], x);
      if rest.None? then None else Some(rest.value + 1)
  }

  lemma SliceHas<T>(s: seq<T>, i: nat, n: nat)
    requires i < |s| && n <= |s|
    ensures i < n ==> s[i] in s[..n]
  {
    if i < n {
      assert s[..n][i] == s[i];
    }
  }

  /** The index is determined by the prefix in front of it. */
  lemma IndexOfAfter<T>(a: seq<T>, x: T, b: seq<T>)
    requires x !in a
    ensures IndexOf(a + [x] + b, x) == Some(|a|)
  {
    var s := a + [x] + b;
    assert s[|a|] == x;
    assert s[..|a|] == a;
    SliceHas(s, |a|, IndexOf(s, x).value);
  }

  function ChopReturn(line: string): string {
    if line != [] && line[|line| - 1] == '\r' then line[..|line| - 1] else line
  }

  function Lines(s: string): seq<string>
    decreases |s|
  {
    if s == [] then []
    else
      var i := IndexOf(s, '\n');
      if i.None? then [s]
      else [ChopReturn(s[..i.value])] + Lines(s[i.value + 1..])
  }

  lemma {:induction false} SkipBlank(pad: string, s: string)
    requires Blank(pad) && (s != [] ==> !IsSpace(s[0]))
    ensures SkipSpace(pad + s) == s
    decreases |pad|
  {
    if pad == [] {
      assert pad + s == s;
    } else {
      assert (pad + s)[1..] == pad[1..] + s;
      SkipBlank(pad[1..], s);
    }
  }

  lemma {:induction false} WordEnds(w: string, s: string)
    requires Solid(w) && (s != [] ==> IsSpace(s[0]))
    ensures WordLength(w + s) == |w|
    decreases |w|
  {
    if w == [] {
      assert w + s == s;
    } else {
      assert (w + s)[1..] == w[1..] + s;
      WordEnds(w[1..], s);
    }
  }

  /** A padded word in front of a space or the end is the first word. */
  lemma FirstWord(pad: string, w: string, s: string)
    requires Blank(pad) && w != [] && Solid(w) && (s != [] ==> IsSpace(s[0]))
    ensures Words(pad + w + s) == [w] + Words(s)
  {
    var t := w + s;
    assert pad + w + s == pad + t;
    assert t[0] == w[0] && w[0] in w;
    SkipBlank(pad, t);
    WordEnds(w, s);
    assert t[..|w|] == w && t[|w|..] == s;
  }

  lemma BlankHasNoWords(pad: string)
    requires Blank(pad)
    ensures Words(pad) == []
  {
    SkipBlank(pad, "");
    assert pad + "" == pad;
  }

  /** A line ends at the first newline. */
  lemma FirstLine(line: string, rest: string)
    requires '\n' !in line && (line != "" ==> line[|line| - 1] != '\r')
    ensures Lines(line + "\n" + rest) == [line] + Lines(rest)
  {
    CutAtNewline(line, rest);
  }

  /** One carriage return before the newline is not part of the line. */
  lemma FirstLineReturn(line: string, rest: string)
    requires '\n' !in line
    ensures Lines(line + "\r\n" + rest) == [line] + Lines(rest)
  {
    CutAtNewline(line + "\r", rest);
    Chopped(line);
    assert line + "\r\n" + rest == line + "\r" + "\n" + rest;
  }

  lemma Chopped(line: string)
    ensures ChopReturn(line + "\r") == line
  {
  }

  lemma CutAtNewline(front: string, rest: string)
    requires '\n' !in front
    ensures Lines(front + "\n" + rest) == [ChopReturn(front)] + Lines(rest)
  {
    var s := front + "\n" + rest;
    IndexOfAfter(front, '\n', rest);
    assert s == front + ['\n'] + rest;
    assert s[..|front|] == front && s[|front| + 1..] == rest;
  }

  /** What follows the last newline is a line if it is not empty, as it stands. */
  lemma LastLine(line: string)
    requires '\n' !in line
    ensures Lines(line) == if line == "" then [] else [line]
  {
  }

  // ----- Words and numbers in plain terms -----

  /** Tab, newline, form feed, carriage return or space. */
  predicate White(s: string) {
    forall c | c in s :: c as int in {9, 10, 12, 13, 32}
  }

  predicate NoWhite(s: string) {
    forall c | c in s :: c as int !in {9, 10, 12, 13, 32}
  }

  lemma WhiteIsBlank(s: string)
    ensures White(s) <==> Blank(s)
    ensures NoWhite(s) <==> Solid(s)
  {
    forall c | c in s ensures IsSpace(c) <==> c as int in {9, 10, 12, 13, 32} {
      SpaceExact(c);
    }
  }

  lemma SpaceExact(c: char)
    ensures IsSpace(c) <==> c as int in {9, 10, 12, 13, 32}
  {
    assert '\t' as int == 9 && '\n' as int == 10 && '\r' as int == 13 && ' ' as int == 32;
  }

  function Spaced(words: seq<string>, pads: seq<string>): string
    requires |pads| == |words| + 1
  {
    if words == [] then pads[0] else pads[0] + words[0] + Spaced(words[1..], pads[1..])
  }

  /** The words of a line are the runs between its white space, whatever that consists of. */
  lemma {:induction false} WordsExact(words: seq<string>, pads: seq<string>)
    requires |pads| == |words| + 1 && forall p | p in pads :: White(p)
    requires forall i | 0 < i < |pads| - 1 :: pads[i] != ""
    requires forall w | w in words :: w != "" && NoWhite(w)
    ensures Words(Spaced(words, pads)) == words
    decreases |words|
  {
    WhiteIsBlank(pads[0]);
    if words == [] {
      BlankHasNoWords(pads[0]);
    } else {
      var rest := Spaced(words[1..], pads[1..]);
      assert forall w | w in words[1..] :: w in words;
      WordsExact(words[1..], pads[1..]);
      if rest != "" {
        SpacedStart(words[1..], pads[1..]);
      }
      WhiteIsBlank(words[0]);
      FirstWord(pads[0], words[0], rest);
      assert words == [words[0]] + words[1..];
    }
  }

  lemma SpacedStart(words: seq<string>, pads: seq<string>)
    requires |pads| == |words| + 1 && forall p | p in pads :: White(p)
    requires Spaced(words, pads) != "" && (words != [] ==> pads[0] != "")
    ensures IsSpace(Spaced(words, pads)[0])
  {
    assert Spaced(words, pads)[0] == pads[0][0] && pads[0][0] in pads[0];
    assert pads[0] in pads;
    SpaceExact(pads[0][0]);
  }

  /** An optional plus sign and at least one decimal digit; the digits count from the left. */
  lemma DecimalAccepts(w: string, limit: nat)
    ensures var digits := if |w| > 0 && w[0] == '+' then w[1..] else w;
            FromDigits(w, 10, limit).Some? <==>
            && digits != "" && (forall c | c in digits :: c in "0123456789") && Digits(digits, 10)
            && Value(digits, 10) < limit
  {
    var digits := if |w| > 0 && w[0] == '+' then w[1..] else w;
    forall c | c in digits && DigitValue(c).Some? && DigitValue(c).value < 10 ensures c in "0123456789" {
      assert "0123456789"[c as int - '0' as int] == c;
    }
  }

  lemma DigitCounts(digits: string, k: nat)
    requires k < 10 && Digits(digits, 10)
    ensures Digits(digits + ["0123456789"[k]], 10) && Digits("", 10)
    ensures Value("", 10) == 0 && Value(digits + ["0123456789"[k]], 10) == 10 * Value(digits, 10) + k
  {
    assert (digits + ["0123456789"[k]])[..|digits|] == digits;
  }
}
