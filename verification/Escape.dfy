/** Undoing udev's `\xNN` escapes in device strings. */
module Escape {
  import opened Devices
  import opened Text

  function Utf8Length(c: char): nat {
    if c as int < 0x80 then 1 else if c as int < 0x800 then 2 else if c as int < 0x1_0000 then 3 else 4
  }

  /** The first two bytes of a string's UTF-8 form, if there are two and they are whole characters. */
  function TwoBytes(s: string): Option<string> {
    if s == [] || Utf8Length(s[0]) > 2 then None
    else if Utf8Length(s[0]) == 2 then Some(s[..1])
    else if |s| >= 2 && Utf8Length(s[1]) == 1 then Some(s[..2])
    else None
  }

  /** The character an escape stands for, given what follows its `\x`. */
  function EscapedChar(s: string): Option<char> {
    var hex := TwoBytes(s);
    if hex.None? then None
    else
      var n := FromDigits(hex.value, 16, 256);
      if n.Some? then Some(n.value as char) else None
  }

  function Drop(s: string, n: nat): string {
    if n < |s| then s[n..] else []
  }

  function Decoded(s: string): Option<string>
    decreases |s|
  {
    if s == [] then Some([])
    else if s[0] != '\\' then Cons(s[0], Decoded(s[1..]))
    else if |s| < 2 || s[1] != 'x' then None
    else
      var c := EscapedChar(s[2..]);
      if c.None? then None else Cons(c.value, Decoded(Drop(s, 4)))
  }

  function Cons(c: char, rest: Option<string>): Option<string> {
    if rest.Some? then Some([c] + rest.value) else None
  }

  function Prepend(prefix: string, rest: Option<string>): Option<string> {
    if rest.Some? then Some(prefix + rest.value) else None
  }

  method Unescape(escaped: string) returns (r: Option<string>)
    ensures r == Decoded(escaped)
  {
    var result := "";
    var rest := escaped;
    assert Decoded(escaped).Some? ==> "" + Decoded(escaped).value == Decoded(escaped).value;
    while rest != []
      invariant Decoded(escaped) == Prepend(result, Decoded(rest))
      decreases |rest|
    {
      var c := rest[0];
      ghost var whole := rest;
      rest := rest[1..];
      if c != '\\' {
        assert Decoded(rest).Some? ==> result + ([c] + Decoded(rest).value) == result + [c] + Decoded(rest).value;
        result := result + [c];
        continue;
      }
      if rest == [] || rest[0] != 'x' {
        return None;
      }
      rest := rest[1..];
      assert rest == whole[2..];
      var d := EscapedChar(rest);
      if d.None? {
        return None;
      }
      rest := Drop(rest, 1);
      rest := Drop(rest, 1);
      assert rest == Drop(whole, 4);
      assert Decoded(rest).Some? ==>
               result + ([d.value] + Decoded(rest).value) == result + [d.value] + Decoded(rest).value;
      result := result + [d.value];
    }
    assert result + [] == result;
    return Some(result);
  }

  // ----- When it succeeds, and what it consumes -----

  /** The two bytes parsed are always the two characters skipped afterwards. */
  lemma TwoCharsSkipped(s: string)
    requires EscapedChar(s).Some?
    ensures |s| >= 2 && TwoBytes(s) == Some(s[..2]) && '\\' !in s[..2]
  {
    var hex := TwoBytes(s).value;
    var digits := if hex[0] == '+' then hex[1..] else hex;
    assert forall c | c in digits :: DigitValue(c).Some?;
    assert forall c | c in hex :: c in digits || c == '+';
  }

  predicate IsHex(c: char) {
    c in "0123456789abcdefABCDEF"
  }

  /** An escape is two hexadecimal digits, or a plus sign and one. */
  lemma EscapeAccepts(s: string)
    ensures EscapedChar(s).Some? <==> |s| >= 2 && IsHex(s[1]) && (IsHex(s[0]) || s[0] == '+')
  {
    if |s| >= 2 {
      HexIsDigit(s[0]);
      HexIsDigit(s[1]);
      if IsHex(s[1]) && (IsHex(s[0]) || s[0] == '+') {
        PairValue(s[0], s[1]);
        assert s[..2] == [s[0], s[1]];
      }
    }
    if EscapedChar(s).Some? {
      TwoCharsSkipped(s);
      var hex := s[..2];
      var digits := if hex[0] == '+' then hex[1..] else hex;
      assert hex[1] in digits && (hex[0] != '+' ==> hex[0] in digits);
    }
  }

  lemma HexIsDigit(c: char)
    ensures IsHex(c) <==> DigitValue(c).Some?
    ensures IsHex(c) ==> DigitValue(c).value < 16 && Utf8Length(c) == 1
  {
    if '0' <= c <= '9' {
      assert "0123456789abcdefABCDEF"[c as int - '0' as int] == c;
    } else if 'a' <= c <= 'f' {
      assert "0123456789abcdefABCDEF"[c as int - 'a' as int + 10] == c;
    } else if 'A' <= c <= 'F' {
      assert "0123456789abcdefABCDEF"[c as int - 'A' as int + 16] == c;
    }
  }

  lemma PairValue(a: char, b: char)
    requires IsHex(b) && (IsHex(a) || a == '+')
    ensures FromDigits([a, b], 16, 256).Some?
  {
    HexIsDigit(a);
    HexIsDigit(b);
    assert [a, b][1..] == [b] && [a, b][..1] == [a] && [b][..0] == [] && [a][..0] == [];
    assert Value([b], 16) == DigitValue(b).value;
    if a != '+' {
      assert Value([a], 16) == DigitValue(a).value;
      assert Value([a, b], 16) == DigitValue(a).value * 16 + DigitValue(b).value;
    }
  }

  function Count(s: string, c: char): nat {
    if s == [] then 0 else (if s[0] == c then 1 else 0) + Count(s[1..], c)
  }

  lemma CountSkip(s: string, n: nat, c: char)
    requires n <= |s| && c !in s[..n]
    ensures Count(s, c) == Count(s[n..], c)
  {
    if n > 0 {
      assert s[0] in s[..n];
      assert s[1..][..n - 1] == s[..n][1..];
      assert s[1..][n - 1..] == s[n..];
      CountSkip(s[1..], n - 1, c);
    }
  }

  /** Every escape takes four characters to one, and every backslash starts an escape. */
  lemma {:induction false} LengthAccounted(s: string)
    requires Decoded(s).Some?
    ensures |Decoded(s).value| + 3 * Count(s, '\\') == |s|
    decreases |s|
  {
    if s != [] {
      if s[0] != '\\' {
        LengthAccounted(s[1..]);
      } else {
        TwoCharsSkipped(s[2..]);
        LengthAccounted(s[4..]);
        assert '\\' !in s[1..][..3] by {
          assert s[1..][..3] == [s[1]] + s[2..][..2];
        }
        CountSkip(s[1..], 3, '\\');
        assert s[1..][3..] == s[4..];
      }
    }
  }

  /** A backslash at `i` starts a valid escape. */
  predicate EscapeAt(s: string, i: nat)
    requires i < |s|
  {
    i + 3 < |s| && s[i + 1] == 'x' && EscapedChar(s[i + 2..]).Some?
  }

  /** Decoding succeeds exactly when every backslash starts a valid escape. */
  lemma {:induction false} SucceedsIff(s: string)
    ensures Decoded(s).Some? <==> forall i | 0 <= i < |s| && s[i] == '\\' :: EscapeAt(s, i)
    decreases |s|
  {
    if s == [] {
    } else if s[0] != '\\' {
      SucceedsIff(s[1..]);
      ShiftEscapes(s, 1);
    } else if |s| >= 2 && s[1] == 'x' && EscapedChar(s[2..]).Some? {
      TwoCharsSkipped(s[2..]);
      SucceedsIff(s[4..]);
      ShiftEscapes(s, 4);
      assert s[2] == s[2..][..2][0] && s[3] == s[2..][..2][1];
      assert forall i | 0 <= i < 4 && s[i] == '\\' :: i == 0;
    } else {
      assert !EscapeAt(s, 0);
    }
  }

  lemma ShiftEscapes(s: string, n: nat)
    requires n <= |s|
    ensures forall i | 0 <= i < |s| - n :: s[n..][i] == s[n + i] && (EscapeAt(s[n..], i) <==> EscapeAt(s, n + i))
  {
    forall i | 0 <= i < |s| - n ensures EscapeAt(s[n..], i) <==> EscapeAt(s, n + i) {
      if i + 2 <= |s| - n {
        assert s[n..][i + 2..] == s[n + i + 2..];
      }
    }
  }

  // ----- Decoding inverts encoding -----

  datatype Style = Literal | LowerHex | UpperHex

  function HexDigit(n: nat, style: Style): char
    requires n < 16
  {
    if style.UpperHex? then "0123456789ABCDEF"[n] else "0123456789abcdef"[n]
  }

  /** A backslash may not be written literally, and only codes up to 255 have an escape. */
  predicate MayWrite(c: char, style: Style) {
    if style.Literal? then c != '\\' else c as int < 256
  }

  function EncodeChar(c: char, style: Style): string
    requires MayWrite(c, style)
  {
    if style.Literal? then [c]
    else ['\\', 'x', HexDigit(c as int / 16, style), HexDigit(c as int % 16, style)]
  }

  function Encode(s: string, styles: seq<Style>): string
    requires |s| == |styles| && forall i | 0 <= i < |s| :: MayWrite(s[i], styles[i])
  {
    if s == [] then "" else EncodeChar(s[0], styles[0]) + Encode(s[1..], styles[1..])
  }

  lemma HexDigitValue(n: nat, style: Style)
    requires n < 16
    ensures DigitValue(HexDigit(n, style)) == Some(n)
    ensures Utf8Length(HexDigit(n, style)) == 1 && HexDigit(n, style) != '+'
  {
  }

  lemma HexPair(n: nat, style: Style, rest: string)
    requires n < 256
    ensures EscapedChar([HexDigit(n / 16, style), HexDigit(n % 16, style)] + rest) == Some(n as char)
  {
    var hi, lo := HexDigit(n / 16, style), HexDigit(n % 16, style);
    HexDigitValue(n / 16, style);
    HexDigitValue(n % 16, style);
    var pair := [hi, lo];
    assert (pair + rest)[..2] == pair;
    assert TwoBytes(pair + rest) == Some(pair);
    assert Digits(pair, 16) && pair[..1] == [hi] && [hi][..0] == [];
    assert Value([hi], 16) == n / 16;
    assert Value(pair, 16) == n / 16 * 16 + n % 16;
  }

  lemma DecodeOne(c: char, style: Style, rest: string)
    requires MayWrite(c, style)
    ensures Decoded(EncodeChar(c, style) + rest) == Cons(c, Decoded(rest))
  {
    var whole := EncodeChar(c, style) + rest;
    if style.Literal? {
      assert whole[1..] == rest;
    } else {
      var n := c as int;
      HexPair(n, style, rest);
      assert whole[2..] == [HexDigit(n / 16, style), HexDigit(n % 16, style)] + rest;
      assert Drop(whole, 4) == rest;
      assert whole[0] == '\\' && whole[1] == 'x';
    }
  }

  /** Whichever characters are escaped, in whichever case, decoding returns the original. */
  lemma {:induction false} DecodeEncode(s: string, styles: seq<Style>)
    requires |s| == |styles| && forall i | 0 <= i < |s| :: MayWrite(s[i], styles[i])
    ensures Decoded(Encode(s, styles)) == Some(s)
    decreases |s|
  {
    if s != [] {
      DecodeEncode(s[1..], styles[1..]);
      DecodeOne(s[0], styles[0], Encode(s[1..], styles[1..]));
      assert [s[0]] + s[1..] == s;
    }
  }
}
