/** Synthesised udev messages: a fixed header followed by NUL-terminated `name=value` properties. */
module Uevent {
  import opened Devices
  import opened Text

  const NUL: Byte := 0
  const EQUALS: Byte := 61
  const HEADER_SIZE: U32 := 40

  // ----- Encoding -----

  /** A 32-bit word as stored by a little-endian machine. */
  function Word(n: U32): (b: Bytes)
    ensures |b| == 4
  {
    [n % 256, n / 0x100 % 256, n / 0x1_0000 % 256, n / 0x100_0000]
  }

  /** The prefix, the magic in network order, and the header's size. */
  function Front(): (b: Bytes)
    ensures |b| == 16
  {
    Ascii("libudev") + [NUL] + [0xFE, 0xED, 0xCA, 0xFE] + Word(HEADER_SIZE)
  }

  /** The filter hashes, and a bloom filter that matches everything. */
  function Back(device: Device): (b: Bytes)
    ensures |b| == 16
  {
    Word(device.subsystemHash) + Word(device.devtypeHash) + Word(U32_LIMIT - 1) + Word(U32_LIMIT - 1)
  }

  /** In between, the offset and the length of the properties. */
  function Header(length: nat, device: Device): (b: Bytes)
    ensures |b| == HEADER_SIZE
  {
    Front() + Word(HEADER_SIZE) + Word(length % U32_LIMIT) + Back(device)
  }

  function EncodeOne(p: Property): Bytes {
    p.name + [EQUALS] + p.value + [NUL]
  }

  function Encode(properties: seq<Property>): Bytes {
    if properties == [] then []
    else Encode(properties[..|properties| - 1]) + EncodeOne(properties[|properties| - 1])
  }

  const ACTION: Bytes := Ascii("ACTION")
  const SEQNUM: Bytes := Ascii("SEQNUM")

  predicate Supplied(p: Property) {
    p.name == ACTION || p.name == SEQNUM
  }

  /** The device's own properties, without the two the sender supplies. */
  function Forwarded(properties: seq<Property>): seq<Property> {
    if properties == [] then []
    else
      var last := properties[|properties| - 1];
      Forwarded(properties[..|properties| - 1]) + if Supplied(last) then [] else [last]
  }

  function DecimalBytes(n: nat): Bytes {
    DecimalValue(n);
    assert forall i | 0 <= i < |Decimal(n)| :: Decimal(n)[i] in Decimal(n);
    Ascii(Decimal(n))
  }

  /** The properties a message carries. */
  function Carried(action: Bytes, number: nat, device: Device): seq<Property> {
    [Property(ACTION, action), Property(SEQNUM, DecimalBytes(number))] + Forwarded(device.properties)
  }

  function Message(action: Bytes, number: nat, device: Device): Bytes {
    var body := Encode(Carried(action, number, device));
    Header(|body|, device) + body
  }

  lemma {:induction false} EncodeConcat(a: seq<Property>, b: seq<Property>)
    ensures Encode(a + b) == Encode(a) + Encode(b)
    decreases |b|
  {
    if b == [] {
      assert a + b == a;
    } else {
      assert (a + b)[..|a + b| - 1] == a + b[..|b| - 1];
      EncodeConcat(a, b[..|b| - 1]);
    }
  }

  lemma EncodePair(a: Property, b: Property)
    ensures Encode([a, b]) == a.name + [EQUALS] + a.value + [NUL] + b.name + [EQUALS] + b.value + [NUL]
  {
    assert [a, b][..1] == [a] && [a][..0] == [];
    assert Encode([a]) == EncodeOne(a);
  }

  lemma EncodeSnoc(properties: seq<Property>, p: Property)
    ensures Encode(properties + [p]) == Encode(properties) + p.name + [EQUALS] + p.value + [NUL]
  {
    assert (properties + [p])[..|properties|] == properties;
  }

  /** The sequence number after one more message; a 64-bit counter. */
  function NextNumber(number: nat): nat {
    (number + 1) % U64_LIMIT
  }

  class UdevSender {
    var number: nat
    var sent: seq<Bytes>

    constructor ()
      ensures number == 0 && sent == []
    {
      number := 0;
      sent := [];
    }

    /** Compose a message and broadcast it; the kernel may refuse it. */
    method Send(device: Device, action: Bytes, accepted: bool) returns (r: Result<()>)
      modifies this
      ensures number == NextNumber(old(number))
      ensures sent == if accepted then old(sent) + [Message(action, number, device)] else old(sent)
      ensures r == if accepted then Ok(()) else Err(NotSent)
    {
      number := (number + 1) % U64_LIMIT;
      var fixed := [Property(ACTION, action), Property(SEQNUM, DecimalBytes(number))];
      var body := ACTION + [EQUALS] + action + [NUL] + SEQNUM + [EQUALS] + DecimalBytes(number) + [NUL];
      EncodePair(Property(ACTION, action), Property(SEQNUM, DecimalBytes(number)));
      assert fixed + Forwarded(device.properties[..0]) == fixed;
      for i := 0 to |device.properties|
        invariant number == NextNumber(old(number)) && sent == old(sent)
        invariant body == Encode(fixed + Forwarded(device.properties[..i]))
      {
        var p := device.properties[i];
        var before := Forwarded(device.properties[..i]);
        assert device.properties[..i + 1][..i] == device.properties[..i];
        if p.name == ACTION || p.name == SEQNUM {
          assert before + [] == before;
          continue;
        }
        EncodeSnoc(fixed + before, p);
        assert fixed + (before + [p]) == fixed + before + [p];
        body := body + p.name;
        body := body + [EQUALS];
        body := body + p.value;
        body := body + [NUL];
      }
      assert device.properties[..|device.properties|] == device.properties;
      var header := Header(|body|, device);
      if !accepted {
        return Err(NotSent);
      }
      sent := sent + [header + body];
      r := Ok(());
    }
  }

  // ----- Decoding, as a libudev client does: entries end with a 0 byte, and `=` is 61 -----

  function WordAt(b: Bytes, i: nat): nat
    requires i + 4 <= |b|
  {
    var w0: int, w1: int, w2: int, w3: int := b[i], b[i + 1], b[i + 2], b[i + 3];
    w0 + w1 * 0x100 + w2 * 0x1_0000 + w3 * 0x100_0000
  }

  lemma WordRoundTrip(a: Bytes, n: U32, c: Bytes)
    ensures WordAt(a + Word(n) + c, |a|) == n
  {
    var b := a + Word(n) + c;
    assert b[|a|] == n % 256 && b[|a| + 1] == n / 0x100 % 256;
    assert b[|a| + 2] == n / 0x1_0000 % 256 && b[|a| + 3] == n / 0x100_0000;
    assert n / 0x100 / 256 == n / 0x1_0000 && n / 0x1_0000 / 256 == n / 0x100_0000;
  }

  /** The least significant byte comes first. */
  lemma WordBytes(b0: Byte, b1: Byte, b2: Byte, b3: Byte)
    ensures var n: int := b0 + (b1 + (b2 + b3 as int * 0x100) * 0x100) * 0x100;
            0 <= n < 0x1_0000_0000 && Word(n) == [b0, b1, b2, b3]
  {
    var n2: int := b2 + b3 as int * 0x100;
    var n1: int := b1 + n2 * 0x100;
    var n: int := b0 + n1 * 0x100;
    LowestByte(b2, b3);
    LowestByte(b1, n2);
    LowestByte(b0, n1);
    assert n / 0x1_0000 == n / 0x100 / 0x100 && n / 0x100_0000 == n / 0x1_0000 / 0x100;
  }

  lemma LowestByte(b: Byte, rest: nat)
    ensures (b + rest * 0x100) % 0x100 == b && (b + rest * 0x100) / 0x100 == rest
  {
  }

  function DecodeOne(entry: Bytes): Option<Property> {
    var i := IndexOf(entry, 61);
    if i.None? then None else Some(Property(entry[..i.value], entry[i.value + 1..]))
  }

  function Decode(b: Bytes): Option<seq<Property>>
    decreases |b|
  {
    if b == [] then Some([])
    else
      var i := IndexOf(b, 0);
      if i.None? then None
      else
        var first := DecodeOne(b[..i.value]);
        var rest := Decode(b[i.value + 1..]);
        if first.Some? && rest.Some? then Some([first.value] + rest.value) else None
  }

  /** Slice the properties out of a message by the offset and length in its header. */
  function Payload(message: Bytes): Option<Bytes> {
    if |message| < HEADER_SIZE then None
    else
      var off, len := WordAt(message, 16), WordAt(message, 20);
      if off + len <= |message| then Some(message[off..off + len]) else None
  }

  /** What a C string can hold: no NUL anywhere, and no equals sign in the name. */
  predicate Plain(p: Property) {
    0 !in p.name && 61 !in p.name && 0 !in p.value
  }

  lemma DecodeFirst(p: Property, rest: Bytes)
    requires Plain(p)
    ensures Decode(EncodeOne(p) + rest) ==
            if Decode(rest).Some? then Some([p] + Decode(rest).value) else None
  {
    var entry := p.name + [EQUALS] + p.value;
    var b := EncodeOne(p) + rest;
    assert b == entry + [NUL] + rest;
    assert NUL !in entry;
    IndexOfAfter(entry, NUL, rest);
    assert b[..|entry|] == entry && b[|entry| + 1..] == rest;
    IndexOfAfter(p.name, EQUALS, p.value);
    assert entry[..|p.name|] == p.name && entry[|p.name| + 1..] == p.value;
  }

  lemma {:induction false} DecodeEncode(properties: seq<Property>)
    requires forall p | p in properties :: Plain(p)
    ensures Decode(Encode(properties)) == Some(properties)
    decreases |properties|
  {
    if properties != [] {
      var first, rest := properties[0], properties[1..];
      assert properties == [first] + rest;
      EncodeConcat([first], rest);
      assert [first][..0] == [] && Encode([first]) == EncodeOne(first);
      DecodeEncode(rest);
      DecodeFirst(first, Encode(rest));
    }
  }

  lemma HeaderWords(length: nat, device: Device, body: Bytes)
    ensures WordAt(Header(length, device) + body, 16) == HEADER_SIZE
    ensures WordAt(Header(length, device) + body, 20) == length % U32_LIMIT
  {
    var rest := Back(device) + body;
    var m := Header(length, device) + body;
    assert m == Front() + Word(HEADER_SIZE) + (Word(length % U32_LIMIT) + rest);
    assert m == (Front() + Word(HEADER_SIZE)) + Word(length % U32_LIMIT) + rest;
    WordRoundTrip(Front(), HEADER_SIZE, Word(length % U32_LIMIT) + rest);
    WordRoundTrip(Front() + Word(HEADER_SIZE), length % U32_LIMIT, rest);
  }

  lemma WordIn(message: Bytes, a: Bytes, n: U32, c: Bytes)
    requires message == a + Word(n) + c
    ensures WordAt(message, |a|) == n
  {
    WordRoundTrip(a, n, c);
  }

  /** Three words after the first 24 bytes. */
  lemma LaterWords(message: Bytes, a: Bytes, s: U32, d: U32, rest: Bytes)
    requires message == a + Word(s) + (Word(d) + rest) && |a| == 24 && |rest| >= 8
    requires rest[..8] == Word(U32_LIMIT - 1) + Word(U32_LIMIT - 1)
    ensures WordAt(message, 24) == s && WordAt(message, 28) == d
    ensures WordAt(message, 32) == WordAt(message, 36) == U32_LIMIT - 1
  {
    WordIn(message, a, s, Word(d) + rest);
    assert message == (a + Word(s)) + Word(d) + rest;
    WordIn(message, a + Word(s), d, rest);
    OnesIn(message, a + Word(s) + Word(d), rest);
  }

  lemma OnesIn(message: Bytes, a: Bytes, rest: Bytes)
    requires message == a + rest && |rest| >= 8 && |a| == 32
    requires rest[..8] == Word(U32_LIMIT - 1) + Word(U32_LIMIT - 1)
    ensures WordAt(message, 32) == WordAt(message, 36) == U32_LIMIT - 1
  {
    var ones := Word(U32_LIMIT - 1);
    assert rest == rest[..8] + rest[8..];
    assert message == a + ones + (ones + rest[8..]);
    WordIn(message, a, U32_LIMIT - 1, ones + rest[8..]);
    assert message == (a + ones) + ones + rest[8..];
    WordIn(message, a + ones, U32_LIMIT - 1, rest[8..]);
  }

  lemma HeaderSplits(length: nat, device: Device, body: Bytes)
    ensures var a := Front() + Word(HEADER_SIZE) + Word(length % U32_LIMIT);
            var rest := Word(U32_LIMIT - 1) + Word(U32_LIMIT - 1) + body;
            && |a| == 24
            && Header(length, device) + body
               == a + Word(device.subsystemHash) + (Word(device.devtypeHash) + rest)
  {
  }

  lemma FrontReadsBack(rest: Bytes)
    ensures var m := Front() + rest;
            && m[..8] == Ascii("libudev") + [NUL] && m[8..12] == [0xFE, 0xED, 0xCA, 0xFE]
            && WordAt(m, 12) == HEADER_SIZE
  {
    var m := Front() + rest;
    assert m == (Ascii("libudev") + [NUL] + [0xFE, 0xED, 0xCA, 0xFE]) + Word(HEADER_SIZE) + rest;
    WordIn(m, Ascii("libudev") + [NUL] + [0xFE, 0xED, 0xCA, 0xFE], HEADER_SIZE, rest);
  }

  lemma FrontOf(length: nat, device: Device, body: Bytes)
    ensures var m := Header(length, device) + body;
            && m[..8] == Ascii("libudev") + [NUL] && m[8..12] == [0xFE, 0xED, 0xCA, 0xFE]
            && WordAt(m, 12) == HEADER_SIZE
  {
    var after := Word(HEADER_SIZE) + Word(length % U32_LIMIT) + Back(device) + body;
    assert Header(length, device) + body == Front() + after;
    FrontReadsBack(after);
  }

  lemma BackOf(length: nat, device: Device, body: Bytes)
    ensures var m := Header(length, device) + body;
            && WordAt(m, 24) == device.subsystemHash && WordAt(m, 28) == device.devtypeHash
            && WordAt(m, 32) == WordAt(m, 36) == U32_LIMIT - 1
  {
    var a := Front() + Word(HEADER_SIZE) + Word(length % U32_LIMIT);
    var rest := Word(U32_LIMIT - 1) + Word(U32_LIMIT - 1) + body;
    HeaderSplits(length, device, body);
    LaterWords(Header(length, device) + body, a, device.subsystemHash, device.devtypeHash, rest);
  }

  /** The fixed part of a message, read at the offsets that libudev uses. */
  lemma HeaderReadsBack(action: Bytes, number: nat, device: Device)
    ensures var m := Message(action, number, device);
            && |m| >= HEADER_SIZE
            && m[..8] == [0x6C, 0x69, 0x62, 0x75, 0x64, 0x65, 0x76, 0]
            && m[8..12] == [0xFE, 0xED, 0xCA, 0xFE]
            && WordAt(m, 12) == WordAt(m, 16) == 40
            && WordAt(m, 24) == device.subsystemHash
            && WordAt(m, 28) == device.devtypeHash
            && WordAt(m, 32) == WordAt(m, 36) == 0xFFFF_FFFF
  {
    var body := Encode(Carried(action, number, device));
    FrontOf(|body|, device, body);
    BackOf(|body|, device, body);
    HeaderWords(|body|, device, body);
  }

  lemma AfterHeader(header: Bytes, body: Bytes, len: nat)
    requires |header| == HEADER_SIZE && len <= |body|
    ensures (header + body)[HEADER_SIZE..HEADER_SIZE + len] == body[..len]
  {
  }

  /** The header says where the properties are: the slice is the whole body unless the body is so long
    that its length does not fit in 32 bits. */
  lemma PayloadExact(action: Bytes, number: nat, device: Device)
    ensures var body := Encode(Carried(action, number, device));
            Payload(Message(action, number, device)) == Some(body[..|body| % U32_LIMIT])
  {
    var body := Encode(Carried(action, number, device));
    HeaderWords(|body|, device, body);
    AfterHeader(Header(|body|, device), body, |body| % U32_LIMIT);
  }

  lemma {:induction false} ForwardedPlain(properties: seq<Property>)
    requires forall p | p in properties :: Plain(p)
    ensures forall p | p in Forwarded(properties) :: Plain(p)
    decreases |properties|
  {
    if properties != [] {
      ForwardedPlain(properties[..|properties| - 1]);
    }
  }

  /** A client decodes exactly the properties put in: the action, the number, then the device's other
    properties in their order. */
  lemma MessageRoundTrip(action: Bytes, number: nat, device: Device)
    requires NUL !in action && forall p | p in device.properties :: Plain(p)
    requires |Encode(Carried(action, number, device))| < U32_LIMIT
    ensures var payload := Payload(Message(action, number, device));
            payload.Some? && Decode(payload.value) == Some(Carried(action, number, device))
  {
    var body := Encode(Carried(action, number, device));
    PayloadExact(action, number, device);
    WholePrefix(body);
    CarriedPlain(action, number, device);
    DecodeEncode(Carried(action, number, device));
  }

  lemma WholePrefix(b: Bytes)
    requires |b| < U32_LIMIT
    ensures b[..|b| % U32_LIMIT] == b
  {
  }

  lemma DigitsPlain(n: nat)
    ensures NUL !in DecimalBytes(n)
  {
    DecimalValue(n);
    forall i | 0 <= i < |DecimalBytes(n)| ensures DecimalBytes(n)[i] != NUL {
      assert Decimal(n)[i] in Decimal(n);
    }
  }

  lemma CarriedPlain(action: Bytes, number: nat, device: Device)
    requires NUL !in action && forall p | p in device.properties :: Plain(p)
    ensures forall p | p in Carried(action, number, device) :: Plain(p)
  {
    ForwardedPlain(device.properties);
    DigitsPlain(number);
    NameIsPlain("ACTION");
    NameIsPlain("SEQNUM");
  }

  lemma NameIsPlain(name: string)
    requires forall i | 0 <= i < |name| :: 65 <= name[i] as int < 128
    ensures NUL !in Ascii(name) && EQUALS !in Ascii(name)
  {
  }

  /** The two supplied properties occur once each, in front, whatever the device reports. */
  lemma SuppliedOnce(action: Bytes, number: nat, device: Device, i: nat)
    requires i < |Carried(action, number, device)|
    ensures Supplied(Carried(action, number, device)[i]) <==> i < 2
    ensures i < 2 ==> Carried(action, number, device)[i].name == if i == 0 then ACTION else SEQNUM
  {
    if i >= 2 {
      ForwardedOthers(device.properties);
      assert Carried(action, number, device)[i] == Forwarded(device.properties)[i - 2];
    }
  }

  lemma {:induction false} ForwardedOthers(properties: seq<Property>)
    ensures forall i | 0 <= i < |Forwarded(properties)| :: !Supplied(Forwarded(properties)[i])
    decreases |properties|
  {
    if properties != [] {
      ForwardedOthers(properties[..|properties| - 1]);
    }
  }

  /** The decoded number is the number sent. */
  lemma NumberReadsBack(n: nat)
    requires n < 0x1_0000_0000_0000_0000
    ensures |DecimalBytes(n)| == |Decimal(n)|
    ensures forall i | 0 <= i < |Decimal(n)| :: DecimalBytes(n)[i] == Decimal(n)[i] as int
    ensures FromDigits(Decimal(n), 10, 0x1_0000_0000_0000_0000) == Some(n)
  {
    DecimalRoundTrip(n, U64_LIMIT);
  }

  // ----- What a client learns, in plain terms -----

  /** What is forwarded are the properties at exactly the indices whose name is neither of the two supplied, in
    their order. */
  lemma {:induction false} ForwardedIndices(properties: seq<Property>) returns (indices: seq<nat>)
    ensures Increasing(indices)
    ensures forall i: nat :: i in indices <==>
              i < |properties| && properties[i].name != Ascii("ACTION") && properties[i].name != Ascii("SEQNUM")
    ensures Forwarded(properties) == Picked(properties, indices)
    decreases |properties|
  {
    if properties == [] {
      indices := [];
    } else {
      var before := ForwardedIndices(properties[..|properties| - 1]);
      indices := OneMore(properties, before);
    }
  }

  /** The last property joins the indices of the others unless its name is supplied. */
  lemma OneMore(properties: seq<Property>, before: seq<nat>) returns (indices: seq<nat>)
    requires properties != [] && Increasing(before)
    requires forall i: nat :: i in before <==>
               && i < |properties| - 1
               && properties[i].name != Ascii("ACTION") && properties[i].name != Ascii("SEQNUM")
    requires Forwarded(properties[..|properties| - 1]) == Picked(properties[..|properties| - 1], before)
    ensures Increasing(indices)
    ensures forall i: nat :: i in indices <==>
              i < |properties| && properties[i].name != Ascii("ACTION") && properties[i].name != Ascii("SEQNUM")
    ensures Forwarded(properties) == Picked(properties, indices)
  {
    var n := |properties| - 1;
    indices := before;
    PickedFromPrefix(properties, before);
    if properties[n].name != Ascii("ACTION") && properties[n].name != Ascii("SEQNUM") {
      indices := before + [n];
      IncreasingMore(before, n);
      PickedMore(properties, before, n);
    }
  }

  lemma PickedFromPrefix(properties: seq<Property>, indices: seq<nat>)
    requires properties != [] && forall i | i in indices :: i < |properties| - 1
    ensures Picked(properties[..|properties| - 1], indices) == Picked(properties, indices)
  {
    assert forall j | 0 <= j < |indices| :: indices[j] in indices;
  }

  lemma PickedMore(properties: seq<Property>, indices: seq<nat>, n: nat)
    requires n < |properties| && forall i | i in indices :: i < |properties|
    ensures forall i | i in indices + [n] :: i < |properties|
    ensures Picked(properties, indices + [n]) == Picked(properties, indices) + [properties[n]]
  {
    assert forall j | 0 <= j < |indices| :: indices[j] in indices && (indices + [n])[j] == indices[j];
  }

  /** A client reads `ACTION` and `SEQNUM` first and then the device's own properties but for these two names, each
    once and in their order. */
  lemma ClientReads(action: Bytes, number: nat, device: Device) returns (indices: seq<nat>)
    requires 0 !in action && forall p | p in device.properties :: Plain(p)
    requires |Encode(Carried(action, number, device))| < 0x1_0000_0000
    ensures Increasing(indices)
    ensures forall i: nat :: i in indices <==>
              && i < |device.properties|
              && device.properties[i].name != Ascii("ACTION") && device.properties[i].name != Ascii("SEQNUM")
    ensures var payload := Payload(Message(action, number, device));
            payload.Some? &&
            Decode(payload.value) ==
            Some([Property(Ascii("ACTION"), action), Property(Ascii("SEQNUM"), DecimalBytes(number))]
                 + Picked(device.properties, indices))
  {
    indices := ForwardedIndices(device.properties);
    MessageRoundTrip(action, number, device);
  }
}
