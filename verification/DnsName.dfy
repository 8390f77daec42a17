// DNS names (helpers.py: get_dns_name_encoding, decode_dns_name, construct_query), sections 3.1 and 4.1.4 of
// RFC 1035. A str is represented by its UTF-8 bytes.

module DnsNames {
  import opened Prelude
  import opened Utf8

  const DOT: byte := 46

  predicate HasDot(t: Text) { exists i :: 0 <= i < |t| && t[i] == DOT }

  // ----- str.split('.') and '.'.join

  function Split(name: Text): (parts: seq<Text>)
    ensures parts != []
  {
    if name == [] then [[]]
    else
      var rest := Split(name[1..]);
      if name[0] == DOT then [[]] + rest else [[name[0]] + rest[0]] + rest[1..]
  }

  function Join(parts: seq<Text>): Text
    decreases |parts|
  {
    if parts == [] then []
    else if |parts| == 1 then parts[0]
    else parts[0] + [DOT] + Join(parts[1..])
  }

  lemma {:induction false} JoinSplit(name: Text)
    ensures Join(Split(name)) == name
    decreases |name|
  {
    if name != [] {
      JoinSplit(name[1..]);
      var rest, parts := Split(name[1..]), Split(name);
      if name[0] == DOT {
        assert parts[1..] == rest;
        assert name == [] + [DOT] + name[1..];
      } else {
        assert parts[1..] == rest[1..];
        assert name == [name[0]] + name[1..];
        if |rest| > 1 {
          assert Join(parts) == [name[0]] + rest[0] + [DOT] + Join(rest[1..]);
          assert Join(rest) == rest[0] + [DOT] + Join(rest[1..]);
        }
      }
    }
  }

  lemma {:induction false} SplitParts(name: Text)
    ensures forall i :: 0 <= i < |Split(name)| ==> !HasDot(Split(name)[i])
    ensures LeadsFollowed(name) ==> forall i :: 0 <= i < |Split(name)| ==> LeadsFollowed(Split(name)[i])
    decreases |name|
  {
    if name != [] {
      SplitParts(name[1..]);
      var rest, parts := Split(name[1..]), Split(name);
      assert forall i :: 1 <= i < |parts| ==> parts[i] == if name[0] == DOT then rest[i - 1] else rest[i];
    }
  }

  // ----- get_dns_name_encoding

  // struct.pack("B...s", len(label), label), for a length that fits in a byte.
  function Packed(item: Text): seq<byte>
    requires |item| < 256
  { [|item|] + item }

  predicate Packable(labels: seq<Text>) { forall i :: 0 <= i < |labels| ==> |labels[i]| < 256 }

  function PackedAll(labels: seq<Text>): seq<byte>
    requires Packable(labels)
    decreases |labels|
  { if labels == [] then [] else Packed(labels[0]) + PackedAll(labels[1..]) }

  function Encoded(labels: seq<Text>): seq<byte>
    requires Packable(labels)
  { PackedAll(labels) + [0] }

  lemma PackableParts(labels: seq<Text>, more: seq<Text>)
    ensures Packable(labels + more) <==> Packable(labels) && Packable(more)
  {
    assert forall i :: 0 <= i < |labels| ==> (labels + more)[i] == labels[i];
    assert forall i :: 0 <= i < |more| ==> (labels + more)[|labels| + i] == more[i];
  }

  lemma {:induction false} PackedAllAppend(labels: seq<Text>, item: Text)
    requires Packable(labels) && |item| < 256
    ensures Packable(labels + [item]) && PackedAll(labels + [item]) == PackedAll(labels) + Packed(item)
    decreases |labels|
  {
    PackableParts(labels, [item]);
    if labels == [] {
      assert labels + [item] == [item] && PackedAll([]) == [];
      assert PackedAll([item]) == Packed(item) + PackedAll([]);
    } else {
      var rest := labels[1..];
      PackedAllAppend(rest, item);
      assert (labels + [item])[0] == labels[0] && (labels + [item])[1..] == rest + [item];
      assert Packed(labels[0]) + (PackedAll(rest) + Packed(item)) == PackedAll(labels) + Packed(item);
    }
  }

  // struct.pack(f"{len(part)}s", part.encode()) keeps as many bytes of the encoding as the part has characters.
  function Cut(part: Text): (item: Text)
    ensures |item| == Characters(part)
  { part[..Characters(part)] }

  function CutAll(parts: seq<Text>): (items: seq<Text>)
    ensures |items| == |parts| && forall i :: 0 <= i < |parts| ==> items[i] == Cut(parts[i])
  { seq(|parts|, i requires 0 <= i < |parts| => Cut(parts[i])) }

  // The labels that are written for a name.
  function Written(name: Text): seq<Text> { CutAll(Split(name)) }

  // None: struct.pack refuses a length over 255.
  function Encoding(name: Text): Option<seq<byte>> {
    if Packable(Written(name)) then Some(Encoded(Written(name))) else None
  }

  // No label has more than 255 characters.
  ghost predicate Encodable(name: Text) {
    forall i :: 0 <= i < |Split(name)| ==> Characters(Split(name)[i]) <= 255
  }

  lemma EncodableIff(name: Text)
    ensures Encoding(name).Some? <==> Encodable(name)
  {
    var parts, items := Split(name), Written(name);
    assert forall i :: 0 <= i < |parts| ==> |items[i]| == Characters(parts[i]);
    if Encodable(name) {
      forall i | 0 <= i < |items| ensures |items[i]| < 256 { assert Characters(parts[i]) <= 255; }
    } else {
      var i :| 0 <= i < |parts| && Characters(parts[i]) > 255;
      assert |items[i]| > 255;
    }
  }

  // Where the label with index k is written.
  function LabelOffset(parts: seq<Text>, k: nat): nat
    requires k <= |parts|
    decreases k
  { if k == 0 then 0 else 1 + Characters(parts[0]) + LabelOffset(parts[1..], k - 1) }

  // At this place the number of characters of the part, and as many bytes of it.
  predicate WrittenAt(bytes: seq<byte>, at: nat, part: Text) {
    var n := Characters(part);
    at + 1 + n <= |bytes| && bytes[at] == n && bytes[at + 1..at + 1 + n] == part[..n]
  }

  function ItemOffset(items: seq<Text>, k: nat): nat
    requires k <= |items|
    decreases k
  { if k == 0 then 0 else 1 + |items[0]| + ItemOffset(items[1..], k - 1) }

  lemma {:induction false} LabelOffsetIs(parts: seq<Text>, k: nat)
    requires k <= |parts|
    ensures LabelOffset(parts, k) == ItemOffset(CutAll(parts), k)
    decreases k
  {
    if k != 0 {
      assert CutAll(parts)[1..] == CutAll(parts[1..]);
      LabelOffsetIs(parts[1..], k - 1);
    }
  }

  lemma PlacedWithin(before: seq<byte>, bytes: seq<byte>, after: seq<byte>, at: nat, item: seq<byte>)
    requires Placed(bytes, at, item)
    ensures Placed(before + bytes + after, |before| + at, item)
  {
    assert (before + bytes + after)[|before| + at..|before| + at + |item|] == bytes[at..at + |item|];
  }

  lemma {:induction false} PackedAt(items: seq<Text>, k: nat)
    requires Packable(items) && k < |items|
    ensures Placed(PackedAll(items), ItemOffset(items, k), Packed(items[k]))
    decreases k
  {
    var first, later := Packed(items[0]), PackedAll(items[1..]);
    if k == 0 {
      PlacedWithin([], first, later, 0, first);
      assert [] + first + later == first + later;
    } else {
      PackedAt(items[1..], k - 1);
      PlacedWithin(first, later, [], ItemOffset(items[1..], k - 1), Packed(items[k]));
      assert first + later + [] == first + later;
    }
  }

  lemma PlacedIsWritten(bytes: seq<byte>, at: nat, part: Text)
    requires Characters(part) < 256 && Placed(bytes, at, Packed(Cut(part)))
    ensures WrittenAt(bytes, at, part)
  {
    PlacedParts(bytes, at, [|Cut(part)|], Cut(part));
    PlacedByte(bytes, at, |Cut(part)|);
  }

  lemma ItemIsPlaced(items: seq<Text>, k: nat)
    requires Packable(items) && k < |items|
    ensures Placed(Encoded(items), ItemOffset(items, k), Packed(items[k]))
  {
    PackedAt(items, k);
    PlacedWithin([], PackedAll(items), [0], ItemOffset(items, k), Packed(items[k]));
    assert [] + PackedAll(items) + [0] == Encoded(items);
  }

  lemma PartIsWritten(name: Str, k: nat)
    requires Packable(Written(name)) && k < |Split(name)|
    ensures WrittenAt(Encoded(Written(name)), LabelOffset(Split(name), k), Split(name)[k])
  {
    var parts := Split(name);
    LabelOffsetIs(parts, k);
    ItemIsPlaced(Written(name), k);
    assert Written(name)[k] == Cut(parts[k]);
    PlacedIsWritten(Encoded(Written(name)), LabelOffset(parts, k), parts[k]);
  }

  // The bytes of an encoding: all parts in their places, and a zero byte.
  lemma EncodingBytes(name: Str)
    requires Encodable(name)
    ensures Encoding(name).Some?
    ensures var parts, bytes := Split(name), Encoding(name).value;
            && |bytes| == Characters(name) + 2 && bytes[|bytes| - 1] == 0
            && forall k :: 0 <= k < |parts| ==> WrittenAt(bytes, LabelOffset(parts, k), parts[k])
  {
    EncodableIff(name);
    EncodedLength(name);
    forall k | 0 <= k < |Split(name)|
      ensures WrittenAt(Encoding(name).value, LabelOffset(Split(name), k), Split(name)[k])
    {
      PartIsWritten(name, k);
    }
  }

  method GetDnsNameEncoding(name: Str) returns (encoded: Option<seq<byte>>)
    ensures encoded.Some? <==> Encodable(name)
    ensures encoded == Encoding(name)
  {
    EncodableIff(name);
    var parts := Split(name);
    ghost var labels := Written(name);
    var encodedName: seq<byte> := [];
    for k := 0 to |parts|
      invariant Packable(labels[..k]) && encodedName == PackedAll(labels[..k])
    {
      if 256 <= Characters(parts[k]) {
        assert 256 <= |labels[k]|;
        return None;
      }
      assert labels[..k + 1] == labels[..k] + [Cut(parts[k])];
      PackedAllAppend(labels[..k], Cut(parts[k]));
      encodedName := encodedName + Packed(Cut(parts[k]));
    }
    assert labels[..|parts|] == labels;
    return Some(encodedName + [0]);
  }

  // ----- decode_dns_name

  datatype Decoded =
    | Name(text: Text, next: nat)
    | StructError       // unpacking past the end of the buffer
    | DecodeError       // a label that is not UTF-8
    | RecursionError    // more pointers than the interpreter has stack frames left

  // 1 << i
  function Bit(i: nat): nat
    requires i <= 8
  {
    if i == 0 then 1 else if i == 1 then 2 else if i == 2 then 4 else if i == 3 then 8 else if i == 4 then 16
    else if i == 5 then 32 else if i == 6 then 64 else if i == 7 then 128 else 256
  }

  // x & 1 << i
  function BitOf(x: byte, i: nat): nat
    requires i < 8
  { x / Bit(i) % 2 * Bit(i) }

  // The low `bits` bits of x, as the source adds them up: (x & 1 << 0) + (x & 1 << 1) + ...
  function LowBits(x: byte, bits: nat): nat
    requires bits <= 8
  { if bits == 0 then 0 else LowBits(x, bits - 1) + BitOf(x, bits - 1) }

  lemma LowerBits(x: byte)
    ensures 0 + x / 1 % 2 * 1 == x % 2 && x % 2 + x / 2 % 2 * 2 == x % 4
    ensures x % 4 + x / 4 % 2 * 4 == x % 8 && x % 8 + x / 8 % 2 * 8 == x % 16
  {
  }

  lemma MiddleBits(x: byte)
    ensures x % 16 + x / 16 % 2 * 16 == x % 32 && x % 32 + x / 32 % 2 * 32 == x % 64
  {
  }

  lemma UpperBits(x: byte)
    ensures x % 64 + x / 64 % 2 * 64 == x % 128 && x % 128 + x / 128 % 2 * 128 == x % 256
  {
  }

  lemma {:induction false} LowBitsIsMod(x: byte, bits: nat)
    requires bits <= 8
    ensures LowBits(x, bits) == x % Bit(bits)
    decreases bits
  {
    if bits != 0 {
      LowBitsIsMod(x, bits - 1);
      LowerBits(x);
      MiddleBits(x);
      UpperBits(x);
    }
  }

  // (length & 1 << 7) and (length & 1 << 6)
  predicate TopBitsSet(length: byte) { length / Bit(7) % 2 == 1 && length / Bit(6) % 2 == 1 }

  // Both top bits set, and the 14 bits below them.
  predicate IsPointer(length: byte) { 192 <= length }

  function PointerOffset(length: byte, b2: byte): nat
    requires IsPointer(length)
  { (length - 192) * 256 + b2 }

  lemma TopBits(length: byte)
    ensures TopBitsSet(length) <==> IsPointer(length)
    ensures IsPointer(length) ==> length % 64 == length - 192
  {
  }

  // The two bit loops.
  method ReadOffset(length: byte, b2: byte) returns (offset: nat)
    requires IsPointer(length)
    ensures offset == PointerOffset(length, b2)
  {
    offset := 0;
    for i := 0 to 6
      invariant offset == LowBits(length, i) * 256
    {
      assert LowBits(length, i + 1) == LowBits(length, i) + BitOf(length, i);
      offset := offset + BitOf(length, i) * 256;
    }
    ghost var high := offset;
    for i := 0 to 8
      invariant offset == high + LowBits(b2, i)
    {
      offset := offset + BitOf(b2, i);
    }
    LowBitsIsMod(length, 6);
    LowBitsIsMod(b2, 8);
    TopBits(length);
  }

  // text[:-1]; the last character is a dot, a single byte.
  function DropLast(text: Text): Text { if text == [] then [] else text[..|text| - 1] }

  // The loop from `position` on, with `text` read so far and `frames` recursive calls left.
  function Scan(buffer: seq<byte>, position: nat, text: Text, frames: nat): Decoded
    decreases frames, if position < |buffer| then |buffer| - position else 0
  {
    if |buffer| <= position then StructError
    else
      var length := buffer[position];
      if length == 0 then Name(DropLast(text), position + 1)
      else if IsPointer(length) then
        if |buffer| <= position + 1 then StructError
        else if frames == 0 then RecursionError
        else
          var inner := Scan(buffer, PointerOffset(length, buffer[position + 1]), [], frames - 1);
          if inner.Name? then Name(text + inner.text, position + 2) else inner
      else if |buffer| < position + 1 + length then StructError
      else
        var item := buffer[position + 1..position + 1 + length];
        if !ValidUtf8(item) then DecodeError
        else Scan(buffer, position + 1 + length, text + item + [DOT], frames)
  }

  function Decode(buffer: seq<byte>, start: nat, frames: nat): Decoded { Scan(buffer, start, [], frames) }

  method DecodeDnsName(buffer: seq<byte>, start: nat, frames: nat) returns (result: Decoded)
    ensures result == Decode(buffer, start, frames)
    decreases frames
  {
    var toReturn: Text := [];
    var position := start;
    while true
      invariant Scan(buffer, position, toReturn, frames) == Decode(buffer, start, frames)
      decreases if position < |buffer| then |buffer| - position else 0
    {
      if |buffer| <= position { return StructError; }
      var length := buffer[position];
      if length == 0 {
        position := position + 1;
        break;
      }
      TopBits(length);
      if TopBitsSet(length) {
        if |buffer| <= position + 1 { return StructError; }
        var offset := ReadOffset(length, buffer[position + 1]);
        if frames == 0 { return RecursionError; }
        var dereferenced := DecodeDnsName(buffer, offset, frames - 1);
        if !dereferenced.Name? { return dereferenced; }
        return Name(toReturn + dereferenced.text, position + 2);
      }
      position := position + 1;
      if |buffer| < position + length { return StructError; }
      var item := buffer[position..position + length];
      if !ValidUtf8(item) { return DecodeError; }
      toReturn := toReturn + item + [DOT];
      position := position + length;
    }
    return Name(DropLast(toReturn), position);
  }

  // ----- what a buffer can hold

  // A name as it lies in a message: labels, then the root or a pointer to another name.
  datatype Repr = Root | Label(text: Text, rest: Repr) | Pointer(target: nat, to: Repr)

  // The lengths the decoder takes for labels. RFC 1035 stops at 63; the code does not.
  predicate LabelOk(t: Text) { 1 <= |t| < 192 && ValidUtf8(t) }

  ghost predicate Holds(buffer: seq<byte>, position: nat, r: Repr)
    decreases r
  {
    match r
    case Root => position < |buffer| && buffer[position] == 0
    case Label(text, rest) =>
      var end := position + 1 + |text|;
      && LabelOk(text) && end <= |buffer|
      && buffer[position] == |text| && buffer[position + 1..end] == text
      && Holds(buffer, end, rest)
    case Pointer(target, to) =>
      && position + 1 < |buffer| && IsPointer(buffer[position])
      && target == PointerOffset(buffer[position], buffer[position + 1])
      && Holds(buffer, target, to)
  }

  function Labels(r: Repr): seq<Text> {
    match r
    case Root => []
    case Label(text, rest) => [text] + Labels(rest)
    case Pointer(_, to) => Labels(to)
  }

  function Pointers(r: Repr): nat {
    match r
    case Root => 0
    case Label(_, rest) => Pointers(rest)
    case Pointer(_, to) => 1 + Pointers(to)
  }

  // Just past the root byte or past the first pointer.
  function EndOf(position: nat, r: Repr): nat
    decreases r
  {
    match r
    case Root => position + 1
    case Label(text, rest) => EndOf(position + 1 + |text|, rest)
    case Pointer(_, _) => position + 2
  }

  // What the decoder makes of a name after the text it has read already.
  function Spoken(text: Text, r: Repr): Text
    decreases r
  {
    match r
    case Root => DropLast(text)
    case Label(item, rest) => Spoken(text + item + [DOT], rest)
    case Pointer(_, to) => text + Spoken([], to)
  }

  lemma {:induction false} HeldIsScanned(buffer: seq<byte>, position: nat, r: Repr, text: Text, frames: nat)
    requires Holds(buffer, position, r)
    ensures Scan(buffer, position, text, frames) ==
            if Pointers(r) <= frames then Name(Spoken(text, r), EndOf(position, r)) else RecursionError
    decreases r
  {
    match r
    case Root =>
    case Label(item, rest) =>
      var end := position + 1 + |item|;
      HeldIsScanned(buffer, end, rest, text + item + [DOT], frames);
      assert !IsPointer(buffer[position]);
      assert Scan(buffer, position, text, frames) == Scan(buffer, end, text + item + [DOT], frames);
    case Pointer(target, to) => if frames != 0 { HeldIsScanned(buffer, target, to, [], frames - 1); }
  }

  lemma {:induction false} ScannedIsHeld(buffer: seq<byte>, position: nat, text: Text, frames: nat) returns (r: Repr)
    requires Scan(buffer, position, text, frames).Name?
    ensures Holds(buffer, position, r) && Pointers(r) <= frames
    decreases frames, |buffer| - position
  {
    var length := buffer[position];
    if length == 0 {
      r := Root;
    } else if IsPointer(length) {
      var target := PointerOffset(length, buffer[position + 1]);
      var to := ScannedIsHeld(buffer, target, [], frames - 1);
      r := Pointer(target, to);
    } else {
      var end := position + 1 + length;
      var item := buffer[position + 1..end];
      var rest := ScannedIsHeld(buffer, end, text + item + [DOT], frames);
      r := Label(item, rest);
    }
  }

  // Decoding succeeds exactly on what a name can look like, and gives exactly what that name says.
  lemma DecodeExact(buffer: seq<byte>, start: nat, frames: nat, result: Decoded)
    ensures (result.Name? && Decode(buffer, start, frames) == result) <==>
            exists r :: Holds(buffer, start, r) && Pointers(r) <= frames
                        && result == Name(Spoken([], r), EndOf(start, r))
  {
    if result.Name? && Decode(buffer, start, frames) == result {
      var r := ScannedIsHeld(buffer, start, [], frames);
      HeldIsScanned(buffer, start, r, [], frames);
    }
    forall r | Holds(buffer, start, r) && Pointers(r) <= frames
      ensures Decode(buffer, start, frames) == Name(Spoken([], r), EndOf(start, r))
    {
      HeldIsScanned(buffer, start, r, [], frames);
    }
  }

  // ----- compression preserves meaning

  // No pointer that follows a label leads to the root alone.
  predicate Clean(r: Repr, seen: bool) {
    match r
    case Root => true
    case Label(_, rest) => Clean(rest, true)
    case Pointer(_, to) => (seen ==> Labels(to) != []) && Clean(to, false)
  }

  function Dotted(labels: seq<Text>): Text
    decreases |labels|
  { if labels == [] then [] else labels[0] + [DOT] + Dotted(labels[1..]) }

  lemma {:induction false} DottedAppend(labels: seq<Text>, more: seq<Text>)
    ensures Dotted(labels + more) == Dotted(labels) + Dotted(more)
    decreases |labels|
  {
    if labels == [] {
      assert labels + more == more;
    } else {
      assert (labels + more)[1..] == labels[1..] + more;
      DottedAppend(labels[1..], more);
    }
  }

  lemma {:induction false} DottedJoin(labels: seq<Text>)
    requires labels != []
    ensures Dotted(labels) == Join(labels) + [DOT]
    decreases |labels|
  {
    if |labels| == 1 {
      assert labels[1..] == [] && Dotted(labels[1..]) == [];
    } else {
      DottedJoin(labels[1..]);
    }
  }

  lemma DottedThenJoin(labels: seq<Text>, more: seq<Text>)
    requires more != []
    ensures Dotted(labels) + Join(more) == Join(labels + more)
  {
    DottedAppend(labels, more);
    DottedJoin(more);
    DottedJoin(labels + more);
    assert Dotted(labels) + (Join(more) + [DOT]) == Dotted(labels) + Join(more) + [DOT];
    assert (Dotted(labels) + Join(more) + [DOT])[..|Dotted(labels) + Join(more)|] == Dotted(labels) + Join(more);
    assert (Join(labels + more) + [DOT])[..|Join(labels + more)|] == Join(labels + more);
  }

  lemma {:induction false} SpokenIs(before: seq<Text>, r: Repr)
    ensures Spoken(Dotted(before), r) ==
            Join(before + Labels(r)) + if Clean(r, before != []) then [] else [DOT]
    decreases r
  {
    match r
    case Root =>
      assert before + [] == before;
      if before != [] {
        DottedJoin(before);
        assert DropLast(Join(before) + [DOT]) == Join(before);
      }
    case Label(text, rest) =>
      DottedAppend(before, [text]);
      assert [text][1..] == [] && Dotted([text][1..]) == [];
      assert Dotted(before + [text]) == Dotted(before) + text + [DOT];
      SpokenIs(before + [text], rest);
      assert before + [text] + Labels(rest) == before + ([text] + Labels(rest));
    case Pointer(_, to) =>
      SpokenIs([], to);
      assert Dotted([]) == [] && [] + Labels(to) == Labels(to);
      if Labels(to) != [] {
        DottedThenJoin(before, Labels(to));
      } else {
        NoLabelsClean(to);
        assert before + [] == before;
        if before != [] { DottedJoin(before); }
      }
  }

  lemma {:induction false} NoLabelsClean(r: Repr)
    requires Labels(r) == []
    ensures Clean(r, false)
    decreases r
  {
    if r.Pointer? { NoLabelsClean(r.to); }
  }

  // A name, however compressed, decodes to its labels joined by dots if and only if no label is followed by a
  // pointer to the root; and the returned index is just past the root byte or the first pointer.
  lemma CompressionPreservesMeaning(buffer: seq<byte>, start: nat, r: Repr, frames: nat)
    requires Holds(buffer, start, r) && Pointers(r) <= frames
    ensures Decode(buffer, start, frames).Name? && Decode(buffer, start, frames).next == EndOf(start, r)
    ensures Decode(buffer, start, frames).text == Join(Labels(r)) <==> Clean(r, false)
  {
    HeldIsScanned(buffer, start, r, [], frames);
    SpokenIs([], r);
    assert Dotted([]) == [] && [] + Labels(r) == Labels(r);
  }

  lemma CleanDecodes(buffer: seq<byte>, start: nat, r: Repr, frames: nat)
    requires Holds(buffer, start, r) && Pointers(r) <= frames && Clean(r, false)
    ensures Decode(buffer, start, frames) == Name(Join(Labels(r)), EndOf(start, r))
  {
    CompressionPreservesMeaning(buffer, start, r, frames);
  }

  // ----- writing names

  predicate LabelsOk(labels: seq<Text>) { forall i :: 0 <= i < |labels| ==> LabelOk(labels[i]) }

  function Chain(labels: seq<Text>, tail: Repr): Repr
    decreases |labels|
  { if labels == [] then tail else Label(labels[0], Chain(labels[1..], tail)) }

  lemma {:induction false} ChainFacts(labels: seq<Text>, tail: Repr, position: nat)
    requires Packable(labels)
    ensures Labels(Chain(labels, tail)) == labels + Labels(tail)
    ensures Pointers(Chain(labels, tail)) == Pointers(tail)
    ensures EndOf(position, Chain(labels, tail)) == EndOf(position + |PackedAll(labels)|, tail)
    ensures Clean(Chain(labels, tail), false) == Clean(tail, labels != [])
    ensures Clean(Chain(labels, tail), true) == Clean(tail, true)
    decreases |labels|
  {
    if labels != [] {
      ChainFacts(labels[1..], tail, position + 1 + |labels[0]|);
      assert labels == [labels[0]] + labels[1..];
    } else {
      assert [] + Labels(tail) == Labels(tail);
    }
  }

  // These bytes lie in the buffer at this position, whatever is around them.
  predicate Placed(buffer: seq<byte>, position: nat, bytes: seq<byte>) {
    position + |bytes| <= |buffer| && buffer[position..position + |bytes|] == bytes
  }

  lemma PlacedParts(buffer: seq<byte>, position: nat, x: seq<byte>, y: seq<byte>)
    requires Placed(buffer, position, x + y)
    ensures Placed(buffer, position, x) && Placed(buffer, position + |x|, y)
  {
    var all := buffer[position..position + |x + y|];
    assert all[..|x|] == x && all[|x|..] == y;
    assert buffer[position..position + |x|] == all[..|x|];
    assert buffer[position + |x|..position + |x| + |y|] == all[|x|..];
  }

  lemma PlacedByte(buffer: seq<byte>, position: nat, b: byte)
    requires Placed(buffer, position, [b])
    ensures position < |buffer| && buffer[position] == b
  {
    assert buffer[position..position + 1][0] == b;
  }

  // One written label, and whatever follows it.
  lemma LabelIsHeld(buffer: seq<byte>, position: nat, item: Text, more: seq<byte>, rest: Repr)
    requires LabelOk(item) && Placed(buffer, position, Packed(item) + more)
    ensures Placed(buffer, position + 1 + |item|, more)
    ensures Holds(buffer, position + 1 + |item|, rest) ==> Holds(buffer, position, Label(item, rest))
  {
    PlacedParts(buffer, position, Packed(item), more);
    PlacedParts(buffer, position, [|item|], item);
    PlacedByte(buffer, position, |item|);
  }

  // Written labels followed by a held tail are held.
  lemma {:induction false} WrittenIsHeld(buffer: seq<byte>, position: nat, labels: seq<Text>, tail: Repr)
    requires LabelsOk(labels) && Placed(buffer, position, PackedAll(labels))
    requires Holds(buffer, position + |PackedAll(labels)|, tail)
    ensures Holds(buffer, position, Chain(labels, tail))
    decreases |labels|
  {
    if labels != [] {
      var item, rest := labels[0], labels[1..];
      LabelIsHeld(buffer, position, item, PackedAll(rest), Chain(rest, tail));
      WrittenIsHeld(buffer, position + 1 + |item|, rest, tail);
    }
  }

  lemma EncodedIsHeld(buffer: seq<byte>, position: nat, labels: seq<Text>)
    requires LabelsOk(labels) && Placed(buffer, position, Encoded(labels))
    ensures Holds(buffer, position, Chain(labels, Root))
  {
    PlacedParts(buffer, position, PackedAll(labels), [0]);
    PlacedByte(buffer, position + |PackedAll(labels)|, 0);
    WrittenIsHeld(buffer, position, labels, Root);
  }

  lemma {:induction false} CutLengths(parts: seq<Text>)
    requires Packable(CutAll(parts)) && parts != []
    ensures |PackedAll(CutAll(parts))| == Characters(Join(parts)) + 1
    ensures |Join(CutAll(parts))| == Characters(Join(parts))
    decreases |parts|
  {
    var items := CutAll(parts);
    assert items[1..] == CutAll(parts[1..]);
    if |parts| == 1 {
      assert parts[1..] == [] && PackedAll(items[1..]) == [];
    } else {
      CutLengths(parts[1..]);
      CharactersAppend(parts[0] + [DOT], Join(parts[1..]));
      CharactersAppend(parts[0], [DOT]);
      assert [DOT][1..] == [];
    }
  }

  lemma {:induction false} CharactersOfParts(parts: seq<Text>)
    requires Characters(Join(parts)) == |Join(parts)|
    ensures forall i :: 0 <= i < |parts| ==> Characters(parts[i]) == |parts[i]|
    decreases |parts|
  {
    if |parts| > 1 {
      CharactersAppend(parts[0] + [DOT], Join(parts[1..]));
      CharactersAppend(parts[0], [DOT]);
      CharactersOfParts(parts[1..]);
    }
  }

  lemma PlainFacts(labels: seq<Text>, position: nat)
    requires Packable(labels) && labels != []
    ensures var r := Chain(labels, Root);
            && Labels(r) == labels && Pointers(r) == 0 && Clean(r, false)
            && EndOf(position, r) == position + |Encoded(labels)|
  {
    ChainFacts(labels, Root, position);
    assert labels + [] == labels;
  }

  // Labels the decoder takes come back, at any offset in any surroundings.
  lemma LabelsRoundTrip(buffer: seq<byte>, position: nat, labels: seq<Text>, frames: nat)
    requires LabelsOk(labels) && labels != [] && Placed(buffer, position, Encoded(labels))
    ensures Decode(buffer, position, frames) == Name(Join(labels), position + |Encoded(labels)|)
  {
    var r := Chain(labels, Root);
    EncodedIsHeld(buffer, position, labels);
    PlainFacts(labels, position);
    CleanDecodes(buffer, position, r, frames);
  }

  // The label written here is what is held here, if it can be held at all.
  lemma LabelIsRead(buffer: seq<byte>, position: nat, item: Text, more: seq<byte>, r: Repr)
    requires |item| < 256 && Placed(buffer, position, Packed(item) + more) && Holds(buffer, position, r)
    ensures Placed(buffer, position + 1 + |item|, more)
    ensures if LabelOk(item)
            then r.Label? && Holds(buffer, position + 1 + |item|, r.rest)
                 && EndOf(position, r) == EndOf(position + 1 + |item|, r.rest)
            else !r.Label? && EndOf(position, r) <= position + 2 && (item == [] ==> EndOf(position, r) == position + 1)
  {
    PlacedParts(buffer, position, Packed(item), more);
    PlacedParts(buffer, position, [|item|], item);
    PlacedByte(buffer, position, |item|);
  }

  lemma EncodedParts(labels: seq<Text>)
    requires Packable(labels) && labels != []
    ensures Packable(labels[1..]) && Encoded(labels) == Packed(labels[0]) + Encoded(labels[1..])
  {
    assert Packed(labels[0]) + (PackedAll(labels[1..]) + [0]) == PackedAll(labels) + [0];
  }

  lemma BadLabelIsLater(labels: seq<Text>)
    requires !LabelsOk(labels) && LabelOk(labels[0])
    ensures !LabelsOk(labels[1..])
  {
    var i :| 0 <= i < |labels| && !LabelOk(labels[i]);
    assert labels[1..][i - 1] == labels[i];
  }

  // A name held where an encoding with an unusable label was written ends before that encoding does.
  lemma {:induction false} BadLabelStopsEarly(buffer: seq<byte>, position: nat, labels: seq<Text>, r: Repr)
    requires Packable(labels) && !LabelsOk(labels)
    requires Placed(buffer, position, Encoded(labels)) && Holds(buffer, position, r)
    ensures EndOf(position, r) < position + |Encoded(labels)|
    decreases |labels|
  {
    var item, rest := labels[0], labels[1..];
    EncodedParts(labels);
    LabelIsRead(buffer, position, item, Encoded(rest), r);
    if LabelOk(item) {
      BadLabelIsLater(labels);
      BadLabelStopsEarly(buffer, position + 1 + |item|, rest, r.rest);
    }
  }

  // The labels that survive being written and read.
  ghost predicate RoundTrips(parts: seq<Text>) {
    forall i :: 0 <= i < |parts| ==> 1 <= |parts[i]| <= 191 && Ascii(parts[i])
  }

  lemma RoundTripsAreOk(parts: seq<Text>)
    requires RoundTrips(parts)
    ensures CutAll(parts) == parts && LabelsOk(parts)
  {
    forall i | 0 <= i < |parts| ensures CutAll(parts)[i] == parts[i] && LabelOk(parts[i]) { AsciiText(parts[i]); }
  }

  lemma UncutIsAscii(name: Str)
    requires LabelsOk(Written(name)) && Join(Written(name)) == name
    ensures RoundTrips(Split(name))
  {
    var parts := Split(name);
    JoinSplit(name);
    CutLengths(parts);
    CharactersOfParts(parts);
    ValidLeads(name);
    SplitParts(name);
    forall i | 0 <= i < |parts| ensures 1 <= |parts[i]| <= 191 && Ascii(parts[i]) {
      assert LabelOk(Cut(parts[i]));
      FullMeansAscii(parts[i]);
    }
  }

  // Written labels that the decoder takes say the name if and only if nothing was cut.
  lemma UncutIff(name: Str)
    requires LabelsOk(Written(name))
    ensures Join(Written(name)) == name <==> RoundTrips(Split(name))
  {
    if RoundTrips(Split(name)) {
      RoundTripsAreOk(Split(name));
      JoinSplit(name);
    }
    if Join(Written(name)) == name { UncutIsAscii(name); }
  }

  lemma EncodedLength(name: Str)
    requires Packable(Written(name))
    ensures Written(name) != [] && |Encoded(Written(name))| == Characters(name) + 2
  {
    JoinSplit(name);
    CutLengths(Split(name));
  }

  lemma WrittenIsRead(buffer: seq<byte>, position: nat, name: Str, labels: seq<Text>, frames: nat)
    requires LabelsOk(labels) && Placed(buffer, position, Encoded(labels)) && labels == Written(name)
    ensures Decode(buffer, position, frames) == Name(Join(labels), position + Characters(name) + 2)
  {
    assert labels != [] && |Encoded(labels)| == Characters(name) + 2 by { EncodedLength(name); }
    LabelsRoundTrip(buffer, position, labels, frames);
  }

  lemma BadLabelsDoNot(buffer: seq<byte>, position: nat, name: Str, frames: nat)
    requires Packable(Written(name)) && !LabelsOk(Written(name)) && Placed(buffer, position, Encoded(Written(name)))
    ensures Decode(buffer, position, frames) != Name(name, position + Characters(name) + 2)
    ensures !RoundTrips(Split(name))
  {
    EncodedLength(name);
    if RoundTrips(Split(name)) { RoundTripsAreOk(Split(name)); }
    if Decode(buffer, position, frames).Name? {
      var r := ScannedIsHeld(buffer, position, [], frames);
      HeldIsScanned(buffer, position, r, [], frames);
      BadLabelStopsEarly(buffer, position, Written(name), r);
    }
  }

  // The round trip of a name, any str: it holds, wherever the name is written, if and only if every label is
  // ASCII and has between 1 and 191 characters.
  lemma NameRoundTripIff(buffer: seq<byte>, position: nat, name: Str, frames: nat)
    requires Encodable(name)
    ensures Encoding(name).Some?
    ensures Placed(buffer, position, Encoding(name).value) ==>
            (Decode(buffer, position, frames) == Name(name, position + Characters(name) + 2)
             <==> RoundTrips(Split(name)))
  {
    EncodableIff(name);
    if !Placed(buffer, position, Encoding(name).value) {
    } else if LabelsOk(Written(name)) {
      WrittenIsRead(buffer, position, name, Written(name), frames);
      UncutIff(name);
    } else {
      BadLabelsDoNot(buffer, position, name, frames);
    }
  }

  // ----- compressed names in a growing message

  lemma {:induction false} HoldsInLongerBuffer(buffer: seq<byte>, more: seq<byte>, position: nat, r: Repr)
    requires Holds(buffer, position, r)
    ensures Holds(buffer + more, position, r)
    decreases r
  {
    match r
    case Root =>
    case Label(text, rest) =>
      var end := position + 1 + |text|;
      assert (buffer + more)[position + 1..end] == buffer[position + 1..end];
      HoldsInLongerBuffer(buffer, more, end, rest);
    case Pointer(target, to) => HoldsInLongerBuffer(buffer, more, target, to);
  }

  function PointerBytes(target: nat): seq<byte>
    requires target < 0x4000
  { [192 + target / 256, target % 256] }

  lemma PointerIsHeld(buffer: seq<byte>, position: nat, target: nat, to: Repr)
    requires target < 0x4000 && Placed(buffer, position, PointerBytes(target)) && Holds(buffer, target, to)
    ensures Holds(buffer, position, Pointer(target, to))
  {
    var high, low := 192 + target / 256, target % 256;
    assert PointerBytes(target) == [high] + [low];
    PlacedParts(buffer, position, [high], [low]);
    PlacedByte(buffer, position, high);
    PlacedByte(buffer, position + 1, low);
    assert PointerOffset(high, low) == target;
  }

  // A compressed name: labels and a pointer.
  function Compressed(labels: seq<Text>, target: nat): seq<byte>
    requires Packable(labels) && target < 0x4000
  { PackedAll(labels) + PointerBytes(target) }

  lemma CompressedFacts(labels: seq<Text>, position: nat, pointer: Repr)
    requires Packable(labels) && pointer.Pointer? && Labels(pointer.to) != [] && Clean(pointer.to, false)
    ensures var r := Chain(labels, pointer);
            && Labels(r) == labels + Labels(pointer.to) && Pointers(r) == 1 + Pointers(pointer.to) && Clean(r, false)
            && EndOf(position, r) == position + |PackedAll(labels)| + 2
  {
    ChainFacts(labels, pointer, position);
  }

  lemma CompressedIsHeld(buffer: seq<byte>, position: nat, labels: seq<Text>, target: nat, to: Repr)
    requires LabelsOk(labels) && target < 0x4000 && Placed(buffer, position, Compressed(labels, target))
    requires Holds(buffer, target, to)
    ensures Holds(buffer, position, Chain(labels, Pointer(target, to)))
  {
    PlacedParts(buffer, position, PackedAll(labels), PointerBytes(target));
    PointerIsHeld(buffer, position + |PackedAll(labels)|, target, to);
    WrittenIsHeld(buffer, position, labels, Pointer(target, to));
  }

  lemma CompressedDecodes(buffer: seq<byte>, position: nat, labels: seq<Text>, target: nat, to: Repr, frames: nat)
    requires LabelsOk(labels) && target < 0x4000 && Placed(buffer, position, Compressed(labels, target))
    requires Holds(buffer, target, to) && Clean(to, false) && Labels(to) != [] && Pointers(to) < frames
    ensures Decode(buffer, position, frames)
            == Name(Join(labels + Labels(to)), position + |Compressed(labels, target)|)
  {
    var r := Chain(labels, Pointer(target, to));
    CompressedIsHeld(buffer, position, labels, target, to);
    CompressedFacts(labels, position, Pointer(target, to));
    CleanDecodes(buffer, position, r, frames);
  }

  // Leading labels and a pointer to any earlier, possibly compressed, encoding of the remaining labels, added
  // to a message, decode to what the whole name written out plainly decodes to; and the index returned is
  // just past the pointer.
  lemma CompressedRefinesPlain(message: seq<byte>, labels: seq<Text>, target: nat, earlier: Repr, whole: seq<Text>,
                               frames: nat)
    requires Holds(message, target, earlier) && target < 0x4000 && Pointers(earlier) < frames
    requires LabelsOk(labels) && Clean(earlier, false) && Labels(earlier) != []
    requires whole == labels + Labels(earlier) && LabelsOk(whole)
    ensures var longer := message + Compressed(labels, target);
            var plain := Decode(Encoded(whole), 0, 0);
            plain.Name? && Decode(longer, |message|, frames) == Name(plain.text, |longer|)
  {
    var longer := message + Compressed(labels, target);
    HoldsInLongerBuffer(message, Compressed(labels, target), target, earlier);
    assert Placed(longer, |message|, Compressed(labels, target));
    CompressedDecodes(longer, |message|, labels, target, earlier, frames);
    assert Placed(Encoded(whole), 0, Encoded(whole));
    LabelsRoundTrip(Encoded(whole), 0, whole, 0);
  }

  // ----- termination

  // Where the pointer that ends the labels at `position` leads, if one does.
  function NextSegment(buffer: seq<byte>, position: nat): Option<nat>
    decreases if position < |buffer| then |buffer| - position else 0
  {
    if |buffer| <= position || buffer[position] == 0 then None
    else if IsPointer(buffer[position]) then
      if |buffer| <= position + 1 then None else Some(PointerOffset(buffer[position], buffer[position + 1]))
    else if |buffer| < position + 1 + buffer[position] then None
    else if !ValidUtf8(buffer[position + 1..position + 1 + buffer[position]]) then None
    else NextSegment(buffer, position + 1 + buffer[position])
  }

  // The segment reached over k pointers.
  function Follow(buffer: seq<byte>, start: nat, k: nat): Option<nat>
    decreases k
  {
    if k == 0 then Some(start)
    else
      var next := NextSegment(buffer, start);
      if next.None? then None else Follow(buffer, next.value, k - 1)
  }

  lemma {:induction false} ScanFollows(buffer: seq<byte>, position: nat, text: Text, frames: nat)
    ensures Scan(buffer, position, text, frames).RecursionError? <==> Follow(buffer, position, frames + 1).Some?
    decreases frames, if position < |buffer| then |buffer| - position else 0
  {
    if position < |buffer| && buffer[position] != 0 {
      var length := buffer[position];
      if IsPointer(length) {
        if position + 1 < |buffer| {
          var target := PointerOffset(length, buffer[position + 1]);
          assert Follow(buffer, position, frames + 1) == Follow(buffer, target, frames);
          if frames != 0 { ScanFollows(buffer, target, [], frames - 1); }
        }
      } else if position + 1 + length <= |buffer| {
        var end := position + 1 + length;
        var item := buffer[position + 1..end];
        if ValidUtf8(item) {
          ScanFollows(buffer, end, text + item + [DOT], frames);
          assert Follow(buffer, position, frames + 1) == Follow(buffer, end, frames + 1);
        }
      }
    }
  }

  // Decoding runs out of frames exactly when there are more pointers to follow than frames.
  lemma RecursionExact(buffer: seq<byte>, start: nat, frames: nat)
    ensures Decode(buffer, start, frames).RecursionError? <==> Follow(buffer, start, frames + 1).Some?
  {
    ScanFollows(buffer, start, [], frames);
  }

  // These labels lie in the buffer from `position` to `end`.
  ghost predicate Reads(buffer: seq<byte>, position: nat, labels: seq<Text>, end: nat)
    decreases |labels|
  {
    if labels == [] then end == position
    else
      var after := position + 1 + |labels[0]|;
      && LabelOk(labels[0]) && after <= |buffer|
      && buffer[position] == |labels[0]| && buffer[position + 1..after] == labels[0]
      && Reads(buffer, after, labels[1..], end)
  }

  // Decoding gets to `end`, over k pointers and the labels after the last one.
  ghost predicate GetsTo(buffer: seq<byte>, start: nat, k: nat, labels: seq<Text>, end: nat) {
    Follow(buffer, start, k).Some? && Reads(buffer, Follow(buffer, start, k).value, labels, end)
  }

  ghost predicate Reached(buffer: seq<byte>, start: nat, frames: nat, end: nat) {
    exists k: nat, labels :: k <= frames && GetsTo(buffer, start, k, labels, end)
  }

  // There the buffer ends too early: no length, half a pointer, or not enough bytes for a label.
  predicate RunsOut(buffer: seq<byte>, end: nat) {
    || |buffer| <= end
    || (192 <= buffer[end] && |buffer| <= end + 1)
    || (1 <= buffer[end] < 192 && |buffer| < end + 1 + buffer[end])
  }

  // There is a label that is not text.
  predicate NotText(buffer: seq<byte>, end: nat) {
    end < |buffer| && 1 <= buffer[end] < 192 && end + 1 + buffer[end] <= |buffer|
    && !ValidUtf8(buffer[end + 1..end + 1 + buffer[end]])
  }

  predicate Failed(d: Decoded) { d.StructError? || d.DecodeError? }

  // A label that can be read changes neither where the pointers lead nor how decoding ends.
  lemma LabelPassed(buffer: seq<byte>, position: nat, text: Text, frames: nat, k: nat) returns (item: Text, after: nat)
    requires position < |buffer| && 1 <= buffer[position] < 192
    requires !RunsOut(buffer, position) && !NotText(buffer, position)
    ensures after == position + 1 + buffer[position] <= |buffer| && item == buffer[position + 1..after] && LabelOk(item)
    ensures Scan(buffer, position, text, frames) == Scan(buffer, after, text + item + [DOT], frames)
    ensures 0 < k ==> Follow(buffer, position, k) == Follow(buffer, after, k)
  {
    after := position + 1 + buffer[position];
    item := buffer[position + 1..after];
    assert NextSegment(buffer, position) == NextSegment(buffer, after);
  }

  lemma ByLabel(buffer: seq<byte>, position: nat, k: nat, labels: seq<Text>, end: nat) returns (labels': seq<Text>)
    requires position < |buffer| && 1 <= buffer[position] < 192
    requires !RunsOut(buffer, position) && !NotText(buffer, position)
    requires GetsTo(buffer, position + 1 + buffer[position], k, labels, end)
    ensures GetsTo(buffer, position, k, labels', end)
  {
    var item, after := LabelPassed(buffer, position, [], 0, k);
    labels' := labels;
    if k == 0 {
      labels' := [item] + labels;
      assert labels'[1..] == labels;
    }
  }

  lemma ByPointer(buffer: seq<byte>, position: nat, k: nat, labels: seq<Text>, end: nat)
    requires position + 1 < |buffer| && IsPointer(buffer[position])
    requires GetsTo(buffer, PointerOffset(buffer[position], buffer[position + 1]), k, labels, end)
    ensures GetsTo(buffer, position, k + 1, labels, end)
  {
  }

  lemma {:induction false} FailureIsReached(buffer: seq<byte>, position: nat, text: Text, frames: nat)
    returns (k: nat, labels: seq<Text>, end: nat)
    requires Failed(Scan(buffer, position, text, frames))
    ensures k <= frames && GetsTo(buffer, position, k, labels, end)
    ensures if Scan(buffer, position, text, frames).StructError? then RunsOut(buffer, end) else NotText(buffer, end)
    decreases frames, |buffer| - position
  {
    if RunsOut(buffer, position) || NotText(buffer, position) {
      k, labels, end := 0, [], position;
      assert GetsTo(buffer, position, 0, [], position);
    } else if IsPointer(buffer[position]) {
      var target := PointerOffset(buffer[position], buffer[position + 1]);
      k, labels, end := FailureIsReached(buffer, target, [], frames - 1);
      ByPointer(buffer, position, k, labels, end);
      k := k + 1;
    } else {
      var item, after := LabelPassed(buffer, position, text, frames, 0);
      k, labels, end := FailureIsReached(buffer, after, text + item + [DOT], frames);
      labels := ByLabel(buffer, position, k, labels, end);
    }
  }

  lemma {:induction false} ReachedFails(buffer: seq<byte>, position: nat, text: Text, frames: nat, k: nat,
                                        labels: seq<Text>, end: nat)
    requires k <= frames && GetsTo(buffer, position, k, labels, end)
    requires RunsOut(buffer, end) || NotText(buffer, end)
    ensures RunsOut(buffer, end) ==> Scan(buffer, position, text, frames).StructError?
    ensures NotText(buffer, end) ==> Scan(buffer, position, text, frames).DecodeError?
    decreases frames, if position < |buffer| then |buffer| - position else 0
  {
    if k == 0 && labels == [] {
    } else if k == 0 {
      var item, after := LabelPassed(buffer, position, text, frames, 0);
      assert item == labels[0];
      ReachedFails(buffer, after, text + item + [DOT], frames, 0, labels[1..], end);
    } else {
      assert NextSegment(buffer, position).Some?;
      if IsPointer(buffer[position]) {
        var target := PointerOffset(buffer[position], buffer[position + 1]);
        ReachedFails(buffer, target, [], frames - 1, k - 1, labels, end);
      } else {
        var item, after := LabelPassed(buffer, position, text, frames, k);
        ReachedFails(buffer, after, text + item + [DOT], frames, k, labels, end);
      }
    }
  }

  // The two errors in the data: decoding gets to a place where the buffer runs out, or where a label is not
  // UTF-8.
  lemma ErrorsExact(buffer: seq<byte>, start: nat, frames: nat)
    ensures Decode(buffer, start, frames).StructError? <==>
            exists end :: Reached(buffer, start, frames, end) && RunsOut(buffer, end)
    ensures Decode(buffer, start, frames).DecodeError? <==>
            exists end :: Reached(buffer, start, frames, end) && NotText(buffer, end)
  {
    if Failed(Decode(buffer, start, frames)) {
      var k, labels, end := FailureIsReached(buffer, start, [], frames);
      assert Reached(buffer, start, frames, end);
    }
    forall end | Reached(buffer, start, frames, end) && (RunsOut(buffer, end) || NotText(buffer, end))
      ensures RunsOut(buffer, end) ==> Decode(buffer, start, frames).StructError?
      ensures NotText(buffer, end) ==> Decode(buffer, start, frames).DecodeError?
    {
      var k: nat, labels :| k <= frames && GetsTo(buffer, start, k, labels, end);
      ReachedFails(buffer, start, [], frames, k, labels, end);
    }
  }

  // Every pointer reached leads strictly below the start of the segment that holds it.
  predicate Backward(buffer: seq<byte>, start: nat)
    decreases start
  {
    var next := NextSegment(buffer, start);
    next.Some? ==> next.value < start && Backward(buffer, next.value)
  }

  lemma {:induction false} BackwardEnds(buffer: seq<byte>, start: nat, k: nat)
    requires Backward(buffer, start) && start < k
    ensures Follow(buffer, start, k).None?
    decreases start
  {
    var next := NextSegment(buffer, start);
    if next.Some? { BackwardEnds(buffer, next.value, k - 1); }
  }

  // Such a buffer is decoded, to a name or to an error in the data, with `start` frames.
  lemma BackwardTerminates(buffer: seq<byte>, start: nat, frames: nat)
    requires Backward(buffer, start) && start <= frames
    ensures !Decode(buffer, start, frames).RecursionError?
  {
    BackwardEnds(buffer, start, frames + 1);
    RecursionExact(buffer, start, frames);
  }

  lemma {:induction false} FollowsItself(buffer: seq<byte>, start: nat, k: nat)
    requires NextSegment(buffer, start) == Some(start)
    ensures Follow(buffer, start, k) == Some(start)
    decreases k
  {
    if k != 0 { FollowsItself(buffer, start, k - 1); }
  }

  // A pointer that merely leads below itself is not enough: no stack is deep enough for a label followed by a
  // pointer to it.
  lemma PointerBelowItselfLoops(item: Text, frames: nat)
    requires LabelOk(item)
    ensures var buffer := Packed(item) + PointerBytes(0);
            NextSegment(buffer, 0) == Some(0) && Decode(buffer, 0, frames).RecursionError?
  {
    var buffer := Packed(item) + PointerBytes(0);
    assert buffer[1..1 + |item|] == item;
    assert NextSegment(buffer, 1 + |item|) == Some(0);
    FollowsItself(buffer, 0, frames + 1);
    RecursionExact(buffer, 0, frames);
  }

  // ----- construct_query

  type Uint16 = x: int | 0 <= x < 0x1_0000

  // struct.pack("!H", x)
  function Pack16(x: Uint16): seq<byte> { [x / 256, x % 256] }

  function QueryHeader(id: Uint16): seq<byte> {
    Pack16(id) + Pack16(0) + Pack16(1) + Pack16(0) + Pack16(0) + Pack16(0)
  }

  // A field of a message, most significant byte first.
  function Field(message: seq<byte>, at: nat): nat
    requires at + 1 < |message|
  { (message[at] as int) * 256 + message[at + 1] }

  // construct_query: one question, nothing else, class IN.
  ghost predicate IsQuery(query: seq<byte>, id: Uint16, qname: seq<byte>, queryType: Uint16) {
    && |query| == 12 + |qname| + 4
    && Field(query, 0) == id && Field(query, 2) == 0 && Field(query, 4) == 1
    && Field(query, 6) == 0 && Field(query, 8) == 0 && Field(query, 10) == 0
    && query[12..12 + |qname|] == qname
    && Field(query, |query| - 4) == queryType && Field(query, |query| - 2) == 1
  }

  function Query(id: Uint16, qname: seq<byte>, queryType: Uint16): seq<byte> {
    QueryHeader(id) + qname + (Pack16(queryType) + Pack16(1))
  }

  lemma QueryBytes(id: Uint16, qname: seq<byte>, queryType: Uint16)
    ensures IsQuery(Query(id, qname, queryType), id, qname, queryType)
  {
    var query := Query(id, qname, queryType);
    assert query[12 + |qname|] == queryType / 256 && query[12 + |qname| + 1] == queryType % 256;
  }

  method ConstructQuery(id: Uint16, hostname: Str, queryType: Uint16) returns (query: Option<seq<byte>>)
    ensures query.Some? <==> Encodable(hostname)
    ensures query.Some? ==>
      Encoding(hostname).Some? && IsQuery(query.value, id, Encoding(hostname).value, queryType)
  {
    var header := QueryHeader(id);
    var qname := GetDnsNameEncoding(hostname);
    if qname.None? { return None; }
    var remainder := Pack16(queryType) + Pack16(1);
    QueryBytes(id, qname.value, queryType);
    return Some(header + qname.value + remainder);
  }

  // The question of a query is at offset 12 and ends four bytes before its end, if and only if every label of
  // the hostname is ASCII and has between 1 and 191 characters.
  lemma QueryRoundTripIff(query: seq<byte>, id: Uint16, hostname: Str, queryType: Uint16, frames: nat)
    requires Encodable(hostname)
    ensures Encoding(hostname).Some?
    ensures IsQuery(query, id, Encoding(hostname).value, queryType) ==>
            (Decode(query, 12, frames) == Name(hostname, |query| - 4) <==> RoundTrips(Split(hostname)))
  {
    EncodableIff(hostname);
    EncodedLength(hostname);
    NameRoundTripIff(query, 12, hostname, frames);
  }
}
