// UTF-8, section 4 of RFC 3629: what bytes.decode() takes, and how many characters it is.

module Utf8 {
  import opened Prelude

  type Text = seq<byte>

  predicate Ascii(t: Text) { forall i :: 0 <= i < |t| ==> t[i] < 128 }

  predicate Continuation(b: byte) { 0x80 <= b < 0xC0 }

  predicate Continues(t: Text, k: nat) { k < |t| && Continuation(t[k]) }

  // The bytes of the character that t starts with, or 0 if it starts with none.
  function CharLength(t: Text): (n: nat)
    requires t != []
    ensures n <= |t|
  {
    var b := t[0];
    if b < 0x80 then 1
    else if 0xC2 <= b < 0xE0 && Continues(t, 1) then 2
    else if 0xE0 <= b < 0xF0 && Continues(t, 1) && Continues(t, 2)
            && (b == 0xE0 ==> 0xA0 <= t[1]) && (b == 0xED ==> t[1] < 0xA0) then 3
    else if 0xF0 <= b < 0xF5 && Continues(t, 1) && Continues(t, 2) && Continues(t, 3)
            && (b == 0xF0 ==> 0x90 <= t[1]) && (b == 0xF4 ==> t[1] < 0x90) then 4
    else 0
  }

  // What bytes.decode() takes.
  predicate ValidUtf8(t: Text)
    decreases |t|
  { t == [] || (CharLength(t) != 0 && ValidUtf8(t[CharLength(t)..])) }

  type Str = t: Text | ValidUtf8(t)

  // len() of a str
  function Characters(t: Text): (n: nat)
    ensures n <= |t|
    decreases |t|
  { if t == [] then 0 else (if Continuation(t[0]) then 0 else 1) + Characters(t[1..]) }

  lemma {:induction false} CharactersAppend(t: Text, u: Text)
    ensures Characters(t + u) == Characters(t) + Characters(u)
    decreases |t|
  {
    if t == [] {
      assert t + u == u;
    } else {
      assert (t + u)[1..] == t[1..] + u;
      CharactersAppend(t[1..], u);
    }
  }

  lemma {:induction false} AsciiText(t: Text)
    requires Ascii(t)
    ensures ValidUtf8(t) && Characters(t) == |t|
    decreases |t|
  {
    if t != [] { AsciiText(t[1..]); }
  }

  // A Unicode scalar value and its bytes.
  type Scalar = c: int | 0 <= c < 0x11_0000 && !(0xD800 <= c < 0xE000)

  function EncodeChar(c: Scalar): (bytes: seq<byte>)
    ensures bytes != []
  {
    if c < 0x80 then [c]
    else if c < 0x800 then [0xC0 + c / 64, 0x80 + c % 64]
    else if c < 0x1_0000 then [0xE0 + c / 4096, 0x80 + c / 64 % 64, 0x80 + c % 64]
    else [0xF0 + c / 262144, 0x80 + c / 4096 % 64, 0x80 + c / 64 % 64, 0x80 + c % 64]
  }

  function EncodeText(cs: seq<Scalar>): Text
    decreases |cs|
  { if cs == [] then [] else EncodeChar(cs[0]) + EncodeText(cs[1..]) }

  lemma CharIsRead(c: Scalar, more: Text)
    ensures CharLength(EncodeChar(c) + more) == |EncodeChar(c)|
  {
    var t := EncodeChar(c) + more;
    assert forall i :: 0 <= i < |EncodeChar(c)| ==> t[i] == EncodeChar(c)[i];
  }

  lemma ThreeBytes(x: int, y: int, z: int) returns (c: int)
    requires 0 <= x < 16 && 0 <= y < 64 && 0 <= z < 64
    ensures c == x * 4096 + y * 64 + z && c / 4096 == x && c / 64 % 64 == y && c % 64 == z
  {
    c := x * 4096 + y * 64 + z;
    assert c / 64 == x * 64 + y;
  }

  lemma FourBytes(w: int, x: int, y: int, z: int) returns (c: int)
    requires 0 <= w < 8 && 0 <= x < 64 && 0 <= y < 64 && 0 <= z < 64
    ensures c == w * 262144 + x * 4096 + y * 64 + z
    ensures c / 262144 == w && c / 4096 % 64 == x && c / 64 % 64 == y && c % 64 == z
  {
    c := w * 262144 + x * 4096 + y * 64 + z;
    assert c / 64 == w * 4096 + x * 64 + y;
    assert c / 4096 == w * 64 + x;
  }

  lemma ReadIsChar(t: Text) returns (c: Scalar)
    requires t != [] && CharLength(t) != 0
    ensures t[..CharLength(t)] == EncodeChar(c)
  {
    var b: int, n := t[0], CharLength(t);
    if n == 1 {
      c := b;
    } else if n == 2 {
      var low: int := t[1];
      c := (b - 0xC0) * 64 + (low - 0x80);
    } else if n == 3 {
      var v := ThreeBytes(b - 0xE0, t[1] - 0x80, t[2] - 0x80);
      c := v;
    } else {
      var v := FourBytes(b - 0xF0, t[1] - 0x80, t[2] - 0x80, t[3] - 0x80);
      c := v;
    }
  }

  // Exactly the encodings of sequences of code points are valid, and they have as many characters.
  lemma {:induction false} TextIsValid(cs: seq<Scalar>)
    ensures ValidUtf8(EncodeText(cs)) && Characters(EncodeText(cs)) == |cs|
    decreases |cs|
  {
    if cs != [] {
      var first, rest := EncodeChar(cs[0]), EncodeText(cs[1..]);
      TextIsValid(cs[1..]);
      CharIsRead(cs[0], rest);
      assert (first + rest)[|first|..] == rest;
      CharactersAppend(first, rest);
      OneCharacter(cs[0]);
    }
  }

  lemma OneCharacter(c: Scalar)
    ensures Characters(EncodeChar(c)) == 1
  {
    var t := EncodeChar(c);
    assert Characters(t) == 1 + Characters(t[1..]);
    if |t| > 1 { assert Characters(t[1..]) == Characters(t[1..][1..]); }
    if |t| > 2 { assert Characters(t[1..][1..]) == Characters(t[1..][1..][1..]); }
  }

  lemma {:induction false} ValidIsText(t: Text) returns (cs: seq<Scalar>)
    requires ValidUtf8(t)
    ensures t == EncodeText(cs)
    decreases |t|
  {
    cs := [];
    if t != [] {
      var n := CharLength(t);
      var c := ReadIsChar(t);
      var rest := ValidIsText(t[n..]);
      cs := [c] + rest;
      assert cs[1..] == rest && t == t[..n] + t[n..];
    }
  }

  lemma ValidUtf8Iff(t: Text)
    ensures ValidUtf8(t) <==> exists cs :: t == EncodeText(cs)
  {
    if ValidUtf8(t) { var cs := ValidIsText(t); }
    forall cs | t == EncodeText(cs) ensures ValidUtf8(t) { TextIsValid(cs); }
  }

  // Every byte that starts a longer character is followed by another byte of it.
  predicate LeadsFollowed(t: Text) {
    forall i :: 0 <= i < |t| && 0xC0 <= t[i] ==> i + 1 < |t| && Continuation(t[i + 1])
  }

  lemma {:induction false} ValidLeads(t: Text)
    requires ValidUtf8(t)
    ensures LeadsFollowed(t)
    decreases |t|
  {
    if t != [] {
      var n := CharLength(t);
      var rest := t[n..];
      ValidLeads(rest);
      forall i | 0 <= i < |t| && 0xC0 <= t[i] ensures i + 1 < |t| && Continuation(t[i + 1]) {
        if n <= i { assert rest[i - n] == t[i]; }
      }
    }
  }

  // As many characters as bytes: then every character is one byte.
  lemma {:induction false} OneByteEach(t: Text)
    requires Characters(t) == |t|
    ensures forall i :: 0 <= i < |t| ==> !Continuation(t[i])
    decreases |t|
  {
    if t != [] { OneByteEach(t[1..]); }
  }

  lemma FullMeansAscii(t: Text)
    requires LeadsFollowed(t)
    ensures Characters(t) == |t| <==> Ascii(t)
  {
    if Characters(t) == |t| { OneByteEach(t); }
    if Ascii(t) { AsciiText(t); }
  }
}
