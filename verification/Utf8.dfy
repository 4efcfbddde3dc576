/**
 UTF-8 with replacement of ill-formed input, as `CStr::to_string_lossy` and
 `String::from_utf8_lossy` perform it. `Lossy` walks the bytes; the independent reference is
 `Encode`, the bit distribution of section 3 of RFC 3629.
 */
module Utf8 {
  import opened Base

  /** Unicode scalar values: code points without the surrogates. */
  type Scalar = c: int | 0 <= c < 0xD800 || 0xE000 <= c < 0x11_0000

  const REPLACEMENT_CHARACTER: Scalar := 0xFFFD

  // ---------------------------------------------------------------- reference: encoding

  function Encode(c: Scalar): (s: seq<byte>)
    ensures 1 <= |s| <= 4
  {
    if c < 0x80 then [c]
    else if c < 0x800 then [0xC0 + c / 64, 0x80 + c % 64]
    else if c < 0x1_0000 then [0xE0 + c / 64 / 64, 0x80 + c / 64 % 64, 0x80 + c % 64]
    else [0xF0 + c / 64 / 64 / 64, 0x80 + c / 64 / 64 % 64, 0x80 + c / 64 % 64, 0x80 + c % 64]
  }

  function EncodeAll(cs: seq<Scalar>): seq<byte> {
    if cs == [] then [] else Encode(cs[0]) + EncodeAll(cs[1..])
  }

  ghost predicate Valid(s: seq<byte>) {
    exists cs :: s == EncodeAll(cs)
  }

  // ---------------------------------------------------------------- the decoder

  predicate Continuation(b: byte) {
    0x80 <= b < 0xC0
  }

  /** Length announced by a first byte; 0 when no sequence starts with it. */
  function Width(b: byte): nat {
    if b < 0x80 then 1
    else if 0xC2 <= b <= 0xDF then 2
    else if 0xE0 <= b <= 0xEF then 3
    else if 0xF0 <= b <= 0xF4 then 4
    else 0
  }

  /** The second bytes allowed after each first byte (section 4 of RFC 3629). */
  predicate SecondAllowed(first: byte, second: byte) {
    match Width(first)
    case 2 => Continuation(second)
    case 3 =>
      if first == 0xE0 then 0xA0 <= second < 0xC0
      else if first == 0xED then 0x80 <= second < 0xA0
      else Continuation(second)
    case 4 =>
      if first == 0xF0 then 0x90 <= second < 0xC0
      else if first == 0xF4 then 0x80 <= second < 0x90
      else Continuation(second)
    case _ => false
  }

  /** How many bytes the decoder consumes before it completes a character or meets a byte that
      cannot follow. */
  function Accepted(s: seq<byte>): (k: nat)
    requires s != []
    ensures 1 <= k <= |s| && k <= 4
  {
    if Width(s[0]) < 2 || |s| < 2 || !SecondAllowed(s[0], s[1]) then 1
    else if Width(s[0]) == 2 || |s| < 3 || !Continuation(s[2]) then 2
    else if Width(s[0]) == 3 || |s| < 4 || !Continuation(s[3]) then 3
    else 4
  }

  predicate StartsWithCharacter(s: seq<byte>)
    requires s != []
  {
    Accepted(s) == Width(s[0])
  }

  /** What the accepted bytes become: a character stays, anything else is replaced. */
  function Repair(s: seq<byte>): seq<byte>
    requires s != []
  {
    if StartsWithCharacter(s) then s[..Accepted(s)] else Encode(REPLACEMENT_CHARACTER)
  }

  function Lossy(s: seq<byte>): seq<byte> {
    if s == [] then [] else Repair(s) + Lossy(s[Accepted(s)..])
  }

  /** Appends the six bits of a continuation byte. */
  function Push(bits: nat, b: byte): (r: nat)
    requires Continuation(b)
    ensures r / 64 == bits && 0x80 + r % 64 == b
  {
    bits * 64 + (b as int - 0x80)
  }

  /** The scalar value of the character at the front. */
  function DecodeFirst(s: seq<byte>): (c: Scalar)
    requires s != [] && StartsWithCharacter(s)
    ensures Encode(c) == s[..Accepted(s)]
  {
    match Width(s[0])
    case 1 => s[0]
    case 2 => Push(s[0] as int - 0xC0, s[1])
    case 3 => Push(Push(s[0] as int - 0xE0, s[1]), s[2])
    case _ => Push(Push(Push(s[0] as int - 0xF0, s[1]), s[2]), s[3])
  }

  // ---------------------------------------------------------------- theorems

  /** Reading an encoded character consumes exactly its bytes. */
  lemma EncodedIsAccepted(c: Scalar, rest: seq<byte>)
    ensures StartsWithCharacter(Encode(c) + rest) && Accepted(Encode(c) + rest) == |Encode(c)|
  {
  }

  /** The output of the decoder is always valid UTF-8: `cs` are the characters it emits. */
  lemma {:induction false} LossyIsValid(s: seq<byte>) returns (cs: seq<Scalar>)
    ensures Lossy(s) == EncodeAll(cs)
    ensures Valid(Lossy(s))
  {
    if s == [] {
      cs := [];
    } else {
      var rest := LossyIsValid(s[Accepted(s)..]);
      var c := if StartsWithCharacter(s) then DecodeFirst(s) else REPLACEMENT_CHARACTER;
      cs := [c] + rest;
      assert cs[1..] == rest;
    }
  }

  lemma {:induction false} LossyKeepsEncoded(cs: seq<Scalar>)
    ensures Lossy(EncodeAll(cs)) == EncodeAll(cs)
  {
    if cs != [] {
      var rest := EncodeAll(cs[1..]);
      EncodedIsAccepted(cs[0], rest);
      LossyKeepsEncoded(cs[1..]);
      assert (Encode(cs[0]) + rest)[|Encode(cs[0])|..] == rest;
      assert (Encode(cs[0]) + rest)[..|Encode(cs[0])|] == Encode(cs[0]);
    }
  }

  /** The decoder leaves its input alone exactly when the input is valid. */
  lemma {:induction false} LossyIdentityIffValid(s: seq<byte>)
    ensures Lossy(s) == s <==> Valid(s)
  {
    if Valid(s) {
      var cs :| s == EncodeAll(cs);
      LossyKeepsEncoded(cs);
    }
    var _ := LossyIsValid(s);
  }

  lemma {:induction false} LossyIdempotent(s: seq<byte>)
    ensures Lossy(Lossy(s)) == Lossy(s)
  {
    var _ := LossyIsValid(s);
    LossyIdentityIffValid(Lossy(s));
  }

  /** An ASCII byte `b` separates: nothing before it can swallow it, so decoding works on the two
      sides independently. */
  lemma {:induction false} LossySplitsAtAscii(s: seq<byte>, b: byte, t: seq<byte>)
    requires b < 0x80
    ensures Lossy(s + [b] + t) == Lossy(s) + [b] + Lossy(t)
  {
    var whole := s + [b] + t;
    if s == [] {
      assert whole == [b] + t;
      assert whole[1..] == t;
    } else {
      var k := Accepted(s);
      AcceptedStopsAtAscii(s, b, t);
      assert whole[k..] == s[k..] + [b] + t;
      LossySplitsAtAscii(s[k..], b, t);
      AppendTwice(Repair(s), Lossy(s[k..]), [b], Lossy(t));
    }
  }

  lemma AcceptedStopsAtAscii(s: seq<byte>, b: byte, t: seq<byte>)
    requires s != [] && b < 0x80
    ensures Accepted(s + [b] + t) == Accepted(s) && Repair(s + [b] + t) == Repair(s)
  {
    var whole := s + [b] + t;
    assert forall i | 0 <= i < |s| :: whole[i] == s[i];
    assert whole[|s|] == b;
    assert Accepted(whole) == Accepted(s);
    assert whole[..Accepted(s)] == s[..Accepted(s)];
  }

  lemma AppendTwice(p: seq<byte>, q: seq<byte>, r: seq<byte>, t: seq<byte>)
    ensures p + (q + r + t) == (p + q) + r + t
  {
  }

  /** Decoding neither introduces nor removes a NUL. */
  lemma {:induction false} LossyKeepsNul(s: seq<byte>)
    ensures 0 in Lossy(s) <==> 0 in s
  {
    if s != [] {
      LossyKeepsNul(s[Accepted(s)..]);
      RepairKeepsNul(s);
      InConcat(s[..Accepted(s)], s[Accepted(s)..]);
      InConcat(Repair(s), Lossy(s[Accepted(s)..]));
      assert s == s[..Accepted(s)] + s[Accepted(s)..];
    }
  }

  lemma InConcat(a: seq<byte>, b: seq<byte>)
    ensures 0 in a + b <==> 0 in a || 0 in b
  {
  }

  lemma RepairKeepsNul(s: seq<byte>)
    requires s != []
    ensures 0 in Repair(s) <==> 0 in s[..Accepted(s)]
  {
    var k := Accepted(s);
    assert forall i | 0 < i < k :: s[i] != 0;
    if s[0] == 0 {
      assert s[..k][0] == 0;
    }
  }

  /** `p` is a proper initial part of the encoding of some character. */
  ghost predicate StartsSomeCharacter(p: seq<byte>) {
    exists c: Scalar :: p < Encode(c)
  }

  /** Each replacement stands for a maximal subpart (section 3.9 of the Unicode Standard): the
      longest run that starts some character, or else a single byte. */
  lemma ReplacesMaximalSubpart(s: seq<byte>)
    requires s != [] && !StartsWithCharacter(s)
    ensures Accepted(s) == 1 || StartsSomeCharacter(s[..Accepted(s)])
    ensures forall j | Accepted(s) < j <= |s| :: !StartsSomeCharacter(s[..j])
  {
    var k := Accepted(s);
    if k > 1 {
      var filled := s[..k] + [0x80, 0x80];
      var c := DecodeFirst(filled);
      assert s[..k] < Encode(c);
    }
    forall j, c: Scalar | 0 < j <= |s| && s[..j] < Encode(c) ensures j <= k {
      StartIsAccepted(s, j, c);
    }
  }

  /** A start of a character is accepted in full. */
  lemma StartIsAccepted(s: seq<byte>, j: nat, c: Scalar)
    requires 0 < j <= |s| && s[..j] <= Encode(c)
    ensures j <= Accepted(s)
  {
    assert forall i | 0 <= i < j :: s[i] == s[..j][i] == Encode(c)[i];
    EncodedIsAccepted(c, []);
  }

  // The two ways in which a text can begin, told by the encoder alone, determine the decoder.

  /** A character at the front is kept. */
  lemma LossyKeepsCharacter(c: Scalar, t: seq<byte>)
    ensures Lossy(Encode(c) + t) == Encode(c) + Lossy(t)
  {
    var e := Encode(c);
    EncodedIsAccepted(c, t);
    assert (e + t)[..|e|] == e && (e + t)[|e|..] == t;
  }

  lemma StartIsEncoded(s: seq<byte>)
    requires s != [] && StartsWithCharacter(s)
    ensures exists c: Scalar :: Encode(c) <= s
  {
    assert Encode(DecodeFirst(s)) <= s;
  }

  /** When no character is encoded at the front, the longest start of one there, or else the first byte,
      becomes one U+FFFD. */
  lemma LossyReplacesStart(p: seq<byte>, t: seq<byte>)
    requires p != []
    requires forall c: Scalar :: !(Encode(c) <= p + t)
    requires |p| == 1 || exists c: Scalar :: p < Encode(c)
    requires forall j, c: Scalar | |p| < j <= |p + t| :: !((p + t)[..j] < Encode(c))
    ensures Lossy(p + t) == [0xEF, 0xBF, 0xBD] + Lossy(t)
  {
    var s := p + t;
    if StartsWithCharacter(s) {
      StartIsEncoded(s);
    }
    ReplacesMaximalSubpart(s);
    assert s[..|p|] == p && s[|p|..] == t;
    assert Accepted(s) == |p|;
    assert Encode(REPLACEMENT_CHARACTER) == [0xEF, 0xBF, 0xBD];
  }

  /** Decoding inverts encoding, so no two characters share an encoding. */
  lemma DecodeInvertsEncode(c: Scalar, rest: seq<byte>)
    requires StartsWithCharacter(Encode(c) + rest)
    ensures DecodeFirst(Encode(c) + rest) == c
  {
    var s := Encode(c) + rest;
    assert forall i | 0 <= i < |Encode(c)| :: s[i] == Encode(c)[i];
    EncodedIsAccepted(c, rest);
  }
}
