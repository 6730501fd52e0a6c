/** The UTF-16 to modified UTF-8 conversion of libshims/strdup16to8.cpp. `sizeMax` is SIZE_MAX, whatever
    the width of size_t. */
module Utf16to8 {
  import opened Sequences
  import opened Wrappers

  type Unit = bv16
  type Byte = bv8

  // ----- The encoding --------------------------------------------------------------------------

  function UnitLen(u: Unit): nat {
    if u > 0x07ff then 3 else if u > 0x7f || u == 0 then 2 else 1
  }

  function EncodedLen(s: seq<Unit>): nat {
    if s == [] then 0 else UnitLen(s[0]) + EncodedLen(s[1..])
  }

  /** The lead byte of two, the lead byte of three, and the continuation byte for the bits from `n` on. */
  function Lead2(u: Unit): Byte
    requires u <= 0x07ff
  {
    ((u >> 6) | 0xc0) as Byte
  }

  function Lead3(u: Unit): Byte {
    ((u >> 12) | 0xe0) as Byte
  }

  function High(u: Unit): Byte {
    (((u >> 6) & 0x3f) | 0x80) as Byte
  }

  function Low(u: Unit): Byte {
    ((u & 0x3f) | 0x80) as Byte
  }

  function EncodeUnit(u: Unit): (b: seq<Byte>)
    ensures |b| == UnitLen(u)
  {
    if u > 0x07ff then [Lead3(u), High(u), Low(u)]
    else if u > 0x7f || u == 0 then [Lead2(u), Low(u)]
    else [u as Byte]
  }

  function Encode(s: seq<Unit>): (b: seq<Byte>)
    ensures |b| == EncodedLen(s)
  {
    if s == [] then [] else EncodeUnit(s[0]) + Encode(s[1..])
  }

  // ----- Section 4.4.7 of the Java Virtual Machine Specification -------------------------------

  predicate Continues(b: Byte) {
    b & 0xc0 == 0x80
  }

  /** The unit encoded at the start of `b`, and the number of bytes it takes. */
  function DecodeUnit(b: seq<Byte>): (r: Option<(Unit, nat)>)
    ensures r.Some? ==> 1 <= r.value.1 <= |b|
  {
    if |b| >= 1 && b[0] != 0 && b[0] & 0x80 == 0 then Some((b[0] as Unit, 1))
    else if |b| >= 2 && b[0] & 0xe0 == 0xc0 && Continues(b[1]) then
      Some((((b[0] & 0x1f) as Unit << 6) | (b[1] & 0x3f) as Unit, 2))
    else if |b| >= 3 && b[0] & 0xf0 == 0xe0 && Continues(b[1]) && Continues(b[2]) then
      Some((((b[0] & 0x0f) as Unit << 12) | ((b[1] & 0x3f) as Unit << 6) | (b[2] & 0x3f) as Unit, 3))
    else None
  }

  function Decode(b: seq<Byte>): Option<seq<Unit>>
    decreases |b|
  {
    if b == [] then Some([])
    else
      match DecodeUnit(b)
      case None => None
      case Some(r) =>
        match Decode(b[r.1..])
        case None => None
        case Some(rest) => Some([r.0] + rest)
  }

  lemma OneByte(u: Unit)
    requires 0 < u <= 0x7f
    ensures
      var b := EncodeUnit(u);
      b[0] != 0 && b[0] & 0x80 == 0 && b[0] as Unit == u
  {
  }

  lemma TwoBytes(u: Unit)
    requires 0x7f < u <= 0x07ff || u == 0
    ensures
      var b := EncodeUnit(u);
      && b[0] & 0x80 != 0 && b[0] & 0xe0 == 0xc0 && Continues(b[1]) && b[1] != 0
      && ((b[0] & 0x1f) as Unit << 6) | (b[1] & 0x3f) as Unit == u
  {
  }

  lemma ThreeBytes(u: Unit)
    requires u > 0x07ff
    ensures
      var b := EncodeUnit(u);
      && b[0] & 0x80 != 0 && b[0] & 0xe0 != 0xc0 && b[0] & 0xf0 == 0xe0
      && Continues(b[1]) && Continues(b[2]) && b[1] != 0 && b[2] != 0
      && ((b[0] & 0x0f) as Unit << 12) | ((b[1] & 0x3f) as Unit << 6) | (b[2] & 0x3f) as Unit == u
  {
  }

  lemma OneIsBack(u: Unit, b: seq<Byte>)
    requires 0 < u <= 0x7f && |b| >= 1 && b[0] == u as Byte
    ensures DecodeUnit(b) == Some((u, 1))
  {
    OneByte(u);
  }

  lemma TwoAreBack(u: Unit, b: seq<Byte>)
    requires 0x7f < u <= 0x07ff || u == 0
    requires |b| >= 2 && b[0] == Lead2(u) && b[1] == Low(u)
    ensures DecodeUnit(b) == Some((u, 2)) && b[0] != 0 && b[1] != 0
  {
    TwoBytes(u);
  }

  lemma ThreeAreBack(u: Unit, b: seq<Byte>)
    requires u > 0x07ff
    requires |b| >= 3 && b[0] == Lead3(u) && b[1] == High(u) && b[2] == Low(u)
    ensures DecodeUnit(b) == Some((u, 3)) && b[0] != 0 && b[1] != 0 && b[2] != 0
  {
    ThreeBytes(u);
  }

  lemma UnitIsBack(u: Unit, b: seq<Byte>)
    requires |b| >= UnitLen(u) && b[..UnitLen(u)] == EncodeUnit(u)
    ensures DecodeUnit(b) == Some((u, UnitLen(u)))
    ensures forall k :: 0 <= k < UnitLen(u) ==> b[k] != 0
  {
    var e := EncodeUnit(u);
    assert forall k :: 0 <= k < UnitLen(u) ==> b[k] == e[k];
    if u > 0x07ff {
      ThreeAreBack(u, b);
    } else if u > 0x7f || u == 0 {
      TwoAreBack(u, b);
    } else {
      OneIsBack(u, b);
    }
  }

  /** No other bytes that decode to a unit are fewer than those of its encoding. */
  lemma ShortestForm(b: seq<Byte>)
    requires DecodeUnit(b).Some?
    ensures |EncodeUnit(DecodeUnit(b).value.0)| <= DecodeUnit(b).value.1
  {
    var (u, n) := DecodeUnit(b).value;
    if n == 2 {
      TwoByteUnit(b[0], b[1]);
    } else if n == 1 {
      OneByteUnit(b[0]);
    }
  }

  lemma OneByteUnit(b: Byte)
    requires b != 0 && b & 0x80 == 0
    ensures 0 < b as Unit <= 0x7f
  {
  }

  lemma TwoByteUnit(b: Byte, c: Byte)
    ensures ((b & 0x1f) as Unit << 6) | (c & 0x3f) as Unit <= 0x07ff
  {
  }

  lemma ZeroFree(a: seq<Byte>, b: seq<Byte>)
    requires 0 !in a && 0 !in b
    ensures 0 !in a + b
  {
  }

  /** Decoding what was encoded gives the units back, and no byte of the encoding is zero. */
  lemma {:induction false} RoundTrip(s: seq<Unit>)
    ensures Decode(Encode(s)) == Some(s)
    ensures 0 !in Encode(s)
  {
    if s != [] {
      var b, rest := EncodeUnit(s[0]), Encode(s[1..]);
      RoundTrip(s[1..]);
      assert (b + rest)[..|b|] == b && (b + rest)[|b|..] == rest;
      UnitIsBack(s[0], b + rest);
      assert forall k :: 0 <= k < |b| ==> b[k] == (b + rest)[k];
      ZeroFree(b, rest);
      assert [s[0]] + s[1..] == s;
    }
  }

  // ----- The length ----------------------------------------------------------------------------

  function Min(a: nat, b: nat): nat {
    if a < b then a else b
  }

  /** size_t addition */
  function Add(a: nat, b: nat, sizeMax: nat): (r: nat)
    requires a <= sizeMax && b <= sizeMax
    ensures r <= sizeMax && r == (a + b) % (sizeMax + 1)
  {
    if a + b <= sizeMax then a + b else a + b - (sizeMax + 1)
  }

  lemma {:induction false} AtMostThreeEach(s: seq<Unit>)
    ensures EncodedLen(s) <= 3 * |s|
  {
    if s != [] {
      AtMostThreeEach(s[1..]);
    }
  }

  method Strnlen16to8(s: seq<Unit>, sizeMax: nat) returns (utf8Len: nat)
    requires 3 <= sizeMax && |s| <= sizeMax
    ensures utf8Len == Min(EncodedLen(s), sizeMax - 1)
  {
    utf8Len := 0;
    AtMostThreeEach(s);
    if |s| < (sizeMax - 1) / 3 {
      for i := 0 to |s|
        invariant utf8Len + EncodedLen(s[i..]) == EncodedLen(s)
      {
        var uic := s[i];
        assert s[i..][1..] == s[i + 1..];
        utf8Len := Add(utf8Len, UnitLen(uic), sizeMax);
      }
      return;
    }
    for i := 0 to |s|
      invariant utf8Len <= sizeMax && utf8Len + EncodedLen(s[i..]) == EncodedLen(s)
    {
      var uic := s[i];
      var utf8Cur := utf8Len;
      assert s[i..][1..] == s[i + 1..];
      utf8Len := Add(utf8Len, UnitLen(uic), sizeMax);
      if utf8Len < utf8Cur {
        return sizeMax - 1;
      }
    }
    if utf8Len == sizeMax {
      utf8Len := sizeMax - 1;
    }
  }

  // ----- The copy ------------------------------------------------------------------------------

  /** One round of the loop of strncpy16to8. */
  method PutUnit(utf8Str: array<Byte>, cur: nat, u: Unit) returns (next: nat)
    requires cur + UnitLen(u) <= utf8Str.Length
    modifies utf8Str
    ensures next == cur + UnitLen(u) && utf8Str[cur..next] == EncodeUnit(u)
    ensures forall k :: (0 <= k < cur || next <= k < utf8Str.Length) ==> utf8Str[k] == old(utf8Str[k])
  {
    if u > 0x07ff {
      utf8Str[cur] := Lead3(u);
      utf8Str[cur + 1] := High(u);
      utf8Str[cur + 2] := Low(u);
      next := cur + 3;
    } else if u > 0x7f || u == 0 {
      utf8Str[cur] := Lead2(u);
      utf8Str[cur + 1] := Low(u);
      next := cur + 2;
    } else {
      utf8Str[cur] := u as Byte;
      next := cur + 1;
    }
  }

  lemma OneMoreUnit(s: seq<Unit>, i: nat, written: seq<Byte>)
    requires i < |s| && written + Encode(s[i..]) == Encode(s)
    ensures (written + EncodeUnit(s[i])) + Encode(s[i + 1..]) == Encode(s)
    ensures |written| + UnitLen(s[i]) <= EncodedLen(s)
  {
    var head, tail := EncodeUnit(s[i]), Encode(s[i + 1..]);
    assert Encode(s[i..]) == head + tail by {
      assert s[i..][1..] == s[i + 1..];
    }
    Regroup(written, head, tail);
    assert |written| + |head| + |tail| == |Encode(s)|;
  }

  /** The caller provides room for the encoding and its terminator; no byte beyond is written. */
  method Strncpy16to8(utf8Str: array<Byte>, s: seq<Unit>)
    requires EncodedLen(s) < utf8Str.Length
    modifies utf8Str
    ensures utf8Str[..EncodedLen(s) + 1] == Encode(s) + [0]
    ensures utf8Str[EncodedLen(s) + 1..] == old(utf8Str[EncodedLen(s) + 1..])
  {
    var cur := 0;
    ghost var written: seq<Byte> := [];
    for i := 0 to |s|
      invariant cur == |written| <= EncodedLen(s) && written + Encode(s[i..]) == Encode(s)
      invariant utf8Str[..cur] == written
      invariant forall k :: EncodedLen(s) <= k < utf8Str.Length ==> utf8Str[k] == old(utf8Str[k])
    {
      OneMoreUnit(s, i, written);
      cur := PutUnit(utf8Str, cur, s[i]);
      written := written + EncodeUnit(s[i]);
    }
    assert s[|s|..] == [];
    utf8Str[cur] := 0;
  }

  /** The buffer is exactly as long as the encoding and its terminator. NULL is returned for a NULL
      string, for a length of SIZE_MAX - 1 or more, and when malloc fails. */
  method Strndup16to8(s: Option<seq<Unit>>, sizeMax: nat, mallocFails: bool) returns (ret: array?<Byte>)
    requires 3 <= sizeMax && (s.Some? ==> |s.value| <= sizeMax)
    ensures ret == null <==> s == None || EncodedLen(s.value) >= sizeMax - 1 || mallocFails
    ensures ret != null ==> fresh(ret) && ret[..] == Encode(s.value) + [0]
  {
    if s == None {
      return null;
    }
    var len := Strnlen16to8(s.value, sizeMax);
    if len >= sizeMax - 1 || mallocFails {
      return null;
    }
    ret := new Byte[len + 1];
    Strncpy16to8(ret, s.value);
    assert ret[..len + 1] == ret[..];
  }
}
