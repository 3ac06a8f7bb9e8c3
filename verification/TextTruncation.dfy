/**
 UTF-8 truncation to a byte limit (pr_agent/dashboard/storage.py), with UTF-8 as section 3 of RFC 3629
 defines it.
 */
module TextTruncation {
  import opened Wrappers

  newtype Byte = x: int | 0 <= x < 0x100

  predicate IsScalar(x: int) { 0 <= x < 0xD800 || 0xE000 <= x < 0x110000 }

  /** A character that UTF-8 can encode. */
  type Scalar = x: int | 0 <= x < 0xD800 || 0xE000 <= x < 0x110000
  type Text = seq<Scalar>

  // ----- encoding and decoding -----

  function EncodeOne(c: Scalar): (r: seq<Byte>)
    ensures 1 <= |r| <= 4
  {
    if c < 0x80 then [c as Byte]
    else if c < 0x800 then [(0xC0 + c / 64) as Byte, (0x80 + c % 64) as Byte]
    else if c < 0x10000 then
      [(0xE0 + c / 4096) as Byte, (0x80 + c / 64 % 64) as Byte, (0x80 + c % 64) as Byte]
    else
      [(0xF0 + c / 262144) as Byte, (0x80 + c / 4096 % 64) as Byte, (0x80 + c / 64 % 64) as Byte,
       (0x80 + c % 64) as Byte]
  }

  function Encode(s: Text): seq<Byte> {
    if s == [] then [] else EncodeOne(s[0]) + Encode(s[1..])
  }

  /** How many bytes a first byte announces; 0 for a byte that cannot come first. */
  function Announced(b: Byte): nat {
    if b < 0x80 then 1
    else if b < 0xC0 then 0
    else if b < 0xE0 then 2
    else if b < 0xF0 then 3
    else if b < 0xF8 then 4
    else 0
  }

  /** The number spelled by the payload bits of a sequence as long as its first byte announces. */
  function Payload(b: seq<Byte>): int
    requires b != [] && Announced(b[0]) == |b|
  {
    if |b| == 1 then b[0] as int
    else if |b| == 2 then (b[0] as int - 0xC0) * 64 + (b[1] as int - 0x80)
    else if |b| == 3 then (b[0] as int - 0xE0) * 4096 + (b[1] as int - 0x80) * 64 + (b[2] as int - 0x80)
    else (b[0] as int - 0xF0) * 262144 + (b[1] as int - 0x80) * 4096 + (b[2] as int - 0x80) * 64 + (b[3] as int - 0x80)
  }

  /** The character a byte sequence starts with, if it starts with a valid one. */
  function DecodeOne(b: seq<Byte>): Option<Scalar>
    requires b != []
  {
    var n := Announced(b[0]);
    if n == 0 || |b| < n then None
    else
      var c := Payload(b[..n]);
      if IsScalar(c) && EncodeOne(c) == b[..n] then Some(c) else None
  }

  /** Decoding that drops whatever is not valid. */
  function DecodeIgnoring(b: seq<Byte>): Text
    decreases |b|
  {
    if b == [] then []
    else match DecodeOne(b)
      case Some(c) => [c] + DecodeIgnoring(b[Announced(b[0])..])
      case None => DecodeIgnoring(b[1..])
  }

  lemma EncodeOneBytes(c: Scalar)
    ensures Announced(EncodeOne(c)[0]) == |EncodeOne(c)|
    ensures Payload(EncodeOne(c)) == c
    ensures forall k :: 1 <= k < |EncodeOne(c)| ==> Announced(EncodeOne(c)[k]) == 0
  {
    Digits(c);
  }

  lemma Digits(c: Scalar)
    ensures c / 64 * 64 + c % 64 == c
    ensures c / 4096 * 4096 + c / 64 % 64 * 64 + c % 64 == c
    ensures c / 262144 * 262144 + c / 4096 % 64 * 4096 + c / 64 % 64 * 64 + c % 64 == c
  {}

  lemma DecodeOneReads(c: Scalar, rest: seq<Byte>)
    ensures DecodeOne(EncodeOne(c) + rest) == Some(c)
  {
    EncodeOneBytes(c);
    var b := EncodeOne(c) + rest;
    assert b[..|EncodeOne(c)|] == EncodeOne(c);
  }

  /** Nothing can be read off a character that was cut short. */
  lemma {:induction false} CutCharacterIsDropped(c: Scalar, from: nat, k: nat)
    requires from <= k < |EncodeOne(c)|
    ensures DecodeIgnoring(EncodeOne(c)[from..k]) == []
    decreases k - from
  {
    EncodeOneBytes(c);
    if from < k {
      var b := EncodeOne(c)[from..k];
      assert b[0] == EncodeOne(c)[from];
      assert DecodeOne(b) == None;
      assert b[1..] == EncodeOne(c)[from + 1..k];
      CutCharacterIsDropped(c, from + 1, k);
    }
  }

  /** The longest prefix whose encoding has at most `max` bytes. */
  ghost predicate LongestFitting(p: Text, s: Text, max: int) {
    p <= s && |Encode(p)| <= max && (p == s || |Encode(s[..|p| + 1])| > max)
  }

  /** Cutting the encoding anywhere and decoding the rest yields the longest prefix that fits. */
  lemma {:induction false} DecodingACutIsLongest(s: Text, max: nat)
    requires max <= |Encode(s)|
    ensures LongestFitting(DecodeIgnoring(Encode(s)[..max]), s, max)
  {
    if s == [] {
    } else {
      var c := s[0];
      var e := EncodeOne(c);
      if max < |e| {
        CutCharacterIsDropped(c, 0, max);
        assert Encode(s)[..max] == e[0..max];
        assert s[..1] == [c] && [c][1..] == [];
      } else {
        var p := DecodeIgnoring(Encode(s[1..])[..max - |e|]);
        DecodingACutIsLongest(s[1..], max - |e|);
        var b := Encode(s)[..max];
        assert b == e + Encode(s[1..])[..max - |e|];
        DecodeOneReads(c, Encode(s[1..])[..max - |e|]);
        EncodeOneBytes(c);
        assert b[|e|..] == Encode(s[1..])[..max - |e|];
        PrefixGrows(c, p, s, max);
      }
    }
  }

  lemma PrefixGrows(c: Scalar, p: Text, s: Text, max: nat)
    requires s != [] && s[0] == c && max >= |EncodeOne(c)|
    requires LongestFitting(p, s[1..], max - |EncodeOne(c)|)
    ensures LongestFitting([c] + p, s, max)
  {
    assert ([c] + p)[1..] == p;
    if p != s[1..] {
      assert s[..|p| + 2][1..] == s[1..][..|p| + 1];
    } else {
      assert [c] + p == s;
    }
  }

  lemma {:induction false} EncodeConcat(a: Text, b: Text)
    ensures Encode(a + b) == Encode(a) + Encode(b)
  {
    if a == [] {
      assert a + b == b;
    } else {
      assert (a + b)[1..] == a[1..] + b;
      EncodeConcat(a[1..], b);
    }
  }

  /** Decoding undoes encoding. */
  lemma DecodeUndoesEncode(s: Text)
    ensures DecodeIgnoring(Encode(s)) == s
  {
    hide Encode, DecodeIgnoring;
    DecodingACutIsLongest(s, |Encode(s)|);
    assert Encode(s)[..|Encode(s)|] == Encode(s);
    var p := DecodeIgnoring(Encode(s));
    if p != s {
      assert s == s[..|p| + 1] + s[|p| + 1..];
      EncodeConcat(s[..|p| + 1], s[|p| + 1..]);
    }
  }

  lemma LongestIsUnique(p: Text, q: Text, s: Text, max: int)
    requires LongestFitting(p, s, max) && LongestFitting(q, s, max)
    ensures p == q
  {
    assert p == s[..|p|] && q == s[..|q|];
    if |p| < |q| {
      PrefixIsSmaller(s, |p| + 1, |q|);
    } else if |q| < |p| {
      PrefixIsSmaller(s, |q| + 1, |p|);
    }
  }

  lemma PrefixIsSmaller(s: Text, i: nat, j: nat)
    requires i <= j <= |s|
    ensures |Encode(s[..i])| <= |Encode(s[..j])|
  {
    assert s[..j] == s[..i] + s[i..j];
    EncodeConcat(s[..i], s[i..j]);
  }

  // ----- truncation -----

  const ELLIPSIS: Text := [46, 46, 46]

  function Bytes(s: Text): nat { |Encode(s)| }

  function Truncate(value: Text, max: int): Text {
    if max <= 0 then []
    else
      var encoded := Encode(value);
      if |encoded| <= max then DecodeIgnoring(encoded)
      else if max <= |Encode(ELLIPSIS)| then DecodeIgnoring(encoded[..max])
      else
        var cut := max - |Encode(ELLIPSIS)|;
        var prefix := Encode(DecodeIgnoring(if cut <= |encoded| then encoded[..cut] else encoded));
        DecodeIgnoring(prefix + Encode(ELLIPSIS))
  }

  lemma EllipsisBytes()
    ensures Bytes(ELLIPSIS) == 3
  {
    assert ELLIPSIS[1..] == [46, 46] && [46, 46][1..] == [46] && [46][1..] == [];
  }

  /**
   Never above the limit: the text itself when it fits, otherwise the longest prefix that fits, with an
   ellipsis when there is room for one.
   */
  lemma TruncateIsExact(value: Text, max: int)
    ensures var r := Truncate(value, max);
            && Bytes(r) <= (if max <= 0 then 0 else max)
            && (Bytes(value) <= max && max > 0 ==> r == value)
            && (Bytes(value) > max && 0 < max <= 3 ==> LongestFitting(r, value, max))
            && (Bytes(value) > max && max > 3 ==>
                  exists p :: r == p + ELLIPSIS && LongestFitting(p, value, max - 3))
  {
    EllipsisBytes();
    if max > 0 {
      if Bytes(value) <= max {
        DecodeUndoesEncode(value);
      } else if max <= 3 {
        DecodingACutIsLongest(value, max);
      } else {
        var p := DecodeIgnoring(Encode(value)[..max - 3]);
        DecodingACutIsLongest(value, max - 3);
        EncodeConcat(p, ELLIPSIS);
        DecodeUndoesEncode(p + ELLIPSIS);
        assert Truncate(value, max) == p + ELLIPSIS;
      }
    }
  }
}
