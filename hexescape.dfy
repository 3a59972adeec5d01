/**
 * `_escape_hex`, the transform behind the `hex` and `hexentity` escapes:
 * every byte of the value becomes `%` and two lower-case hex digits, or,
 * in entity mode, `&#x`, two hex digits and `;`. The result variable is
 * never initialised, so an empty input yields null.
 */
module HexEscape {
  import opened Php

  newtype Byte = b: int | 0 <= b < 256

  /** One lower-case hex digit, as bin2hex writes it. */
  function HexDigit(d: nat): (c: char)
    requires d < 16
    ensures IsDigit(c) || ('a' <= c <= 'f')
  {
    if d < 10 then ('0' as int + d) as char else ('a' as int + d - 10) as char
  }

  /** The value of a hex digit, either case. */
  function HexValue(c: char): (r: Option<nat>)
    ensures r.Some? ==> r.value < 16
  {
    if '0' <= c <= '9' then Some(c as int - '0' as int)
    else if 'a' <= c <= 'f' then Some(c as int - 'a' as int + 10)
    else if 'A' <= c <= 'F' then Some(c as int - 'A' as int + 10)
    else None
  }

  lemma HexDigitValue(d: nat)
    requires d < 16
    ensures HexValue(HexDigit(d)) == Some(d)
  {
  }

  /** bin2hex of one byte. */
  function Bin2Hex(b: Byte): (r: string)
    ensures |r| == 2
  {
    [HexDigit(b as int / 16), HexDigit(b as int % 16)]
  }

  function Prefix(entity: bool): string { if entity then "&#x" else "%" }

  function Suffix(entity: bool): string { if entity then ";" else "" }

  /** Characters per byte: 6 in entity mode, 3 otherwise. */
  function Width(entity: bool): nat { if entity then 6 else 3 }

  /** `$prestr . bin2hex($str[$i]) . $poststr`. */
  function Piece(b: Byte, entity: bool): (r: string)
    ensures |r| == Width(entity)
  {
    Prefix(entity) + Bin2Hex(b) + Suffix(entity)
  }

  /** The concatenation of the pieces of all bytes. */
  function Pieces(s: seq<Byte>, entity: bool): (r: string)
    ensures |r| == Width(entity) * |s|
  {
    if s == [] then [] else Piece(s[0], entity) + Pieces(s[1..], entity)
  }

  lemma {:induction false} PiecesAppend(a: seq<Byte>, b: seq<Byte>, entity: bool)
    ensures Pieces(a + b, entity) == Pieces(a, entity) + Pieces(b, entity)
    decreases |a|
  {
    if a == [] {
      assert a + b == b;
    } else {
      assert (a + b)[0] == a[0];
      assert (a + b)[1..] == a[1..] + b;
      PiecesAppend(a[1..], b, entity);
    }
  }

  /** The pieces of the first i + 1 bytes. */
  lemma PiecesSnoc(s: seq<Byte>, i: nat, entity: bool)
    requires i < |s|
    ensures Pieces(s[..i + 1], entity) == Pieces(s[..i], entity) + Piece(s[i], entity)
  {
    PiecesAppend(s[..i], [s[i]], entity);
    assert s[..i + 1] == s[..i] + [s[i]];
    assert [s[i]][1..] == [];
  }

  /** The result `_escape_hex` returns: null for the empty string. */
  function EscapeHexSpec(s: seq<Byte>, entity: bool): (r: Option<string>)
  {
    if s == [] then None else Some(Pieces(s, entity))
  }

  /** Byte i of the input owns characters w*i .. w*i+w-1 of the output. */
  lemma {:induction false} PiecesAt(s: seq<Byte>, entity: bool, i: nat)
    requires i < |s|
    ensures Pieces(s, entity)[Width(entity) * i .. Width(entity) * i + Width(entity)] == Piece(s[i], entity)
    decreases i
  {
    var w := Width(entity);
    if i > 0 {
      PiecesAt(s[1..], entity, i - 1);
      var x := w * (i - 1);
      assert w * i == w + x;
      assert Pieces(s, entity) == Piece(s[0], entity) + Pieces(s[1..], entity);
      SliceAfter(Piece(s[0], entity), Pieces(s[1..], entity), w + x, w);
    }
  }

  /** A slice that lies wholly in the second part of a concatenation. */
  lemma SliceAfter(a: string, b: string, x: nat, n: nat)
    requires |a| <= x && x + n <= |a| + |b|
    ensures (a + b)[x .. x + n] == b[x - |a| .. x - |a| + n]
  {
  }

  /** The loop of `_escape_hex`, appending one piece per byte. */
  method EscapeHex(str: seq<Byte>, entity: bool) returns (r: Option<string>)
    ensures r == EscapeHexSpec(str, entity)
  {
    var prestr := Prefix(entity);
    var poststr := Suffix(entity);
    r := None;
    var i := 0;
    while i < |str|
      invariant 0 <= i <= |str|
      invariant r == EscapeHexSpec(str[..i], entity)
    {
      var piece := prestr + Bin2Hex(str[i]) + poststr;
      PiecesSnoc(str, i, entity);
      r := Some((if r.Some? then r.value else "") + piece);
      i := i + 1;
    }
    assert str[..i] == str;
  }

  /** Reading the pieces back: every chunk must have the prefix, two hex
      digits and the suffix. */
  function Unescape(t: string, entity: bool): Option<seq<Byte>>
    decreases |t|
  {
    var w := Width(entity);
    if t == [] then Some([])
    else if |t| < w then None
    else
      match Chunk(t[..w], entity)
      case None => None
      case Some(b) =>
        var rest := Unescape(t[w..], entity);
        if rest.Some? then Some([b] + rest.value) else None
  }

  /** The byte one chunk of the output stands for, if it is well formed. */
  function Chunk(c: string, entity: bool): Option<Byte>
    requires |c| == Width(entity)
  {
    var p := |Prefix(entity)|;
    if c[..p] != Prefix(entity) || c[p + 2 ..] != Suffix(entity) then None
    else
      match (HexValue(c[p]), HexValue(c[p + 1]))
      case (Some(h), Some(l)) => Some((16 * h + l) as Byte)
      case _ => None
  }

  /** Decoding the output gives back the input, so no two inputs share an output. */
  lemma {:induction false} EscapeHexRoundTrip(s: seq<Byte>, entity: bool)
    ensures Unescape(Pieces(s, entity), entity) == Some(s)
    decreases |s|
  {
    if s != [] {
      assert Pieces(s, entity) == Piece(s[0], entity) + Pieces(s[1..], entity);
      UnescapeCons(s[0], entity, Pieces(s[1..], entity));
      EscapeHexRoundTrip(s[1..], entity);
      assert [s[0]] + s[1..] == s;
    }
  }

  /** Unescape reads one piece back and goes on with the rest. */
  lemma UnescapeCons(b: Byte, entity: bool, rest: string)
    ensures Unescape(Piece(b, entity) + rest, entity) ==
      if Unescape(rest, entity).Some? then Some([b] + Unescape(rest, entity).value) else None
  {
    var pc := Piece(b, entity);
    var t := pc + rest;
    var w := Width(entity);
    assert t[..w] == pc && t[w..] == rest;
    ChunkPiece(b, entity);
  }

  /** A piece is a chunk that stands for its byte. */
  lemma ChunkPiece(b: Byte, entity: bool)
    ensures Chunk(Piece(b, entity), entity) == Some(b)
  {
    PieceParts(b, entity);
    HexDigitValue(b as int / 16);
    HexDigitValue(b as int % 16);
    ByteDigits(b);
  }

  lemma ByteDigits(b: Byte)
    ensures (16 * (b as int / 16) + b as int % 16) as Byte == b
  {
  }

  /** The prefix, the two digits and the suffix of a piece. */
  lemma PieceParts(b: Byte, entity: bool)
    ensures |Prefix(entity)| + 2 + |Suffix(entity)| == Width(entity)
    ensures Piece(b, entity)[..|Prefix(entity)|] == Prefix(entity)
    ensures Piece(b, entity)[|Prefix(entity)|] == HexDigit(b as int / 16)
    ensures Piece(b, entity)[|Prefix(entity)| + 1] == HexDigit(b as int % 16)
    ensures Piece(b, entity)[|Prefix(entity)| + 2 ..] == Suffix(entity)
  {
  }

  /** The properties of the escape in one place: null exactly for empty
      input, otherwise 3 or 6 characters per byte, each group the piece of
      its byte, and decodable back to the input. */
  lemma EscapeHexShape(s: seq<Byte>, entity: bool)
    ensures EscapeHexSpec(s, entity).None? <==> s == []
    ensures EscapeHexSpec(s, entity).Some? ==>
      var r := EscapeHexSpec(s, entity).value;
      |r| == Width(entity) * |s| &&
      (forall i :: 0 <= i < |s| ==> r[Width(entity) * i .. Width(entity) * i + Width(entity)] == Piece(s[i], entity)) &&
      Unescape(r, entity) == Some(s)
  {
    if s != [] {
      forall i | 0 <= i < |s|
        ensures Pieces(s, entity)[Width(entity) * i .. Width(entity) * i + Width(entity)] == Piece(s[i], entity)
      {
        PiecesAt(s, entity, i);
      }
      EscapeHexRoundTrip(s, entity);
    }
  }
}
