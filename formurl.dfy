/** The application/x-www-form-urlencoded serializer of the WHATWG URL
    Standard, which `URLSearchParams.prototype.toString` uses: each name and
    value is encoded as UTF-8 (RFC 3629), bytes other than ASCII
    alphanumerics and `*-._` are percent-encoded with upper-case hex, a space
    becomes '+', and the pairs are written `name=value` joined by '&'.
    A strict decoder is given beside it so that the serializer can be shown
    to lose nothing. */
module FormUrlEncoded {
  import opened Wrappers
  import Strings

  type Byte = b: int | 0 <= b < 256

  /** The UTF-8 bytes of one Unicode scalar value (RFC 3629, section 3). */
  function Utf8(c: char): (bs: seq<Byte>)
    ensures 1 <= |bs| <= 4
  {
    var v := c as int;
    if v < 0x80 then [v]
    else if v < 0x800 then [0xC0 + v / 64, 0x80 + v % 64]
    else if v < 0x10000 then [0xE0 + (v / 64) / 64, 0x80 + (v / 64) % 64, 0x80 + v % 64]
    else [0xF0 + ((v / 64) / 64) / 64, 0x80 + ((v / 64) / 64) % 64, 0x80 + (v / 64) % 64, 0x80 + v % 64]
  }

  /** How many bytes the sequence that starts with `lead` has. */
  function Utf8Length(lead: Byte): (n: nat)
    ensures 1 <= n <= 4
  {
    if lead < 0x80 then 1 else if lead < 0xE0 then 2 else if lead < 0xF0 then 3 else 4
  }

  /** The scalar value written by one UTF-8 sequence, when it is one. */
  function Utf8Scalar(bs: seq<Byte>): Option<char>
    requires 1 <= |bs| <= 4
  {
    var b: seq<int> := bs;
    var v :=
      if |b| == 1 then b[0]
      else if |b| == 2 then (b[0] - 0xC0) * 64 + (b[1] - 0x80)
      else if |b| == 3 then ((b[0] - 0xE0) * 64 + (b[1] - 0x80)) * 64 + (b[2] - 0x80)
      else (((b[0] - 0xF0) * 64 + (b[1] - 0x80)) * 64 + (b[2] - 0x80)) * 64 + (b[3] - 0x80);
    if 0 <= v < 0xD800 || 0xE000 <= v < 0x11_0000 then Some(v as char) else None
  }

  /** Decoding UTF-8 one sequence at a time. */
  function Utf8Decode(bs: seq<Byte>): Option<string>
    decreases |bs|
  {
    if |bs| == 0 then Some("")
    else
      var n := Utf8Length(bs[0]);
      if |bs| < n then None
      else match Utf8Scalar(bs[..n])
        case None => None
        case Some(c) => Prepend([c], Utf8Decode(bs[n..]))
  }

  function Prepend<T>(front: seq<T>, rest: Option<seq<T>>): Option<seq<T>> {
    match rest
    case None => None
    case Some(r) => Some(front + r)
  }

  /** Bytes the serializer writes as themselves. */
  predicate Unreserved(b: Byte) {
    || b == 0x2A || b == 0x2D || b == 0x2E || b == 0x5F
    || 0x30 <= b <= 0x39 || 0x41 <= b <= 0x5A || 0x61 <= b <= 0x7A
  }

  function HexDigit(n: nat): char
    requires n < 16
  {
    "0123456789ABCDEF"[n]
  }

  predicate IsHex(c: char) {
    '0' <= c <= '9' || 'A' <= c <= 'F'
  }

  function HexValue(c: char): (n: nat)
    requires IsHex(c)
    ensures n < 16
  {
    if c <= '9' then c as int - '0' as int else c as int - 'A' as int + 10
  }

  /** One byte as the serializer writes it. */
  function EncodeByte(b: Byte): string {
    if b == 0x20 then "+"
    else if Unreserved(b) then [b as char]
    else ['%', HexDigit(b / 16), HexDigit(b % 16)]
  }

  function EncodeBytes(bs: seq<Byte>): string {
    if |bs| == 0 then "" else EncodeByte(bs[0]) + EncodeBytes(bs[1..])
  }

  /** The form-urlencoded text of one name or value. */
  function Encode(s: string): string {
    if |s| == 0 then "" else EncodeBytes(Utf8(s[0])) + Encode(s[1..])
  }

  /** The characters the serializer can write. */
  predicate InAlphabet(c: char) {
    c == '+' || c == '%' || IsHex(c) || (c as int < 256 && Unreserved(c as int))
  }

  /** Reading serialized text back into bytes: '+' is a space, "%XX" the
      byte XX, an unreserved character itself; anything else is refused. */
  function DecodeBytes(t: string): Option<seq<Byte>>
    decreases |t|
  {
    if |t| == 0 then Some([])
    else if t[0] == '+' then Prepend([0x20], DecodeBytes(t[1..]))
    else if t[0] == '%' && |t| >= 3 && IsHex(t[1]) && IsHex(t[2]) then
      Prepend([HexValue(t[1]) * 16 + HexValue(t[2])], DecodeBytes(t[3..]))
    else if t[0] as int < 256 && Unreserved(t[0] as int) then Prepend([t[0] as int], DecodeBytes(t[1..]))
    else None
  }

  /** Reading one serialized name or value back. */
  function Decode(t: string): Option<string> {
    match DecodeBytes(t)
    case None => None
    case Some(bs) => Utf8Decode(bs)
  }

  /** `URLSearchParams.toString()`: the pairs, each `name=value`, joined by
      '&'; no pairs give the empty string. */
  function Serialize(pairs: seq<(string, string)>): string {
    if |pairs| == 0 then "" else Strings.Join(Pieces(pairs), '&')
  }

  function Pieces(pairs: seq<(string, string)>): (ps: seq<string>)
    ensures |ps| == |pairs|
  {
    seq(|pairs|, k requires 0 <= k < |pairs| => Encode(pairs[k].0) + "=" + Encode(pairs[k].1))
  }

  /** Reading a serialized query back into its pairs. */
  function Parse(q: string): Option<seq<(string, string)>> {
    if |q| == 0 then Some([]) else ParsePieces(Strings.Split(q, '&'))
  }

  function ParsePieces(pieces: seq<string>): Option<seq<(string, string)>> {
    if |pieces| == 0 then Some([])
    else
      var halves := Strings.Split(pieces[0], '=');
      if |halves| != 2 then None
      else match (Decode(halves[0]), Decode(halves[1]), ParsePieces(pieces[1..]))
        case (Some(name), Some(value), Some(rest)) => Some([(name, value)] + rest)
        case _ => None
  }

  // ---------------------------------------------------------------------
  // What the serializer guarantees.

  /** The serializer only writes '+', '%', hex digits and unreserved ASCII:
      never '&', '=', '?' or '#', so a serialized piece cannot be confused
      with the separators around it. */
  lemma {:induction false} EncodeAlphabet(s: string)
    ensures forall k :: 0 <= k < |Encode(s)| ==> InAlphabet(Encode(s)[k])
    decreases |s|
  {
    if |s| > 0 {
      EncodeBytesAlphabet(Utf8(s[0]));
      EncodeAlphabet(s[1..]);
      AlphabetConcat(EncodeBytes(Utf8(s[0])), Encode(s[1..]));
    }
  }

  lemma {:induction false} EncodeBytesAlphabet(bs: seq<Byte>)
    ensures forall k :: 0 <= k < |EncodeBytes(bs)| ==> InAlphabet(EncodeBytes(bs)[k])
    decreases |bs|
  {
    if |bs| > 0 {
      EncodeBytesAlphabet(bs[1..]);
      AlphabetConcat(EncodeByte(bs[0]), EncodeBytes(bs[1..]));
    }
  }

  lemma AlphabetConcat(a: string, b: string)
    requires forall k :: 0 <= k < |a| ==> InAlphabet(a[k])
    requires forall k :: 0 <= k < |b| ==> InAlphabet(b[k])
    ensures forall k :: 0 <= k < |a + b| ==> InAlphabet((a + b)[k])
  {
    forall k | 0 <= k < |a + b| ensures InAlphabet((a + b)[k]) {
      if k >= |a| { assert (a + b)[k] == b[k - |a|]; }
    }
  }

  /** No separator is in the alphabet. */
  lemma NoSeparators(t: string)
    requires forall k :: 0 <= k < |t| ==> InAlphabet(t[k])
    ensures '&' !in t && '=' !in t && '?' !in t && '#' !in t
  {
    forall k | 0 <= k < |t| ensures t[k] != '&' && t[k] != '=' && t[k] != '?' && t[k] != '#' {
      assert InAlphabet(t[k]);
    }
  }

  lemma HexRoundTrip(n: nat)
    requires n < 16
    ensures IsHex(HexDigit(n)) && HexValue(HexDigit(n)) == n
  {
  }

  /** One encoded byte reads back as that byte, whatever follows it. */
  lemma DecodeEncodedByte(b: Byte, t: string)
    ensures DecodeBytes(EncodeByte(b) + t) == Prepend([b], DecodeBytes(t))
  {
    var e := EncodeByte(b) + t;
    if b == 0x20 {
      assert e[0] == '+' && e[1..] == t;
    } else if Unreserved(b) {
      assert e[0] == b as char && e[1..] == t;
    } else {
      assert e[0] == '%' && e[3..] == t;
      HexRoundTrip(b / 16);
      HexRoundTrip(b % 16);
    }
  }

  lemma {:induction false} DecodeEncodedBytes(bs: seq<Byte>, t: string)
    ensures DecodeBytes(EncodeBytes(bs) + t) == Prepend(bs, DecodeBytes(t))
    decreases |bs|
  {
    if |bs| == 0 {
      assert EncodeBytes(bs) + t == t;
      PrependNothing(DecodeBytes(t));
    } else {
      assert EncodeBytes(bs) + t == EncodeByte(bs[0]) + (EncodeBytes(bs[1..]) + t);
      DecodeEncodedByte(bs[0], EncodeBytes(bs[1..]) + t);
      DecodeEncodedBytes(bs[1..], t);
      PrependTwice([bs[0]], bs[1..], DecodeBytes(t));
      assert [bs[0]] + bs[1..] == bs;
    }
  }

  lemma PrependNothing<T>(o: Option<seq<T>>)
    ensures Prepend([], o) == o
  {
    if o.Some? { assert [] + o.value == o.value; }
  }

  lemma PrependTwice<T>(a: seq<T>, b: seq<T>, o: Option<seq<T>>)
    ensures Prepend(a, Prepend(b, o)) == Prepend(a + b, o)
  {
    if o.Some? { assert a + (b + o.value) == (a + b) + o.value; }
  }

  /** One character's UTF-8 bytes decode to that character, whatever follows. */
  lemma Utf8OneChar(c: char, rest: seq<Byte>)
    ensures Utf8Decode(Utf8(c) + rest) == Prepend([c], Utf8Decode(rest))
  {
    var e := Utf8(c);
    var bs := e + rest;
    assert bs[..|e|] == e && bs[|e|..] == rest;
    assert Utf8Length(e[0]) == |e|;
    Utf8ScalarOf(c);
  }

  /** The bytes of one scalar value read back as that value. */
  lemma Utf8ScalarOf(c: char)
    ensures Utf8Scalar(Utf8(c)) == Some(c)
  {
    var v := c as int;
    var q := v / 64;
    var q2 := q / 64;
    assert v == 64 * q + v % 64;
    assert q == 64 * q2 + q % 64;
    assert q2 == 64 * (q2 / 64) + q2 % 64;
  }

  /** Decoding undoes encoding: every name and value comes back intact, so
      the serializer is injective. */
  lemma {:induction false} DecodeEncode(s: string)
    ensures Decode(Encode(s)) == Some(s)
  {
    BytesOfEncode(s);
    Utf8RoundTrip(s);
  }

  /** The bytes behind a serialized string are its UTF-8 encoding. */
  function Utf8String(s: string): seq<Byte> {
    if |s| == 0 then [] else Utf8(s[0]) + Utf8String(s[1..])
  }

  lemma {:induction false} BytesOfEncode(s: string)
    ensures DecodeBytes(Encode(s)) == Some(Utf8String(s))
    decreases |s|
  {
    if |s| > 0 {
      DecodeEncodedBytes(Utf8(s[0]), Encode(s[1..]));
      BytesOfEncode(s[1..]);
    }
  }

  lemma {:induction false} Utf8RoundTrip(s: string)
    ensures Utf8Decode(Utf8String(s)) == Some(s)
    decreases |s|
  {
    if |s| > 0 {
      Utf8OneChar(s[0], Utf8String(s[1..]));
      Utf8RoundTrip(s[1..]);
      assert [s[0]] + s[1..] == s;
    }
  }

  /** Parsing a serialized query gives back exactly the pairs, in order. */
  lemma SerializeRoundTrip(pairs: seq<(string, string)>)
    ensures Parse(Serialize(pairs)) == Some(pairs)
  {
    if |pairs| > 0 {
      var pieces := Pieces(pairs);
      forall k | 0 <= k < |pieces| ensures '&' !in pieces[k] {
        PieceShape(pairs[k]);
      }
      Strings.SplitJoin(pieces, '&');
      PiecesRoundTrip(pairs);
      JoinNotEmpty(pieces);
    }
  }

  lemma JoinNotEmpty(pieces: seq<string>)
    requires |pieces| >= 1 && |pieces[0]| >= 1
    ensures |Strings.Join(pieces, '&')| >= 1
  {
  }

  /** A serialized pair has a single '=' between its two halves and no '&'. */
  lemma PieceShape(pair: (string, string))
    ensures var piece := Encode(pair.0) + "=" + Encode(pair.1);
            && '&' !in piece && |piece| >= 1
            && Strings.Split(piece, '=') == [Encode(pair.0), Encode(pair.1)]
  {
    EncodeAlphabet(pair.0);
    EncodeAlphabet(pair.1);
    NoSeparators(Encode(pair.0));
    NoSeparators(Encode(pair.1));
    Strings.SplitTwo(Encode(pair.0), Encode(pair.1), '=');
  }

  lemma {:induction false} PiecesRoundTrip(pairs: seq<(string, string)>)
    ensures ParsePieces(Pieces(pairs)) == Some(pairs)
    decreases |pairs|
  {
    if |pairs| > 0 {
      var pieces := Pieces(pairs);
      PieceRoundTrip(pairs[0]);
      assert pieces[0] == Encode(pairs[0].0) + "=" + Encode(pairs[0].1);
      assert pieces[1..] == Pieces(pairs[1..]);
      PiecesRoundTrip(pairs[1..]);
      assert [pairs[0]] + pairs[1..] == pairs;
    }
  }

  /** One serialized pair reads back as that pair. */
  lemma PieceRoundTrip(pair: (string, string))
    ensures var halves := Strings.Split(Encode(pair.0) + "=" + Encode(pair.1), '=');
            |halves| == 2 && Decode(halves[0]) == Some(pair.0) && Decode(halves[1]) == Some(pair.1)
  {
    PieceShape(pair);
    DecodeEncode(pair.0);
    DecodeEncode(pair.1);
  }
}
