/**
 * Standard base64 with padding and without line breaks, as in section 4 of
 * RFC 4648: what `java.util.Base64.getEncoder().encode(bytes)` produces.
 * `Decode` is an independent reader of the same format, used to state
 * that no information is lost.
 */
module Base64 {
  import opened Wrappers

  type Byte = b: int | 0 <= b < 256

  /** One of the 64 alphabet positions. */
  type Sextet = v: int | 0 <= v < 64

  /** The RFC 4648 standard alphabet: A-Z, a-z, 0-9, '+', '/'. */
  function AlphabetChar(v: Sextet): (c: char)
    ensures c != '='
  {
    if v < 26 then ('A' as int + v) as char
    else if v < 52 then ('a' as int + (v - 26)) as char
    else if v < 62 then ('0' as int + (v - 52)) as char
    else if v == 62 then '+'
    else '/'
  }

  /** The alphabet position of a character, if it is in the alphabet. */
  function AlphabetValue(c: char): Option<Sextet>
  {
    if 'A' <= c <= 'Z' then Some(c as int - 'A' as int)
    else if 'a' <= c <= 'z' then Some(c as int - 'a' as int + 26)
    else if '0' <= c <= '9' then Some(c as int - '0' as int + 52)
    else if c == '+' then Some(62)
    else if c == '/' then Some(63)
    else None
  }

  predicate IsAlphabetChar(c: char)
  {
    AlphabetValue(c).Some?
  }

  lemma AlphabetInverse(v: Sextet)
    ensures AlphabetValue(AlphabetChar(v)) == Some(v)
  {
  }

  // ---------------------------------------------------------------------
  // Encoding
  // ---------------------------------------------------------------------

  /** Three bytes become four alphabet characters. */
  function EncodeGroup(b0: Byte, b1: Byte, b2: Byte): seq<char>
  {
    [AlphabetChar(b0 / 4),
     AlphabetChar((b0 % 4) * 16 + b1 / 16),
     AlphabetChar((b1 % 16) * 4 + b2 / 64),
     AlphabetChar(b2 % 64)]
  }

  /** The final one or two bytes, padded with '=' to four characters. */
  function EncodeTail(s: seq<Byte>): seq<char>
    requires 1 <= |s| <= 2
  {
    if |s| == 1 then [AlphabetChar(s[0] / 4), AlphabetChar((s[0] % 4) * 16), '=', '=']
    else [AlphabetChar(s[0] / 4), AlphabetChar((s[0] % 4) * 16 + s[1] / 16), AlphabetChar((s[1] % 16) * 4), '=']
  }

  /** `Base64.getEncoder().encode`: groups of three bytes, then a padded tail. */
  function Encode(s: seq<Byte>): (r: seq<char>)
    decreases |s|
  {
    if |s| == 0 then []
    else if |s| < 3 then EncodeTail(s)
    else EncodeGroup(s[0], s[1], s[2]) + Encode(s[3..])
  }

  // ---------------------------------------------------------------------
  // Decoding (the reference reader)
  // ---------------------------------------------------------------------

  /** The three bytes carried by four sextets. */
  function Join(c0: Sextet, c1: Sextet, c2: Sextet, c3: Sextet): seq<Byte>
  {
    [c0 as int * 4 + c1 as int / 16, (c1 as int % 16) * 16 + c2 as int / 4, (c2 as int % 4) * 64 + c3 as int]
  }

  /** Four alphabet characters back to three bytes. */
  function DecodeGroup(q: seq<char>): Option<seq<Byte>>
    requires |q| == 4
  {
    match (AlphabetValue(q[0]), AlphabetValue(q[1]), AlphabetValue(q[2]), AlphabetValue(q[3]))
    case (Some(c0), Some(c1), Some(c2), Some(c3)) =>
      Some(Join(c0, c1, c2, c3))
    case _ => None
  }

  /** A final group ending in '=': one byte ("xx==") or two bytes ("xxx="). */
  function DecodePadded(q: seq<char>): Option<seq<Byte>>
    requires |q| == 4
  {
    match (AlphabetValue(q[0]), AlphabetValue(q[1]))
    case (Some(c0), Some(c1)) =>
      if q[2] == '=' && q[3] == '=' then Some(Join(c0, c1, 0, 0)[..1])
      else if q[3] == '=' then
        match AlphabetValue(q[2])
        case Some(c2) => Some(Join(c0, c1, c2, 0)[..2])
        case None => None
      else None
    case _ => None
  }

  /** Reads a padded base64 text; `None` when it is not one. */
  function Decode(t: seq<char>): Option<seq<Byte>>
    decreases |t|
  {
    if |t| == 0 then Some([])
    else if |t| < 4 then None
    else if |t| == 4 && t[3] == '=' then DecodePadded(t)
    else match DecodeGroup(t[..4])
      case None => None
      case Some(g) =>
        match Decode(t[4..])
        case None => None
        case Some(rest) => Some(g + rest)
  }

  // ---------------------------------------------------------------------
  // Properties
  // ---------------------------------------------------------------------

  /** Splitting three bytes into sextets and joining them again is the identity. */
  lemma SplitJoin(b0: Byte, b1: Byte, b2: Byte)
    ensures Join(b0 / 4, (b0 % 4) * 16 + b1 / 16, (b1 % 16) * 4 + b2 / 64, b2 % 64) == [b0, b1, b2]
  {
    var c1 := (b0 % 4) * 16 + b1 / 16;
    var c2 := (b1 % 16) * 4 + b2 / 64;
    assert c1 / 16 == b0 % 4 && c1 % 16 == b1 / 16;
    assert c2 / 4 == b1 % 16 && c2 % 4 == b2 / 64;
  }

  lemma GroupRoundTrip(b0: Byte, b1: Byte, b2: Byte)
    ensures DecodeGroup(EncodeGroup(b0, b1, b2)) == Some([b0, b1, b2])
  {
    var c0, c1, c2, c3 := b0 / 4, (b0 % 4) * 16 + b1 / 16, (b1 % 16) * 4 + b2 / 64, b2 % 64;
    AlphabetInverse(c0);
    AlphabetInverse(c1);
    AlphabetInverse(c2);
    AlphabetInverse(c3);
    SplitJoin(b0, b1, b2);
  }

  lemma TailOneRoundTrip(b0: Byte)
    ensures DecodePadded(EncodeTail([b0])) == Some([b0])
  {
    var c0, c1 := b0 / 4, (b0 % 4) * 16;
    var q := EncodeTail([b0]);
    assert q == [AlphabetChar(c0), AlphabetChar(c1), '=', '='];
    AlphabetInverse(c0);
    AlphabetInverse(c1);
    SplitJoin(b0, 0, 0);
    assert Join(c0, c1, 0, 0) == [b0, 0, 0];
    assert Join(c0, c1, 0, 0)[..1] == [b0];
  }

  lemma TailTwoRoundTrip(b0: Byte, b1: Byte)
    ensures DecodePadded(EncodeTail([b0, b1])) == Some([b0, b1])
  {
    var c0, c1, c2 := b0 / 4, (b0 % 4) * 16 + b1 / 16, (b1 % 16) * 4;
    var q := EncodeTail([b0, b1]);
    assert q == [AlphabetChar(c0), AlphabetChar(c1), AlphabetChar(c2), '='];
    AlphabetInverse(c0);
    AlphabetInverse(c1);
    AlphabetInverse(c2);
    SplitJoin(b0, b1, 0);
    assert Join(c0, c1, c2, 0) == [b0, b1, 0];
    assert Join(c0, c1, c2, 0)[..2] == [b0, b1];
  }

  /** A full group in front of a decodable text decodes to its three bytes in front. */
  lemma DecodeGroupThen(q: seq<char>, rest: seq<char>, g: seq<Byte>, r: seq<Byte>)
    requires |q| == 4 && q[3] != '='
    requires DecodeGroup(q) == Some(g) && Decode(rest) == Some(r)
    ensures Decode(q + rest) == Some(g + r)
  {
    var t := q + rest;
    assert t[..4] == q && t[4..] == rest;
  }

  /** Decoding the encoder's output gives back every byte, for any byte string. */
  lemma {:induction false} RoundTrip(s: seq<Byte>)
    ensures Decode(Encode(s)) == Some(s)
    decreases |s|
  {
    if |s| == 0 {
    } else if |s| == 1 {
      TailOneRoundTrip(s[0]);
      assert s == [s[0]];
    } else if |s| == 2 {
      TailTwoRoundTrip(s[0], s[1]);
      assert s == [s[0], s[1]];
    } else {
      var g := EncodeGroup(s[0], s[1], s[2]);
      assert Encode(s) == g + Encode(s[3..]);
      GroupRoundTrip(s[0], s[1], s[2]);
      RoundTrip(s[3..]);
      DecodeGroupThen(g, Encode(s[3..]), [s[0], s[1], s[2]], s[3..]);
      assert [s[0], s[1], s[2]] + s[3..] == s;
    }
  }

  /** The output is 4 * ceil(n / 3) characters long. */
  lemma {:induction false} EncodedLength(s: seq<Byte>)
    ensures |Encode(s)| == 4 * ((|s| + 2) / 3)
    decreases |s|
  {
    if |s| >= 3 {
      EncodedLength(s[3..]);
      assert |Encode(s)| == 4 + |Encode(s[3..])|;
      assert (|s| + 2) / 3 == (|s[3..]| + 2) / 3 + 1;
    }
  }

  /** Every character is in the alphabet, except trailing '=' padding (at most two). */
  lemma {:induction false} EncodedAlphabet(s: seq<Byte>)
    ensures var t := Encode(s);
      forall i :: 0 <= i < |t| ==> IsAlphabetChar(t[i]) || (t[i] == '=' && i >= |t| - 2)
    decreases |s|
  {
    var t := Encode(s);
    if |s| == 0 {
    } else if |s| < 3 {
      forall i | 0 <= i < |t| ensures IsAlphabetChar(t[i]) || (t[i] == '=' && i >= |t| - 2) {
        if i < 2 || (i == 2 && |s| == 2) {
          var v: Sextet :| t[i] == AlphabetChar(v);
          AlphabetInverse(v);
        }
      }
    } else {
      var g := EncodeGroup(s[0], s[1], s[2]);
      EncodedAlphabet(s[3..]);
      EncodedLength(s[3..]);
      forall i | 0 <= i < |t| ensures IsAlphabetChar(t[i]) || (t[i] == '=' && i >= |t| - 2) {
        if i < 4 {
          var v: Sextet :| g[i] == AlphabetChar(v);
          AlphabetInverse(v);
        } else {
          assert t[i] == Encode(s[3..])[i - 4];
        }
      }
    }
  }
}
