/**
 * The standard base64 encoding of section 4 of RFC 4648, as Go's
 * `base64.StdEncoding` implements it: `EncodeToString` always pads, and
 * `DecodeString` skips carriage returns and line feeds, demands padding,
 * and ignores nonzero bits left over in the final quantum.
 */
module Base64 {
  import opened Wrappers

  newtype byte = x: int | 0 <= x < 256

  /** The padding character. */
  const Pad: char := '='

  /** The symbol for a 6-bit value, as listed in Table 1 of RFC 4648. */
  function Symbol(v: int): (c: char)
    requires 0 <= v < 64
  {
    if v < 26 then ('A' as int + v) as char
    else if v < 52 then ('a' as int + (v - 26)) as char
    else if v < 62 then ('0' as int + (v - 52)) as char
    else if v == 62 then '+'
    else '/'
  }

  /** The 6-bit value of a symbol, or `None` for any other character (padding included). */
  function SymbolValue(c: char): (r: Option<int>)
    ensures r.Some? ==> 0 <= r.value < 64 && Symbol(r.value) == c
  {
    if 'A' <= c <= 'Z' then Some(c as int - 'A' as int)
    else if 'a' <= c <= 'z' then Some(c as int - 'a' as int + 26)
    else if '0' <= c <= '9' then Some(c as int - '0' as int + 52)
    else if c == '+' then Some(62)
    else if c == '/' then Some(63)
    else None
  }

  predicate IsSymbol(c: char)
  {
    SymbolValue(c).Some?
  }

  lemma SymbolValueOfSymbol(v: int)
    requires 0 <= v < 64
    ensures SymbolValue(Symbol(v)) == Some(v)
  {
  }

  /** Three bytes become four symbols. */
  function EncodeGroup(b0: byte, b1: byte, b2: byte): (s: string)
    ensures |s| == 4 && forall k :: 0 <= k < 4 ==> IsSymbol(s[k])
  {
    [ Symbol(b0 as int / 4),
      Symbol((b0 as int % 4) * 16 + b1 as int / 16),
      Symbol((b1 as int % 16) * 4 + b2 as int / 64),
      Symbol(b2 as int % 64) ]
  }

  /** One byte becomes two symbols and two pads. */
  function EncodeOne(b0: byte): (s: string)
    ensures |s| == 4 && IsSymbol(s[0]) && IsSymbol(s[1]) && s[2] == Pad && s[3] == Pad
  {
    [Symbol(b0 as int / 4), Symbol((b0 as int % 4) * 16), Pad, Pad]
  }

  /** Two bytes become three symbols and a pad. */
  function EncodeTwo(b0: byte, b1: byte): (s: string)
    ensures |s| == 4 && IsSymbol(s[0]) && IsSymbol(s[1]) && IsSymbol(s[2]) && s[3] == Pad
  {
    [Symbol(b0 as int / 4), Symbol((b0 as int % 4) * 16 + b1 as int / 16), Symbol((b1 as int % 16) * 4), Pad]
  }

  /**
   * `base64.StdEncoding.EncodeToString`: four symbols per three bytes, the
   * final one or two bytes padded to four characters with `=`.
   */
  function Encode(b: seq<byte>): (s: string)
    ensures |s| == 4 * ((|b| + 2) / 3)
    ensures |b| <= |s|
    decreases |b|
  {
    if |b| == 0 then []
    else if |b| == 1 then EncodeOne(b[0])
    else if |b| == 2 then EncodeTwo(b[0], b[1])
    else
      QuantaStep(|b|);
      EncodeGroup(b[0], b[1], b[2]) + Encode(b[3..])
  }

  /** Three more bytes make one more quantum. */
  lemma QuantaStep(n: int)
    requires n >= 3
    ensures (n + 2) / 3 == (n - 3 + 2) / 3 + 1
  {
  }

  /**
   * The encoding is made of symbols and padding only, and its first `|b|`
   * characters are symbols: padding comes later.
   */
  lemma {:induction false} EncodeAlphabet(b: seq<byte>)
    ensures forall k :: 0 <= k < |Encode(b)| ==> IsSymbol(Encode(b)[k]) || Encode(b)[k] == Pad
    ensures forall k :: 0 <= k < |b| ==> IsSymbol(Encode(b)[k])
    decreases |b|
  {
    if |b| >= 3 {
      var g, rest := EncodeGroup(b[0], b[1], b[2]), Encode(b[3..]);
      EncodeAlphabet(b[3..]);
      forall k | 0 <= k < |Encode(b)|
        ensures IsSymbol(Encode(b)[k]) || Encode(b)[k] == Pad
        ensures k < |b| ==> IsSymbol(Encode(b)[k])
      {
        if k >= 4 {
          assert Encode(b)[k] == rest[k - 4];
        }
      }
    }
  }

  /** `DecodeString` skips `\r` and `\n` wherever they occur. */
  function StripNewlines(s: string): (t: string)
    ensures forall k :: 0 <= k < |t| ==> t[k] != '\r' && t[k] != '\n'
  {
    if |s| == 0 then []
    else if s[0] == '\r' || s[0] == '\n' then StripNewlines(s[1..])
    else [s[0]] + StripNewlines(s[1..])
  }

  /** Four symbols become three bytes. */
  function DecodeFull(c0: char, c1: char, c2: char, c3: char): (r: Option<seq<byte>>)
    ensures r.Some? ==> |r.value| == 3
  {
    match (SymbolValue(c0), SymbolValue(c1), SymbolValue(c2), SymbolValue(c3))
    case (Some(v0), Some(v1), Some(v2), Some(v3)) =>
      Some([(v0 * 4 + v1 / 16) as byte, ((v1 % 16) * 16 + v2 / 4) as byte, ((v2 % 4) * 64 + v3) as byte])
    case _ => None
  }

  /** The last quantum, which may end in `==` (one byte) or `=` (two bytes). */
  function DecodeFinal(c0: char, c1: char, c2: char, c3: char): (r: Option<seq<byte>>)
    ensures r.Some? ==> 1 <= |r.value| <= 3
  {
    match (SymbolValue(c0), SymbolValue(c1), SymbolValue(c2))
    case (Some(v0), Some(v1), _) =>
      if c2 == Pad && c3 == Pad then
        Some([(v0 * 4 + v1 / 16) as byte])
      else if c3 == Pad then
        match SymbolValue(c2)
        case Some(v2) => Some([(v0 * 4 + v1 / 16) as byte, ((v1 % 16) * 16 + v2 / 4) as byte])
        case None => None
      else DecodeFull(c0, c1, c2, c3)
    case _ => None
  }

  /** Decoding of the text once newlines are gone: whole quanta, padding only in the last. */
  function DecodeQuanta(t: string): Option<seq<byte>>
    decreases |t|
  {
    if |t| == 0 then Some([])
    else if |t| < 4 then None
    else if |t| == 4 then DecodeFinal(t[0], t[1], t[2], t[3])
    else
      match DecodeFull(t[0], t[1], t[2], t[3])
      case None => None
      case Some(g) =>
        match DecodeQuanta(t[4..])
        case None => None
        case Some(rest) => Some(g + rest)
  }

  /** `base64.StdEncoding.DecodeString`: the decoded bytes, or `None` for illegal input. */
  function Decode(s: string): Option<seq<byte>>
  {
    DecodeQuanta(StripNewlines(s))
  }

  lemma {:induction false} StripNewlinesIdentity(s: string)
    requires forall k :: 0 <= k < |s| ==> s[k] != '\r' && s[k] != '\n'
    ensures StripNewlines(s) == s
    decreases |s|
  {
    if |s| > 0 {
      StripNewlinesIdentity(s[1..]);
      assert s == [s[0]] + s[1..];
    }
  }

  lemma GroupRoundTrip(b0: byte, b1: byte, b2: byte)
    ensures DecodeFull(EncodeGroup(b0, b1, b2)[0], EncodeGroup(b0, b1, b2)[1],
                       EncodeGroup(b0, b1, b2)[2], EncodeGroup(b0, b1, b2)[3]) == Some([b0, b1, b2])
  {
    var x0, x1, x2 := b0 as int, b1 as int, b2 as int;
    var v0, v1, v2, v3 := x0 / 4, (x0 % 4) * 16 + x1 / 16, (x1 % 16) * 4 + x2 / 64, x2 % 64;
    SymbolValueOfSymbol(v0);
    SymbolValueOfSymbol(v1);
    SymbolValueOfSymbol(v2);
    SymbolValueOfSymbol(v3);
    assert v1 / 16 == x0 % 4 && v1 % 16 == x1 / 16;
    assert v2 / 4 == x1 % 16 && v2 % 4 == x2 / 64;
    assert v0 * 4 + v1 / 16 == x0;
    assert (v1 % 16) * 16 + v2 / 4 == x1;
    assert (v2 % 4) * 64 + v3 == x2;
  }

  lemma DecodeOneByte(b0: byte)
    ensures var s := EncodeOne(b0); DecodeFinal(s[0], s[1], s[2], s[3]) == Some([b0])
  {
    var x0 := b0 as int;
    var v0, v1 := x0 / 4, (x0 % 4) * 16;
    SymbolValueOfSymbol(v0);
    SymbolValueOfSymbol(v1);
    assert v0 * 4 + v1 / 16 == x0;
  }

  lemma DecodeTwoBytes(b0: byte, b1: byte)
    ensures var s := EncodeTwo(b0, b1); DecodeFinal(s[0], s[1], s[2], s[3]) == Some([b0, b1])
  {
    var x0, x1 := b0 as int, b1 as int;
    var v0, v1, v2 := x0 / 4, (x0 % 4) * 16 + x1 / 16, (x1 % 16) * 4;
    SymbolValueOfSymbol(v0);
    SymbolValueOfSymbol(v1);
    SymbolValueOfSymbol(v2);
    assert v1 / 16 == x0 % 4 && v1 % 16 == x1 / 16 && v2 / 4 == x1 % 16;
    assert v0 * 4 + v1 / 16 == x0;
    assert (v1 % 16) * 16 + v2 / 4 == x1;
  }

  lemma FinalOfFullQuantum(c0: char, c1: char, c2: char, c3: char)
    requires IsSymbol(c2) && IsSymbol(c3)
    ensures DecodeFinal(c0, c1, c2, c3) == DecodeFull(c0, c1, c2, c3)
  {
  }

  lemma DecodeQuantaCons(g: string, rest: string, x: seq<byte>, y: seq<byte>)
    requires |g| == 4 && |rest| > 0
    requires DecodeFull(g[0], g[1], g[2], g[3]) == Some(x)
    requires DecodeQuanta(rest) == Some(y)
    ensures DecodeQuanta(g + rest) == Some(x + y)
  {
    var t := g + rest;
    assert t[4..] == rest;
    assert t[0] == g[0] && t[1] == g[1] && t[2] == g[2] && t[3] == g[3];
  }

  lemma {:induction false} QuantaRoundTrip(b: seq<byte>)
    ensures DecodeQuanta(Encode(b)) == Some(b)
    decreases |b|
  {
    if |b| == 0 {
    } else if |b| == 1 {
      DecodeOneByte(b[0]);
      assert b == [b[0]];
    } else if |b| == 2 {
      DecodeTwoBytes(b[0], b[1]);
      assert b == [b[0], b[1]];
    } else {
      var g := EncodeGroup(b[0], b[1], b[2]);
      var rest := Encode(b[3..]);
      assert Encode(b) == g + rest;
      GroupRoundTrip(b[0], b[1], b[2]);
      assert b == [b[0], b[1], b[2]] + b[3..];
      if |rest| == 0 {
        assert b == [b[0], b[1], b[2]];
        assert IsSymbol(g[2]) && IsSymbol(g[3]);
        FinalOfFullQuantum(g[0], g[1], g[2], g[3]);
        assert Encode(b) == g;
        assert DecodeQuanta(g) == DecodeFinal(g[0], g[1], g[2], g[3]);
      } else {
        QuantaRoundTrip(b[3..]);
        DecodeQuantaCons(g, rest, [b[0], b[1], b[2]], b[3..]);
      }
    }
  }

  /** Decoding undoes encoding, for every byte string. */
  lemma RoundTrip(b: seq<byte>)
    ensures Decode(Encode(b)) == Some(b)
  {
    var s := Encode(b);
    EncodeAlphabet(b);
    assert forall k :: 0 <= k < |s| ==> s[k] != '\r' && s[k] != '\n';
    StripNewlinesIdentity(s);
    QuantaRoundTrip(b);
  }
}
